/**
 Assigning containers to symbols (src/parser.rs, `assign_containers`): every symbol gets the name of
 the tightest class-like symbol whose lines enclose its own.
 */
module Containers {
  import opened Text

  datatype Position = Position(line: nat, character: nat)

  datatype Range = Range(start: Position, end: Position)

  datatype Kind = Class | Interface | Struct | Enum | Object | Function | Method | Property | Variable | OtherKind

  datatype Symbol = Symbol(name: string, kind: Kind, range: Range, container: Option<string>)

  predicate IsContainerKind(k: Kind) {
    k in {Class, Interface, Struct, Enum, Object}
  }

  /** Symbols as the extraction yields them: no range ends on a line before its start. */
  predicate RangesOk(ss: seq<Symbol>) {
    forall s | s in ss :: s.range.start.line <= s.range.end.line
  }

  predicate SameLines(a: Range, b: Range) {
    a.start.line == b.start.line && a.end.line == b.end.line
  }

  predicate LinesWithin(a: Range, b: Range) {
    b.start.line <= a.start.line && a.end.line <= b.end.line
  }

  /** `c` is a container other than symbol `i`, encloses its lines, and does not have the very same range. */
  predicate Encloser(ss: seq<Symbol>, i: nat, c: nat)
    requires i < |ss|
  {
    c < |ss| && c != i && IsContainerKind(ss[c].kind) && LinesWithin(ss[i].range, ss[c].range) && ss[c].range != ss[i].range
  }

  function LineSpan(r: Range): nat {
    if r.start.line <= r.end.line then r.end.line - r.start.line else 0
  }

  /** `saturating_sub` */
  function ColumnSpan(r: Range): nat {
    if r.start.character <= r.end.character then r.end.character - r.start.character else 0
  }

  /** The sort key of `min_by_key` is smaller. */
  predicate Tighter(a: Range, b: Range) {
    LineSpan(a) < LineSpan(b) || (LineSpan(a) == LineSpan(b) && ColumnSpan(a) < ColumnSpan(b))
  }

  /** `p` is the first of the tightest symbols among those below `n` that satisfy `f`. */
  ghost predicate FirstTightest(ss: seq<Symbol>, f: nat -> bool, n: nat, p: nat)
    requires n <= |ss|
  {
    && p < n && f(p)
    && (forall c | 0 <= c < n && f(c) :: !Tighter(ss[c].range, ss[p].range))
    && (forall c | 0 <= c < p && f(c) :: Tighter(ss[p].range, ss[c].range))
  }

  function Tightest(ss: seq<Symbol>, f: nat -> bool, n: nat): (r: Option<nat>)
    requires n <= |ss|
    ensures r.Some? ==> FirstTightest(ss, f, n, r.value)
    ensures r.None? ==> forall c | 0 <= c < n :: !f(c)
  {
    if n == 0 then None
    else
      var r := Tightest(ss, f, n - 1);
      if f(n - 1) && (r.None? || Tighter(ss[n - 1].range, ss[r.value].range)) then Some(n - 1) else r
  }

  function EncloserOf(ss: seq<Symbol>, i: nat): nat -> bool
    requires i < |ss|
  {
    (c: nat) => Encloser(ss, i, c)
  }

  /** The container of symbol `i`. */
  function Parent(ss: seq<Symbol>, i: nat): (r: Option<nat>)
    requires i < |ss|
    ensures r.Some? ==> Encloser(ss, i, r.value) && forall c: nat | Encloser(ss, i, c) :: !Tighter(ss[c].range, ss[r.value].range)
    ensures r.None? <==> forall c: nat :: !Encloser(ss, i, c)
  {
    assert forall c: nat :: Encloser(ss, i, c) <==> EncloserOf(ss, i)(c);
    Tightest(ss, EncloserOf(ss, i), |ss|)
  }

  function WithContainer(ss: seq<Symbol>, i: nat): Symbol
    requires i < |ss|
  {
    match Parent(ss, i)
    case Some(p) => ss[i].(container := Some(ss[p].name))
    case None => ss[i]
  }

  /** Symbols that differ at most in their containers have the same parents. */
  predicate SameShape(a: seq<Symbol>, b: seq<Symbol>) {
    |a| == |b| && forall i | 0 <= i < |a| :: a[i].name == b[i].name && a[i].kind == b[i].kind && a[i].range == b[i].range
  }

  lemma {:induction false} ShapeDecides(a: seq<Symbol>, b: seq<Symbol>, f: nat -> bool, g: nat -> bool, n: nat)
    requires SameShape(a, b) && n <= |a| && forall c: nat | c < n :: f(c) == g(c)
    ensures Tightest(a, f, n) == Tightest(b, g, n)
  {
    if n > 0 {
      ShapeDecides(a, b, f, g, n - 1);
    }
  }

  method AssignContainers(symbols: array<Symbol>)
    modifies symbols
    ensures forall i | 0 <= i < symbols.Length :: symbols[i] == WithContainer(old(symbols[..]), i)
  {
    ghost var before := symbols[..];
    for i := 0 to symbols.Length
      invariant SameShape(before, symbols[..])
      invariant forall k | 0 <= k < i :: symbols[k] == WithContainer(before, k)
      invariant forall k | i <= k < symbols.Length :: symbols[k] == before[k]
    {
      assert Parent(before, i) == Parent(symbols[..], i) by {
        ShapeDecides(before, symbols[..], EncloserOf(before, i), EncloserOf(symbols[..], i), |before|);
      }
      var parent := FindParent(symbols, i);
      if parent.Some? {
        symbols[i] := symbols[i].(container := Some(symbols[parent.value].name));
      }
    }
  }

  /** The filter and `min_by_key` over the containers. */
  method FindParent(symbols: array<Symbol>, i: nat) returns (best: Option<nat>)
    requires i < symbols.Length
    ensures best == Parent(symbols[..], i)
  {
    best := None;
    ghost var ss := symbols[..];
    for c := 0 to symbols.Length
      invariant best == Tightest(ss, EncloserOf(ss, i), c)
    {
      if Encloser(symbols[..], i, c) && (best.None? || Tighter(symbols[c].range, symbols[best.value].range)) {
        best := Some(c);
      }
    }
  }

  // ----- which symbol that is

  /** A class-like symbol around the lines of another one, and not with the very same range. */
  predicate Around(c: Symbol, s: Symbol) {
    && (c.kind == Class || c.kind == Interface || c.kind == Struct || c.kind == Enum || c.kind == Object)
    && c.range.start.line <= s.range.start.line && s.range.end.line <= c.range.end.line && c.range != s.range
  }

  /** How far apart two numbers are, if they are in order. */
  function Apart(a: nat, b: nat): nat {
    if a < b then b - a else 0
  }

  /** Fewer lines, or as many lines and fewer columns between the first and the last character. */
  predicate Smaller(a: Range, b: Range) {
    var m, n := Apart(a.start.line, a.end.line), Apart(b.start.line, b.end.line);
    m < n || (m == n && Apart(a.start.character, a.end.character) < Apart(b.start.character, b.end.character))
  }

  /** The container is the first of the smallest symbols around, and there is none if there is nothing around. */
  lemma ParentIs(ss: seq<Symbol>, i: nat, p: nat)
    requires i < |ss|
    ensures Parent(ss, i) == Some(p) <==>
      && p < |ss| && p != i && Around(ss[p], ss[i])
      && (forall c: nat | c < |ss| && c != i && Around(ss[c], ss[i]) :: !Smaller(ss[c].range, ss[p].range))
      && (forall c: nat | c < p && c != i && Around(ss[c], ss[i]) :: Smaller(ss[p].range, ss[c].range))
    ensures Parent(ss, i) == None <==> forall c: nat | c < |ss| && c != i :: !Around(ss[c], ss[i])
  {
    forall c: nat ensures Encloser(ss, i, c) <==> c < |ss| && c != i && Around(ss[c], ss[i]) {
    }
    assert forall a, b :: Tighter(a, b) <==> Smaller(a, b);
    assert forall c: nat :: EncloserOf(ss, i)(c) <==> Encloser(ss, i, c);
    hide Tighter, Smaller, Around, Encloser;
  }

  // ----- when following containers comes to an end

  /** The symbol reached from `i` by following containers `n` times. */
  function Follow(ss: seq<Symbol>, i: nat, n: nat): (r: Option<nat>)
    requires i < |ss|
    ensures r.Some? ==> r.value < |ss|
  {
    if n == 0 then Some(i)
    else
      match Follow(ss, i, n - 1)
      case None => None
      case Some(p) => Parent(ss, p)
  }

  ghost predicate Acyclic(ss: seq<Symbol>) {
    forall i: nat, n: nat | i < |ss| && n > 0 :: Follow(ss, i, n) != Some(i)
  }

  /** Two containers on exactly the same lines, but not with the same range, enclose each other. */
  ghost predicate Clash(ss: seq<Symbol>, i: nat, j: nat) {
    && i < |ss| && j < |ss| && IsContainerKind(ss[i].kind) && IsContainerKind(ss[j].kind)
    && SameLines(ss[i].range, ss[j].range) && ss[i].range != ss[j].range
  }

  /** Without a clash, a container's container spans more lines. */
  lemma ParentSpansMore(ss: seq<Symbol>, i: nat)
    requires RangesOk(ss) && i < |ss| && Parent(ss, i).Some?
    requires forall a: nat, b: nat :: !Clash(ss, a, b)
    ensures var p := Parent(ss, i).value;
      && IsContainerKind(ss[p].kind) && LineSpan(ss[i].range) <= LineSpan(ss[p].range)
      && (IsContainerKind(ss[i].kind) ==> LineSpan(ss[i].range) < LineSpan(ss[p].range))
  {
    var p := Parent(ss, i).value;
    assert ss[i] in ss && ss[p] in ss;
    assert !Clash(ss, i, p);
  }

  lemma {:induction false} FollowSpansMore(ss: seq<Symbol>, i: nat, n: nat)
    requires RangesOk(ss) && i < |ss| && n > 0 && Follow(ss, i, n).Some?
    requires forall a: nat, b: nat :: !Clash(ss, a, b)
    ensures var p := Follow(ss, i, n).value;
      && IsContainerKind(ss[p].kind)
      && (IsContainerKind(ss[i].kind) ==> LineSpan(ss[i].range) < LineSpan(ss[p].range))
  {
    if n > 1 {
      FollowSpansMore(ss, i, n - 1);
    } else {
      assert Follow(ss, i, 0) == Some(i);
    }
    ParentSpansMore(ss, Follow(ss, i, n - 1).value);
  }

  /** The containers on the lines of a range. */
  function OnLines(ss: seq<Symbol>, r: Range): nat -> bool {
    (c: nat) => c < |ss| && IsContainerKind(ss[c].kind) && SameLines(ss[c].range, r)
  }

  /** A clash makes two containers each other's container. */
  lemma ClashMakesCycle(ss: seq<Symbol>, i: nat, j: nat)
    requires RangesOk(ss) && Clash(ss, i, j)
    ensures !Acyclic(ss)
  {
    var group := OnLines(ss, ss[i].range);
    assert group(i) && group(j);
    var m := Tightest(ss, group, |ss|).value;
    var other := if ss[i].range != ss[m].range then i else j;
    assert Encloser(ss, m, other);
    var p := Parent(ss, m).value;
    assert Encloser(ss, p, m);
    var q := Parent(ss, p).value;
    assert group(q);
    assert Follow(ss, m, 0) == Some(m) && Follow(ss, m, 1) == Some(p) && Follow(ss, m, 2) == Some(m);
  }

  /** Following containers never comes back to its start, if and only if there is no clash. */
  lemma AcyclicIffNoClash(ss: seq<Symbol>)
    requires RangesOk(ss)
    ensures Acyclic(ss) <==> forall i: nat, j: nat :: !Clash(ss, i, j)
  {
    if i: nat, j: nat :| Clash(ss, i, j) {
      ClashMakesCycle(ss, i, j);
    } else {
      forall i: nat, n: nat | i < |ss| && n > 0 ensures Follow(ss, i, n) != Some(i) {
        if Follow(ss, i, n).Some? {
          FollowSpansMore(ss, i, n);
        }
      }
    }
  }

  // ----- forests

  /** For example `class A {} class B {}`, on one line: each of the two becomes the container of the other. */
  lemma CycleExample()
    ensures var a := Symbol("A", Class, Range(Position(0, 0), Position(0, 10)), None);
      var b := Symbol("B", Class, Range(Position(0, 11), Position(0, 21)), None);
      RangesOk([a, b]) && Parent([a, b], 0) == Some(1) && Parent([a, b], 1) == Some(0)
  {
    var a := Symbol("A", Class, Range(Position(0, 0), Position(0, 10)), None);
    var b := Symbol("B", Class, Range(Position(0, 11), Position(0, 21)), None);
    assert Encloser([a, b], 0, 1) && Encloser([a, b], 1, 0);
  }

  /** The lines of any two containers are disjoint or strictly nested. */
  ghost predicate Laminar(ss: seq<Symbol>) {
    forall i, j | 0 <= i < |ss| && 0 <= j < |ss| && i != j && IsContainerKind(ss[i].kind) && IsContainerKind(ss[j].kind) ::
      var a, b := ss[i].range, ss[j].range;
      || a.end.line < b.start.line || b.end.line < a.start.line
      || (LinesWithin(a, b) && !SameLines(a, b)) || (LinesWithin(b, a) && !SameLines(a, b))
  }

  function MaxSpan(ss: seq<Symbol>): (m: nat)
    ensures forall s | s in ss :: LineSpan(s.range) <= m
  {
    if ss == [] then 0 else Max(LineSpan(ss[0].range), MaxSpan(ss[1..]))
  }

  /** How far up symbol `i` is: the way to its container lowers this. */
  function Rank(ss: seq<Symbol>, i: nat): nat
    requires i < |ss|
  {
    assert ss[i] in ss;
    2 * (MaxSpan(ss) - LineSpan(ss[i].range)) + if IsContainerKind(ss[i].kind) then 0 else 1
  }

  /** The containers met on the way up from symbol `i`. */
  ghost function Chain(ss: seq<Symbol>, i: nat): (chain: seq<nat>)
    requires RangesOk(ss) && Laminar(ss) && i < |ss|
    ensures forall k | 0 <= k < |chain| :: chain[k] < |ss|
    decreases Rank(ss, i)
  {
    hide *;
    match Parent(ss, i)
    case None => []
    case Some(p) =>
      [p] + Chain(ss, p)
  }

  /** The enclosers of a symbol are its container and that container's enclosers. */
  lemma EnclosersAbove(ss: seq<Symbol>, i: nat, c: nat)
    requires RangesOk(ss) && Laminar(ss) && i < |ss| && Parent(ss, i).Some?
    ensures Encloser(ss, i, c) <==> c == Parent(ss, i).value || Encloser(ss, Parent(ss, i).value, c)
  {
    var p := Parent(ss, i).value;
    assert ss[i] in ss && ss[p] in ss;
    if c < |ss| && c != p && c != i && IsContainerKind(ss[c].kind) {
      assert ss[c] in ss;
      assert Encloser(ss, i, c) ==> !Tighter(ss[c].range, ss[p].range);
    }
  }

  lemma ChainUnfold(ss: seq<Symbol>, i: nat)
    requires RangesOk(ss) && Laminar(ss) && i < |ss|
    ensures Chain(ss, i) == match Parent(ss, i) case None => [] case Some(p) => [p] + Chain(ss, p)
  {
  }

  /** Following containers visits exactly the enclosers. */
  lemma {:induction false} ChainMembers(ss: seq<Symbol>, i: nat, c: nat)
    requires RangesOk(ss) && Laminar(ss) && i < |ss|
    ensures c in Chain(ss, i) <==> Encloser(ss, i, c)
    decreases Rank(ss, i)
  {
    var p := Parent(ss, i);
    if p.Some? {
      assert ss[p.value] in ss && ss[i] in ss;
      EnclosersAbove(ss, i, c);
      ChainMembers(ss, p.value, c);
      assert Chain(ss, i) == [p.value] + Chain(ss, p.value);
    }
  }

  lemma EncloserSpansMore(ss: seq<Symbol>, i: nat, c: nat)
    requires RangesOk(ss) && Laminar(ss) && i < |ss| && IsContainerKind(ss[i].kind) && Encloser(ss, i, c)
    ensures LineSpan(ss[i].range) < LineSpan(ss[c].range)
  {
    assert ss[i] in ss && ss[c] in ss;
  }

  lemma {:induction false} ChainRises(ss: seq<Symbol>, i: nat, a: nat, b: nat)
    requires RangesOk(ss) && Laminar(ss) && i < |ss| && a < b < |Chain(ss, i)|
    ensures LineSpan(ss[Chain(ss, i)[a]].range) < LineSpan(ss[Chain(ss, i)[b]].range)
    decreases a
  {
    hide Chain, Encloser, Laminar, RangesOk;
    var chain := Chain(ss, i);
    ChainUnfold(ss, i);
    var p := chain[0];
    assert chain[b] == Chain(ss, p)[b - 1];
    if a > 0 {
      assert chain[a] == Chain(ss, p)[a - 1];
      ChainRises(ss, p, a - 1, b - 1);
    } else {
      assert chain[b] in Chain(ss, p);
      ChainMembers(ss, p, chain[b]);
      ParentIsContainer(ss, i);
      EncloserSpansMore(ss, p, chain[b]);
    }
  }

  lemma ParentIsContainer(ss: seq<Symbol>, i: nat)
    requires i < |ss| && Parent(ss, i).Some?
    ensures IsContainerKind(ss[Parent(ss, i).value].kind)
  {
  }

  /**
   When the lines of the containers are pairwise disjoint or strictly nested, following containers
   lists exactly the enclosers of a symbol, each spanning more lines than the one before.
   */
  lemma ChainIsEnclosers(ss: seq<Symbol>, i: nat)
    requires RangesOk(ss) && Laminar(ss) && i < |ss|
    ensures forall c: nat :: c in Chain(ss, i) <==> Encloser(ss, i, c)
    ensures var chain := Chain(ss, i);
      forall a, b | 0 <= a < b < |chain| :: LineSpan(ss[chain[a]].range) < LineSpan(ss[chain[b]].range)
  {
    hide Chain, Encloser, Laminar, RangesOk;
    var chain := Chain(ss, i);
    forall c: nat ensures c in chain <==> Encloser(ss, i, c) {
      ChainMembers(ss, i, c);
    }
    forall a, b | 0 <= a < b < |chain| ensures LineSpan(ss[chain[a]].range) < LineSpan(ss[chain[b]].range) {
      ChainRises(ss, i, a, b);
    }
  }
}
