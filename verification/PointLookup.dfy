/**
 From a row and column to a syntax node (src/node_ext.rs, `descendant_for_point`; src/inlay_hints.rs,
 `line_starts`): the row is found by scanning for line breaks, the column is clamped to its row,
 and the descent resumes from whatever ancestor tree-sitter's own lookup returned.
 */
module PointLookup {
  import opened Text
  import opened SyntaxTree

  const MAX_CST_DESCENT_DEPTH := 512

  // ----- lines

  /** The offsets of the first `n` bytes at which a line begins. */
  ghost function StartsUpTo(bytes: string, n: nat): seq<nat>
    requires n <= |bytes|
  {
    if n == 0 then [0] else StartsUpTo(bytes, n - 1) + if bytes[n - 1] == '\n' then [n] else []
  }

  /** The list holds, in increasing order, exactly the offsets 0 and one past each line break. */
  lemma {:induction false} StartsMeaning(bytes: string, n: nat)
    requires n <= |bytes|
    ensures forall i, j | 0 <= i < j < |StartsUpTo(bytes, n)| :: StartsUpTo(bytes, n)[i] < StartsUpTo(bytes, n)[j]
    ensures forall o: nat :: o in StartsUpTo(bytes, n) <==> o == 0 || (o <= n && bytes[o - 1] == '\n')
  {
    if n > 0 {
      StartsMeaning(bytes, n - 1);
      var before := StartsUpTo(bytes, n - 1);
      forall i | 0 <= i < |before| ensures before[i] < n {
        assert before[i] in before;
      }
    }
  }

  method LineStarts(bytes: string) returns (starts: seq<nat>)
    ensures starts == StartsUpTo(bytes, |bytes|)
  {
    starts := [0];
    for i := 0 to |bytes|
      invariant starts == StartsUpTo(bytes, i)
    {
      if bytes[i] == '\n' {
        starts := starts + [i + 1];
      }
    }
  }

  /** `position(|b| b == '\n')` in the bytes from `from` on, as an offset into `bytes`. */
  function NextBreak(bytes: string, from: nat): (r: Option<nat>)
    requires from <= |bytes|
    ensures r.Some? ==> from <= r.value < |bytes| && bytes[r.value] == '\n'
    ensures forall i | from <= i < (if r.Some? then r.value else |bytes|) :: bytes[i] != '\n'
    decreases |bytes| - from
  {
    if from == |bytes| then None else if bytes[from] == '\n' then Some(from) else NextBreak(bytes, from + 1)
  }

  /** Where a row begins; rows past the last one begin at the end of the file. */
  ghost function RowStart(bytes: string, row: nat): nat {
    var starts := StartsUpTo(bytes, |bytes|);
    if row < |starts| then starts[row] else |bytes|
  }

  /** Where a row ends: before its line break, or at the end of the file. */
  ghost function RowEnd(bytes: string, row: nat): nat {
    var starts := StartsUpTo(bytes, |bytes|);
    if row + 1 < |starts| && starts[row + 1] > 0 then starts[row + 1] - 1 else |bytes|
  }

  /** The start of row `k` splits the list of line starts. */
  ghost predicate IsRowStart(bytes: string, k: nat, offset: nat) {
    offset <= |bytes| && |StartsUpTo(bytes, offset)| == k + 1 && StartsUpTo(bytes, offset)[k] == offset
  }

  lemma {:induction false} StartsGrow(bytes: string, m: nat, n: nat)
    requires m <= n <= |bytes|
    ensures StartsUpTo(bytes, m) <= StartsUpTo(bytes, n)
  {
    if m < n {
      StartsGrow(bytes, m, n - 1);
    }
  }

  lemma {:induction false} NoBreakBetween(bytes: string, m: nat, n: nat)
    requires m <= n <= |bytes| && forall i | m <= i < n :: bytes[i] != '\n'
    ensures StartsUpTo(bytes, n) == StartsUpTo(bytes, m)
  {
    if m < n {
      NoBreakBetween(bytes, m, n - 1);
    }
  }

  /** What one search for a line break tells about the list of line starts. */
  lemma RowStep(bytes: string, k: nat, offset: nat)
    requires IsRowStart(bytes, k, offset)
    ensures RowStart(bytes, k) == offset
    ensures match NextBreak(bytes, offset)
      case Some(nl) => RowEnd(bytes, k) == nl && IsRowStart(bytes, k + 1, nl + 1)
      case None => RowEnd(bytes, k) == |bytes| && |StartsUpTo(bytes, |bytes|)| == k + 1
  {
    StartsGrow(bytes, offset, |bytes|);
    match NextBreak(bytes, offset)
    case Some(nl) =>
      NoBreakBetween(bytes, offset, nl);
      StartsGrow(bytes, nl + 1, |bytes|);
    case None =>
      NoBreakBetween(bytes, offset, |bytes|);
  }

  /** The byte a point denotes: its row's start plus its column, but not beyond the end of the row. */
  method ByteAt(bytes: string, point: Point) returns (byte: nat)
    ensures byte == Min(RowStart(bytes, point.row) + point.column, RowEnd(bytes, point.row))
  {
    var offset, row := 0, 0;
    while row < point.row
      invariant row <= point.row && IsRowStart(bytes, row, offset)
    {
      RowStep(bytes, row, offset);
      match NextBreak(bytes, offset)
      case Some(nl) =>
        offset, row := nl + 1, row + 1;
      case None =>
        return |bytes|;
    }
    RowStep(bytes, row, offset);
    var lineEnd := match NextBreak(bytes, offset) case Some(nl) => nl case None => |bytes|;
    byte := Min(offset + point.column, lineEnd);
  }

  // ----- the descent

  predicate Holds(t: Node, byte: nat) {
    t.startByte <= byte < t.endByte
  }

  function ChildAt(ts: seq<Node>, byte: nat): (r: Option<Node>)
    ensures r.Some? ==> r.value in ts && Holds(r.value, byte)
    ensures r.None? ==> forall t | t in ts :: !Holds(t, byte)
  {
    if ts == [] then None else if Holds(ts[0], byte) then Some(ts[0]) else ChildAt(ts[1..], byte)
  }

  /** From `t` down, the children that hold the byte. */
  ghost function Path(t: Node, byte: nat): (path: seq<Node>)
    ensures path != [] && path[0] == t
  {
    match ChildAt(t.children, byte)
    case None => [t]
    case Some(c) => [t] + Path(c, byte)
  }

  ghost function Deepest(t: Node, byte: nat): Node {
    Path(t, byte)[|Path(t, byte)| - 1]
  }

  /** `start` is the answer of tree-sitter's own lookup. */
  method DescendantForPoint(bytes: string, point: Point, builtin: nat -> Option<Node>) returns (r: Option<Node>)
    ensures var byte := Min(RowStart(bytes, point.row) + point.column, RowEnd(bytes, point.row));
      match builtin(byte)
      case None => r == None
      case Some(start) => r == Some(Path(start, byte)[Min(512, |Path(start, byte)| - 1)])
  {
    var byte := ByteAt(bytes, point);
    var start := builtin(byte);
    if start.None? {
      return None;
    }
    var current := start.value;
    ghost var path := Path(current, byte);
    for depth := 0 to MAX_CST_DESCENT_DEPTH
      invariant depth < |path| && path[depth] == current && path[depth..] == Path(current, byte)
    {
      var next := FirstChildAt(current, byte);
      match next
      case Some(child) =>
        assert path[depth..][1..] == path[depth + 1..];
        current := child;
      case None =>
        return Some(current);
    }
    r := Some(current);
  }

  /** The inner loop over the children. */
  method FirstChildAt(t: Node, byte: nat) returns (next: Option<Node>)
    ensures next == ChildAt(t.children, byte)
  {
    next := None;
    for i := 0 to |t.children|
      invariant ChildAt(t.children, byte) == ChildAt(t.children[i..], byte)
    {
      assert t.children[i..][1..] == t.children[i + 1..];
      if Holds(t.children[i], byte) {
        return Some(t.children[i]);
      }
    }
  }

  // ----- what the descent finds

  ghost predicate Below(t: Node, n: Node) {
    n == t || exists c | c in t.children :: Below(c, n)
  }

  lemma {:induction false} BelowWithin(t: Node, n: Node)
    requires WellFormed(t) && Below(t, n)
    ensures WellFormed(n) && t.startByte <= n.startByte && n.endByte <= t.endByte
  {
    if n != t {
      var c :| c in t.children && Below(c, n);
      BelowWithin(c, n);
    }
  }

  lemma {:induction false} ChildAtUnique(ts: seq<Node>, c: Node, byte: nat)
    requires c in ts && Holds(c, byte) && forall i, j | 0 <= i < j < |ts| :: Follows(ts[i], ts[j])
    ensures ChildAt(ts, byte) == Some(c)
  {
    if !Holds(ts[0], byte) {
      ChildAtUnique(ts[1..], c, byte);
    } else {
      var i :| 0 <= i < |ts| && ts[i] == c;
      assert i > 0 ==> Follows(ts[0], ts[i]);
    }
  }

  /** Exactly the nodes below `t` whose half-open span holds the byte lie on the path. */
  lemma {:induction false} PathIsHolders(t: Node, byte: nat, n: Node)
    requires WellFormed(t) && t.startByte <= byte < t.endByte
    ensures n in Path(t, byte) <==> Below(t, n) && n.startByte <= byte < n.endByte
  {
    if n != t {
      var next := ChildAt(t.children, byte);
      if next.Some? {
        assert WellFormed(next.value);
        PathIsHolders(next.value, byte, n);
        assert n in Path(t, byte) <==> n in Path(next.value, byte);
      }
      if Below(t, n) && Holds(n, byte) {
        var c :| c in t.children && Below(c, n);
        BelowWithin(c, n);
        ChildAtUnique(t.children, c, byte);
      }
    }
  }

  /** From every node on the path, the path goes on in the same way. */
  lemma {:induction false} PathSuffix(t: Node, byte: nat, i: nat)
    requires i < |Path(t, byte)|
    ensures Path(Path(t, byte)[i], byte) == Path(t, byte)[i..]
  {
    if i > 0 {
      var c := ChildAt(t.children, byte).value;
      PathSuffix(c, byte, i - 1);
      assert Path(t, byte)[i..] == Path(c, byte)[i - 1..];
    }
  }

  /** `n` is the deepest node below `t` that holds the byte: every such node is `n` or contains it. */
  ghost predicate IsDeepest(t: Node, byte: nat, n: Node) {
    && Below(t, n) && n.startByte <= byte < n.endByte
    && forall m | Below(t, m) && m.startByte <= byte < m.endByte :: Below(m, n)
  }

  /** The descent ends at the one deepest node that holds the byte. */
  lemma DeepestIsUnique(t: Node, byte: nat, n: Node)
    requires WellFormed(t) && t.startByte <= byte < t.endByte
    ensures IsDeepest(t, byte, n) <==> n == Deepest(t, byte)
  {
    var path := Path(t, byte);
    var d := Deepest(t, byte);
    PathIsHolders(t, byte, d);
    forall m | Below(t, m) && Holds(m, byte) ensures Below(m, d) {
      PathIsHolders(t, byte, m);
      var i :| 0 <= i < |path| && path[i] == m;
      PathSuffix(t, byte, i);
      BelowWithin(t, m);
      PathIsHolders(m, byte, d);
      assert path[i..][|path| - 1 - i] == d;
    }
    if IsDeepest(t, byte, n) {
      assert Below(n, d) && Below(d, n);
      BelowSize(n, d);
      BelowSize(d, n);
    }
  }

  /** A proper descendant is smaller. */
  lemma {:induction false} BelowSize(t: Node, n: Node)
    requires Below(t, n)
    ensures n == t || Size(n) < Size(t)
  {
    if n != t {
      var c :| c in t.children && Below(c, n);
      BelowSize(c, n);
      MemberSize(t.children, c);
    }
  }

  lemma {:induction false} MemberSize(ts: seq<Node>, c: Node)
    requires c in ts
    ensures Size(c) <= SizeAll(ts)
  {
    if ts[0] != c {
      MemberSize(ts[1..], c);
    }
  }

  /** Resuming from any ancestor on the path gives the same node, as long as the depth bound is not hit. */
  lemma {:induction false} ResumeAnywhere(t: Node, byte: nat, start: Node)
    requires start in Path(t, byte) && |Path(t, byte)| - 1 <= 512
    ensures |Path(start, byte)| - 1 <= 512 && Deepest(start, byte) == Deepest(t, byte)
  {
    var i :| 0 <= i < |Path(t, byte)| && Path(t, byte)[i] == start;
    PathSuffix(t, byte, i);
  }
}
