/**
 Texts made of raw characters and marks: the common view of a file in which feature names have
 been replaced by sentinels, by template placeholders, or by the names themselves
 (contrib/kotlin-cli.py, `_parameterize` and `_expand_vars`).
 */
module Replacing {
  import opened Text

  /** Python's `s.replace(old, new)`: leftmost, non-overlapping. */
  function Replace(s: string, old_: string, new_: string): string
    requires old_ != ""
    decreases |s|
  {
    if s == "" then ""
    else if old_ <= s then new_ + Replace(s[|old_|..], old_, new_)
    else [s[0]] + Replace(s[1..], old_, new_)
  }

  /** `s` occurs in `t`. */
  ghost predicate Occurs(s: string, t: string) {
    exists i | 0 <= i <= |t| :: s <= t[i..]
  }

  /** A character of the original text, or a place where value number `k` stood. */
  datatype Token = Raw(c: char) | Mark(k: nat)

  /** The names of the template variables, in the order in which the passes treat them. */
  function Word(k: nat): string {
    if k == 0 then "PACKAGE_NAME" else if k == 1 then "FEATURE_NAME" else if k == 2 then "featureName" else "feature_name"
  }

  function Sentinel(k: nat): string {
    "__" + Word(k) + "__"
  }

  function Placeholder(k: nat): string {
    "${" + Word(k) + "}"
  }

  /** The first `m` kinds of marks are already placeholders, the others still sentinels. */
  function Show(t: Token, m: nat): string {
    match t
    case Raw(c) => [c]
    case Mark(k) => if k < m then Placeholder(k) else Sentinel(k)
  }

  function Render(toks: seq<Token>, m: nat): string {
    if toks == [] then "" else Show(toks[0], m) + Render(toks[1..], m)
  }

  /** The text with every mark replaced by its value. */
  function Subst(toks: seq<Token>, vals: seq<string>): string
    requires MarksOk(toks) && |vals| == 4
  {
    if toks == [] then ""
    else (match toks[0] case Raw(c) => [c] case Mark(k) => vals[k]) + Subst(toks[1..], vals)
  }

  predicate MarksOk(toks: seq<Token>) {
    MarksBelow(toks, 4)
  }

  predicate MarksBelow(toks: seq<Token>, m: nat) {
    forall t | t in toks :: t.Mark? ==> t.k < m
  }

  function Raws(s: string): (toks: seq<Token>)
    ensures |toks| == |s| && forall i | 0 <= i < |s| :: toks[i] == Raw(s[i])
  {
    if s == "" then [] else [Raw(s[0])] + Raws(s[1..])
  }

  /** The tokens begin with the raw characters of `w`. */
  predicate StartsRun(toks: seq<Token>, w: string) {
    |w| <= |toks| && forall i | 0 <= i < |w| :: toks[i] == Raw(w[i])
  }

  /** The raw characters of `w` stand next to each other somewhere. */
  ghost predicate HasRun(toks: seq<Token>, w: string) {
    exists i | 0 <= i <= |toks| :: StartsRun(toks[i..], w)
  }

  /** One pass of replacing a value by its mark. */
  function MarkAll(toks: seq<Token>, v: string, k: nat): seq<Token>
    requires v != ""
    decreases |toks|
  {
    if toks == [] then []
    else if StartsRun(toks, v) then [Mark(k)] + MarkAll(toks[|v|..], v, k)
    else [toks[0]] + MarkAll(toks[1..], v, k)
  }

  // ----- words, sentinels and placeholders

  predicate NoDouble(s: string) {
    forall i | 0 <= i < |s| - 1 :: !(s[i] == '_' && s[i + 1] == '_')
  }

  lemma WordShape(k: nat)
    ensures var w := Word(k); |w| >= 11 && NoDouble(w) && w[0] != '_' && w[|w| - 1] != '_'
    ensures forall i | 0 <= i < |Word(k)| :: 'A' <= Word(k)[i] <= 'z' && Word(k)[i] != '\\'
  {
    if k == 0 {
    } else if k == 1 {
    } else if k == 2 {
    }
  }

  /** A name that contains no double underscore and does not occur in the sentinels of the passes before its own. */
  ghost predicate Clear(v: string, k: nat) {
    v != "" && NoDouble(v) && forall j | 0 <= j < k :: !Occurs(v, Sentinel(j))
  }

  predicate EdgeUnderscore(v: string) {
    v != "" && (v[0] == '_' || v[|v| - 1] == '_')
  }

  /** The name without an underscore at either edge. */
  function Core(v: string): string {
    var tail := if v != "" && v[0] == '_' then v[1..] else v;
    if tail != "" && tail[|tail| - 1] == '_' then tail[..|tail| - 1] else tail
  }

  /** A name that can be told apart from the sentinels around it. */
  ghost predicate Separable(v: string, k: nat) {
    Clear(v, k) && !EdgeUnderscore(v)
  }

  // ----- replacing

  lemma AbsentChar(p: string, c: char, s: string)
    requires c in p && c !in s
    ensures !Occurs(p, s)
  {
    var j :| 0 <= j < |p| && p[j] == c;
    forall i | 0 <= i <= |s| ensures !(p <= s[i..]) {
      if j < |s[i..]| {
        assert s[i..][j] == s[i + j];
      }
    }
  }

  lemma {:induction false} ReplaceAbsent(s: string, old_: string, new_: string)
    requires old_ != "" && !Occurs(old_, s)
    ensures Replace(s, old_, new_) == s
    decreases |s|
  {
    if s != "" {
      assert !(old_ <= s[0..]) && s[0..] == s;
      forall i | 0 <= i <= |s[1..]| ensures !(old_ <= s[1..][i..]) {
        assert s[1..][i..] == s[i + 1..];
      }
      ReplaceAbsent(s[1..], old_, new_);
    }
  }

  /** Replacement passes over a stretch in which no match begins. */
  lemma {:induction false} ReplaceSkips(a: string, b: string, old_: string, new_: string)
    requires old_ != "" && forall q | 0 <= q < |a| :: !(old_ <= (a + b)[q..])
    ensures Replace(a + b, old_, new_) == a + Replace(b, old_, new_)
  {
    if a == "" {
      assert a + b == b;
    } else {
      assert (a + b)[0..] == a + b && (a + b)[1..] == a[1..] + b;
      forall q | 0 <= q < |a[1..]| ensures !(old_ <= (a[1..] + b)[q..]) {
        assert (a[1..] + b)[q..] == (a + b)[q + 1..];
      }
      ReplaceSkips(a[1..], b, old_, new_);
    }
  }

  // ----- replacing in a rendered text

  /** A prefix without a double underscore and without a final one cannot reach into a mark. */
  lemma {:induction false} PrefixIsRun(toks: seq<Token>, m: nat, u: string)
    requires NoDouble(u) && (u != "" ==> u[|u| - 1] != '_') && forall i | 0 <= i < |u| :: m > 0 ==> u[i] != '$'
    ensures u <= Render(toks, m) <==> StartsRun(toks, u)
  {
    if u != "" && toks != [] {
      var t, rest := toks[0], toks[1..];
      match t
      case Raw(c) =>
        PrefixIsRun(rest, m, u[1..]);
        assert u <= Render(toks, m) <==> u[0] == c && u[1..] <= Render(rest, m);
        assert StartsRun(toks, u) <==> u[0] == c && StartsRun(rest, u[1..]);
      case Mark(k) =>
        var s := Render(toks, m);
        assert if k < m then s[0] == '$' else s[0] == '_' && s[1] == '_';
    }
  }

  /** A clear name does not begin in a sentinel, except at its last underscore. */
  lemma ClearSkipsSentinel(v: string, k: nat, j: nat, rest: string, q: nat)
    requires Clear(v, k) && j < k && q < |Sentinel(j)| - 1
    ensures !(v <= (Sentinel(j) + rest)[q..])
  {
    hide Word;
    var s := Sentinel(j);
    var t := (s + rest)[q..];
    if q + |v| <= |s| {
      assert t[..|v|] == s[q..][..|v|];
      assert !(v <= s[q..]);
    } else {
      var i := |s| - 2 - q;
      assert t[i] == '_' && t[i + 1] == '_';
    }
  }

  /** No match of a separable name begins inside a sentinel. */
  lemma SeparableSkipsSentinel(v: string, k: nat, j: nat, rest: string, q: nat)
    requires Separable(v, k) && j < k && q < |Sentinel(j)|
    ensures !(v <= (Sentinel(j) + rest)[q..])
  {
    if q < |Sentinel(j)| - 1 {
      ClearSkipsSentinel(v, k, j, rest, q);
    } else {
      assert (Sentinel(j) + rest)[q..][0] == '_';
    }
  }

  /** A pass that replaces a separable name (or any name, when there are no marks yet) by its sentinel. */
  lemma {:induction false} MarkPass(toks: seq<Token>, v: string, k: nat)
    requires v != "" && MarksBelow(toks, k) && (Separable(v, k) || forall t | t in toks :: t.Raw?)
    ensures Replace(Render(toks, 0), v, Sentinel(k)) == Render(MarkAll(toks, v, k), 0)
    decreases |toks|
  {
    if toks == [] {
    } else if toks[0].Raw? {
      BoundaryMatch(toks, v, k);
      if StartsRun(toks, v) {
        RunRendered(toks, v, 0);
        MarkPass(toks[|v|..], v, k);
      } else {
        MarkPass(toks[1..], v, k);
        assert Render(toks, 0)[1..] == Render(toks[1..], 0);
      }
    } else {
      var s, rest := Sentinel(toks[0].k), Render(toks[1..], 0);
      forall q | 0 <= q < |s| ensures !(v <= (s + rest)[q..]) {
        SeparableSkipsSentinel(v, k, toks[0].k, rest, q);
      }
      ReplaceSkips(s, rest, v, Sentinel(k));
      MarkPass(toks[1..], v, k);
    }
  }

  lemma BoundaryMatch(toks: seq<Token>, v: string, k: nat)
    requires v != "" && (Separable(v, k) || forall t | t in toks :: t.Raw?)
    ensures v <= Render(toks, 0) <==> StartsRun(toks, v)
  {
    if Separable(v, k) {
      PrefixIsRun(toks, 0, v);
    } else {
      RawsRendered(toks, 0);
    }
  }

  lemma {:induction false} RawsRendered(toks: seq<Token>, m: nat)
    requires forall t | t in toks :: t.Raw?
    ensures |Render(toks, m)| == |toks| && forall i | 0 <= i < |toks| :: toks[i] == Raw(Render(toks, m)[i])
  {
    if toks != [] {
      RawsRendered(toks[1..], m);
    }
  }

  lemma {:induction false} RunRendered(toks: seq<Token>, w: string, m: nat)
    requires StartsRun(toks, w)
    ensures Render(toks, m) == w + Render(toks[|w|..], m)
  {
    hide Placeholder, Sentinel;
    if w != "" {
      assert Render(toks, m) == [w[0]] + Render(toks[1..], m);
      RunRendered(toks[1..], w[1..], m);
      assert toks[1..][|w[1..]|..] == toks[|w|..];
      assert w == [w[0]] + w[1..];
    } else {
      assert toks[0..] == toks;
    }
  }

  /** Marking does not change what the text stands for. */
  lemma {:induction false} MarkKeepsMeaning(toks: seq<Token>, k: nat, vals: seq<string>)
    requires k < 4 && |vals| == 4 && vals[k] != "" && MarksOk(toks)
    ensures MarksOk(MarkAll(toks, vals[k], k))
    ensures MarksBelow(toks, k) ==> MarksBelow(MarkAll(toks, vals[k], k), k + 1)
    ensures Subst(MarkAll(toks, vals[k], k), vals) == Subst(toks, vals)
    decreases |toks|
  {
    var v := vals[k];
    if toks == [] {
    } else if StartsRun(toks, v) {
      MarkKeepsMeaning(toks[|v|..], k, vals);
      RunMeaning(toks, v, vals);
      assert MarkAll(toks, v, k)[1..] == MarkAll(toks[|v|..], v, k);
    } else {
      MarkKeepsMeaning(toks[1..], k, vals);
      assert MarkAll(toks, v, k)[1..] == MarkAll(toks[1..], v, k);
    }
  }

  lemma {:induction false} RunMeaning(toks: seq<Token>, w: string, vals: seq<string>)
    requires |vals| == 4 && MarksOk(toks) && StartsRun(toks, w)
    ensures Subst(toks, vals) == w + Subst(toks[|w|..], vals)
  {
    if w != "" {
      RunMeaning(toks[1..], w[1..], vals);
      assert toks[1..][|w[1..]|..] == toks[|w|..];
      assert w == [w[0]] + w[1..];
    } else {
      assert toks[0..] == toks;
    }
  }

  lemma {:induction false} RawsMeaning(s: string, vals: seq<string>)
    requires |vals| == 4
    ensures MarksOk(Raws(s)) && Subst(Raws(s), vals) == s && Render(Raws(s), 0) == s
  {
    if s != "" {
      RawsMeaning(s[1..], vals);
    }
  }

  // ----- runs of raw characters

  lemma {:induction false} MarkStartsRun(toks: seq<Token>, v: string, k: nat, w: string)
    requires v != "" && StartsRun(MarkAll(toks, v, k), w)
    ensures StartsRun(toks, w)
  {
    if w != "" {
      assert MarkAll(toks, v, k)[0] == Raw(w[0]);
      assert !StartsRun(toks, v);
      assert MarkAll(toks, v, k)[1..] == MarkAll(toks[1..], v, k);
      assert StartsRun(MarkAll(toks[1..], v, k), w[1..]);
      MarkStartsRun(toks[1..], v, k, w[1..]);
    }
  }

  /** Marking makes no new runs. */
  lemma {:induction false} MarkKeepsRuns(toks: seq<Token>, v: string, k: nat, w: string)
    requires v != "" && w != "" && HasRun(MarkAll(toks, v, k), w)
    ensures HasRun(toks, w)
    decreases |toks|
  {
    var marked := MarkAll(toks, v, k);
    var i :| 0 <= i <= |marked| && StartsRun(marked[i..], w);
    if i == 0 {
      assert marked[0..] == marked && toks[0..] == toks;
      MarkStartsRun(toks, v, k, w);
    } else {
      var n := MarkTail(toks, v, k);
      hide MarkAll, StartsRun;
      assert marked[i..] == marked[1..][i - 1..];
      MarkKeepsRuns(toks[n..], v, k, w);
      hide HasRun;
      RunInTail(toks, n, w);
    }
  }

  lemma MarkTail(toks: seq<Token>, v: string, k: nat) returns (n: nat)
    requires v != "" && MarkAll(toks, v, k) != []
    ensures 1 <= n <= |toks| && MarkAll(toks, v, k)[1..] == MarkAll(toks[n..], v, k)
  {
    n := if StartsRun(toks, v) then |v| else 1;
  }

  lemma RunInTail(toks: seq<Token>, n: nat, w: string)
    requires n <= |toks| && HasRun(toks[n..], w)
    ensures HasRun(toks, w)
  {
    var i :| 0 <= i <= |toks[n..]| && StartsRun(toks[n..][i..], w);
    assert toks[n..][i..] == toks[n + i..];
  }

  lemma {:induction false} RawRunOccurs(s: string, w: string)
    requires HasRun(Raws(s), w)
    ensures Occurs(w, s)
  {
    var i :| 0 <= i <= |Raws(s)| && StartsRun(Raws(s)[i..], w);
    forall j | 0 <= j < |w| ensures s[i..][j] == w[j] {
      assert Raws(s)[i..][j] == Raws(s)[i + j];
    }
    assert s[i..][..|w|] == w;
  }

  // ----- names with an underscore at the edge

  /** Where the name begins, its core stands in raw characters. */
  lemma EdgeAhead(toks: seq<Token>, v: string)
    requires NoDouble(v) && EdgeUnderscore(v) && v <= Render(toks, 0)
    ensures HasRun(toks, Core(v))
  {
    hide Render;
    var u := if v[|v| - 1] == '_' then v[..|v| - 1] else v;
    assert u <= v;
    PrefixIsRun(toks, 0, u);
    if v[0] != '_' || |v| == 1 {
      assert toks[0..] == toks && Core(v) == u;
    } else {
      assert Core(v) == u[1..] && StartsRun(toks[1..], u[1..]);
    }
  }

  lemma TailAhead(toks: seq<Token>, v: string)
    requires NoDouble(v) && v != "" && v[0] == '_' && v[1..] <= Render(toks, 0)
    ensures HasRun(toks, Core(v))
  {
    hide Render;
    var u := Core(v);
    assert u <= v[1..];
    assert u != "" ==> u[|u| - 1] == v[|u|];
    assert |u| < |v| - 1 ==> v[|v| - 1] == '_';
    PrefixIsRun(toks, 0, u);
    assert toks[0..] == toks;
  }

  /** If its core is nowhere in raw characters, a name with an underscore at the edge is nowhere at all. */
  lemma {:induction false} EdgeAbsent(toks: seq<Token>, v: string, k: nat)
    requires Clear(v, k) && EdgeUnderscore(v) && MarksBelow(toks, k) && !HasRun(toks, Core(v))
    ensures !Occurs(v, Render(toks, 0)) && MarkAll(toks, v, k) == toks
    decreases |toks|
  {
    if toks != [] {
      if HasRun(toks[1..], Core(v)) {
        RunInTail(toks, 1, Core(v));
      }
      EdgeAbsent(toks[1..], v, k);
      RunOfCore(toks, v);
      var head, rest := Show(toks[0], 0), Render(toks[1..], 0);
      hide MarkAll, HasRun, Core, Word;
      forall q | 0 <= q < |head| ensures !(v <= (head + rest)[q..]) {
        EdgeNotHere(toks, v, k, q);
      }
      AbsentBehind(v, head, rest);
    }
  }

  lemma RunOfCore(toks: seq<Token>, v: string)
    requires EdgeUnderscore(v)
    ensures StartsRun(toks, v) ==> HasRun(toks, Core(v))
  {
    if StartsRun(toks, v) {
      assert toks[0..] == toks;
      assert StartsRun(toks[if v[0] == '_' then 1 else 0..], Core(v));
    }
  }

  lemma EdgeNotHere(toks: seq<Token>, v: string, k: nat, q: nat)
    requires Clear(v, k) && EdgeUnderscore(v) && MarksBelow(toks, k) && toks != []
    requires !HasRun(toks, Core(v)) && q < |Show(toks[0], 0)|
    ensures !(v <= (Show(toks[0], 0) + Render(toks[1..], 0))[q..])
  {
    hide Word, Core, HasRun, Sentinel, Occurs;
    var head, rest := Show(toks[0], 0), Render(toks[1..], 0);
    if toks[0].Raw? {
      RawEdge(toks, v);
      assert q == 0 && (head + rest)[0..] == Render(toks, 0);
    } else if q < |head| - 1 {
      assert toks[0].k < k;
      hide Render, MarksBelow;
      ClearSkipsSentinel(v, k, toks[0].k, rest, q);
    } else {
      hide Render;
      SentinelEnd(toks[0].k, rest);
      LastUnderscore(toks, v, rest);
    }
  }

  lemma RawEdge(toks: seq<Token>, v: string)
    requires NoDouble(v) && EdgeUnderscore(v) && !HasRun(toks, Core(v))
    ensures !(v <= Render(toks, 0))
  {
    hide *;
    if v <= Render(toks, 0) {
      EdgeAhead(toks, v);
    }
  }

  lemma SentinelEnd(j: nat, rest: string)
    ensures (Sentinel(j) + rest)[|Sentinel(j)| - 1..] == "_" + rest
  {
    hide Word;
  }

  lemma LastUnderscore(toks: seq<Token>, v: string, rest: string)
    requires toks != [] && rest == Render(toks[1..], 0) && NoDouble(v) && v != "" && !HasRun(toks, Core(v))
    ensures !(v <= "_" + rest)
  {
    hide HasRun, Core, Render;
    if v <= "_" + rest {
      assert v[0] == '_' && v == "_" + v[1..];
      PrefixCancels("_", v[1..], rest);
      TailAhead(toks[1..], v);
      RunInTail(toks, 1, Core(v));
    }
  }

  lemma AbsentBehind(p: string, head: string, rest: string)
    requires !Occurs(p, rest) && forall q | 0 <= q < |head| :: !(p <= (head + rest)[q..])
    ensures !Occurs(p, head + rest)
  {
    forall q | 0 <= q <= |head + rest| ensures !(p <= (head + rest)[q..]) {
      if q >= |head| {
        assert (head + rest)[q..] == rest[q - |head|..];
      }
    }
  }

  // ----- turning sentinels back into placeholders

  /** Inside a placeholder, or a sentinel of another kind, sentinel number `m` does not begin. */
  lemma SentinelSkips(toks: seq<Token>, m: nat, q: nat)
    requires m < 4 && MarksOk(toks) && toks != [] && toks[0].Mark? && toks[0].k != m
    requires !HasRun(toks, Word(m)) && q < |Show(toks[0], m)|
    ensures !(Sentinel(m) <= Render(toks, m)[q..])
  {
    var k, s, rest := toks[0].k, Show(toks[0], m), Render(toks[1..], m);
    assert Render(toks, m) == s + rest;
    hide Render, HasRun, Word;
    WordShape(k);
    if k > m && q == 0 {
      assert !(Sentinel(m) <= (Sentinel(k) + rest)[0..]) by {
        var i :| 0 <= i < |Word(k)| && i < |Word(m)| && Word(k)[i] != Word(m)[i];
        var t := (Sentinel(k) + rest)[0..];
        assert t[2 + i] == Word(k)[i] && Sentinel(m)[2 + i] == Word(m)[i];
      }
    } else if k > m && q >= |s| - 2 {
      assert !HasRun(toks[1..], Word(m)) by {
        if HasRun(toks[1..], Word(m)) {
          RunInTail(toks, 1, Word(m));
        }
      }
      TailOfSentinel(toks[1..], m, k, q);
    } else {
      MiddleShape(k, m, q);
      assert !(Sentinel(m) <= (s + rest)[q..]) by {
        var t := (s + rest)[q..];
        assert t[0] == s[q] && (q + 1 < |s| ==> t[1] == s[q + 1]);
        assert Sentinel(m)[0] == '_' && Sentinel(m)[1] == '_';
      }
    }
  }

  lemma MiddleShape(k: nat, m: nat, q: nat)
    requires q < |Show(Mark(k), m)| && (k >= m ==> 0 < q < |Sentinel(k)| - 2)
    ensures var s := Show(Mark(k), m); s[q] != '_' || (q + 1 < |s| && s[q + 1] != '_')
  {
    WordShape(k);
    hide Word;
    var w, s := Word(k), Show(Mark(k), m);
    if 2 <= q < |w| + 1 {
      assert s[q] == w[q - 2] && s[q + 1] == w[q - 1];
    } else if q == |w| + 1 {
      assert s[q] == w[|w| - 1];
    } else if q == 1 {
      assert s[2] == w[0];
    }
  }

  lemma TailOfSentinel(toks: seq<Token>, m: nat, k: nat, q: nat)
    requires m < 4 && !HasRun(toks, Word(m)) && |Sentinel(k)| - 2 <= q < |Sentinel(k)|
    ensures !(Sentinel(m) <= (Sentinel(k) + Render(toks, m))[q..])
  {
    hide Render, HasRun, Word;
    var rest := Render(toks, m);
    var t := (Sentinel(k) + rest)[q..];
    if q == |Sentinel(k)| - 2 {
      NoWordAhead(toks, m, Word(m));
      assert t == "__" + rest && Sentinel(m) == "__" + (Word(m) + "__");
      PrefixCancels("__", Word(m) + "__", rest);
    } else {
      NoWordAhead(toks, m, "_" + Word(m));
      assert t == "_" + rest && Sentinel(m) == "_" + (("_" + Word(m)) + "__");
      PrefixCancels("_", ("_" + Word(m)) + "__", rest);
    }
  }

  lemma PrefixCancels(a: string, x: string, y: string)
    ensures a + x <= a + y <==> x <= y
  {
    if a + x <= a + y {
      assert x == (a + x)[|a|..] && y == (a + y)[|a|..];
      assert (a + y)[..|a + x|][|a|..] == x;
    }
  }

  /** Without a run of the word, a rendered text does not begin with it, nor with `_` and the word. */
  lemma NoWordAhead(toks: seq<Token>, m: nat, u: string)
    requires m < 4 && !HasRun(toks, Word(m)) && (u == Word(m) || u == "_" + Word(m))
    ensures !(u + "__" <= Render(toks, m))
  {
    WordShape(m);
    PrefixIsRun(toks, m, u);
    assert toks[0..] == toks;
    UnderscoreRun(toks, Word(m));
    LongerPrefix(u, "__", Render(toks, m));
  }

  lemma UnderscoreRun(toks: seq<Token>, w: string)
    ensures StartsRun(toks, "_" + w) ==> HasRun(toks, w)
  {
    if StartsRun(toks, "_" + w) {
      assert forall i | 0 <= i < |w| :: toks[1..][i] == toks[i + 1] && ("_" + w)[i + 1] == w[i];
      assert StartsRun(toks[1..], w);
    }
  }

  lemma LongerPrefix(u: string, x: string, t: string)
    ensures u + x <= t ==> u <= t
  {
  }

  /** Restoring one kind of sentinel. */
  lemma {:induction false} RestorePass(toks: seq<Token>, m: nat)
    requires m < 4 && MarksOk(toks) && !HasRun(toks, Word(m))
    ensures Replace(Render(toks, m), Sentinel(m), Placeholder(m)) == Render(toks, m + 1)
    decreases |toks|
  {
    if toks != [] {
      hide Word, Replace, HasRun;
      assert !HasRun(toks[1..], Word(m)) by {
        if HasRun(toks[1..], Word(m)) {
          RunInTail(toks, 1, Word(m));
        }
      }
      RestorePass(toks[1..], m);
      RestoreHead(toks, m);
    }
  }

  lemma RestoreHead(toks: seq<Token>, m: nat)
    requires m < 4 && MarksOk(toks) && !HasRun(toks, Word(m)) && toks != []
    ensures Replace(Render(toks, m), Sentinel(m), Placeholder(m))
         == Show(toks[0], m + 1) + Replace(Render(toks[1..], m), Sentinel(m), Placeholder(m))
  {
    hide Word, HasRun;
    var s, rest := Show(toks[0], m), Render(toks[1..], m);
    if toks[0] == Mark(m) {
      assert (Sentinel(m) + rest)[|Sentinel(m)|..] == rest;
    } else {
      assert Show(toks[0], m + 1) == s;
      forall q | 0 <= q < |s| ensures !(Sentinel(m) <= (s + rest)[q..]) {
        if toks[0].Mark? {
          SentinelSkips(toks, m, q);
        } else {
          RawBeforeSentinel(toks, m);
        }
      }
      ReplaceSkips(s, rest, Sentinel(m), Placeholder(m));
    }
  }

  lemma RawBeforeSentinel(toks: seq<Token>, m: nat)
    requires m < 4 && !HasRun(toks, Word(m)) && toks != [] && toks[0].Raw?
    ensures !(Sentinel(m) <= Render(toks, m)[0..])
  {
    hide Word, HasRun;
    var rest := toks[1..];
    assert Render(toks, m)[0..] == [toks[0].c] + Render(rest, m);
    SentinelSplit(m);
    hide Render, Sentinel;
    if HasRun(rest, Word(m)) {
      RunInTail(toks, 1, Word(m));
    }
    NoWordAhead(rest, m, "_" + Word(m));
    NotAhead([toks[0].c], ("_" + Word(m)) + "__", Render(rest, m));
  }

  lemma SentinelSplit(m: nat)
    ensures Sentinel(m) == "_" + (("_" + Word(m)) + "__")
  {
    hide Word;
  }

  lemma NotAhead(head: string, u: string, rest: string)
    requires |head| == 1 && !(u <= rest)
    ensures !("_" + u <= head + rest)
  {
    if head == "_" {
      PrefixCancels("_", u, rest);
    } else {
      assert ("_" + u)[0] != (head + rest)[0];
    }
  }
}
