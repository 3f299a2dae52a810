/**
 When the templates generated for a feature always expand to the file they came from
 (contrib/kotlin-cli.py, `_parameterize` and `_expand_vars`).  It is not enough that no name of the
 feature contains a double underscore or occurs in a sentinel: a name with an underscore at its edge
 can use up the underscore of a sentinel next to it.
 */
module EdgeNames {
  import opened Text
  import opened Replacing
  import opened FeatureNames
  import opened Templates

  /** No name of the feature contains a double underscore or occurs in a sentinel of an earlier pass. */
  ghost predicate ClearNames(pascal: string) {
    pascal != "" && Clear(pascal, 1) && Clear(PascalToCamel(pascal), 2) && Clear(PascalToSnake(pascal), 3)
  }

  ghost predicate PlainFile(content: string) {
    NoWords(content) && '\\' !in content && '$' !in content
  }

  /** A name that can damage a file: it has an underscore at its edge, and the rest of it can stand in a plain file. */
  ghost predicate Damaging(v: string) {
    EdgeUnderscore(v) && PlainFile(Core(v))
  }

  predicate RoundTrips(content: string, pascal: string, package: string, order: seq<nat>)
    requires pascal != ""
  {
    var template := Parameterize(content, pascal, package, order);
    template.Some? && Expand(template.value, ScaffoldVars(pascal, package)) == content
  }

  // ----- without a damaging name, every plain file comes back

  lemma PartOccurs(x: string, w: string, content: string)
    requires Occurs(x, w) && Occurs(w, content)
    ensures Occurs(x, content)
  {
    var i :| 0 <= i <= |w| && x <= w[i..];
    var j :| 0 <= j <= |content| && w <= content[j..];
    assert content[j..][..|w|][i..] == w[i..];
    assert x <= content[i + j..];
  }

  /** What stands in a plain file is plain. */
  lemma PlainPart(w: string, content: string)
    requires Occurs(w, content) && PlainFile(content)
    ensures PlainFile(w)
  {
    forall k | 0 <= k < 4 ensures !Occurs(Word(k), w) {
      if Occurs(Word(k), w) {
        PartOccurs(Word(k), w, content);
      }
    }
    var j :| 0 <= j <= |content| && w <= content[j..];
    forall i | 0 <= i < |w| ensures w[i] != '\\' && w[i] != '$' {
      assert w[i] == content[j..][i] == content[j + i];
    }
  }

  lemma FitsPlain(v: string, k: nat, content: string)
    requires Clear(v, k) && !Damaging(v) && PlainFile(content)
    ensures FitsFile(v, k, content)
  {
    hide Occurs, PlainFile, Core;
    if EdgeUnderscore(v) && Occurs(Core(v), content) {
      PlainPart(Core(v), content);
    }
  }

  lemma ComesBack(content: string, pascal: string, package: string, order: seq<nat>)
    requires ClearNames(pascal) && PlainFile(content)
    requires !Damaging(pascal) && !Damaging(PascalToCamel(pascal)) && !Damaging(PascalToSnake(pascal))
    ensures RoundTrips(content, pascal, package, order)
  {
    hide Clear, Damaging, Expand, Parameterize, ScaffoldVars;
    FitsPlain(pascal, 1, content);
    FitsPlain(PascalToCamel(pascal), 2, content);
    FitsPlain(PascalToSnake(pascal), 3, content);
    PlainFileRoundTrip(content, pascal, package, order);
  }

  // ----- how the names of a feature differ

  predicate HasUpper(s: string) {
    exists i | 0 <= i < |s| :: IsUpper(s[i])
  }

  lemma SnakeIsLower(pascal: string)
    ensures !HasUpper(PascalToSnake(pascal))
  {
  }

  lemma {:induction false} NothingToSplit(s: string)
    requires s != "" ==> !HasUpper(s[1..])
    ensures SplitBeforeWords(s) == s && SplitAfterLower(s) == s
    decreases |s|
  {
    if s != "" {
      var t := s[1..];
      assert s == [s[0]] + t && (t != "" ==> !IsUpper(t[0]));
      if t != "" {
        forall i | 0 <= i < |t[1..]| ensures !IsUpper(t[1..][i]) {
          assert t[1..][i] == t[i + 1];
        }
      }
      NothingToSplit(t);
    }
  }

  /** A feature without an upper-case letter behind its first one has the same name in camel and in snake case. */
  lemma LowerSnake(pascal: string)
    requires pascal != "" && !HasUpper(PascalToCamel(pascal))
    ensures PascalToSnake(pascal) == PascalToCamel(pascal)
  {
    var camel := PascalToCamel(pascal);
    forall i | 0 <= i < |pascal[1..]| ensures !IsUpper(pascal[1..][i]) {
      assert camel[i + 1] == pascal[1..][i];
    }
    NothingToSplit(pascal);
    assert forall i | 0 <= i < |camel| :: LowerAll(pascal)[i] == camel[i];
  }

  lemma UpperApart(w: string, v: string)
    requires HasUpper(w) && !HasUpper(v)
    ensures !Occurs(w, v)
  {
    var j :| 0 <= j < |w| && IsUpper(w[j]);
    forall i | 0 <= i <= |v| ensures !(w <= v[i..]) {
      if j < |v[i..]| {
        assert v[i..][j] == v[i + j];
      }
    }
  }

  lemma SameLengthApart(w: string, v: string)
    requires |w| == |v| && w != v
    ensures !Occurs(w, v)
  {
    assert v[0..] == v;
  }

  /** Earlier names do not occur in the first damaging one. */
  lemma EarlierApart(pascal: string)
    requires ClearNames(pascal) && !Damaging(pascal)
    ensures var camel, snake := PascalToCamel(pascal), PascalToSnake(pascal);
      && (Damaging(camel) ==> !Occurs(pascal, camel))
      && (!Damaging(camel) && Damaging(snake) ==> !Occurs(pascal, snake) && !Occurs(camel, snake))
  {
    hide Clear, Damaging, Occurs, PascalToSnake;
    var camel, snake := PascalToCamel(pascal), PascalToSnake(pascal);
    if Damaging(camel) {
      SameLengthApart(pascal, camel);
    } else if Damaging(snake) {
      if !HasUpper(camel) {
        LowerSnake(pascal);
      }
      var i :| 0 <= i < |camel| && IsUpper(camel[i]);
      assert camel[0] == ToLower(pascal[0]) && (i > 0 ==> camel[i] == pascal[i]);
      assert IsUpper(pascal[i]);
      SnakeIsLower(pascal);
      UpperApart(pascal, snake);
      UpperApart(camel, snake);
    }
  }

  // ----- a name next to the sentinel of the package

  lemma ReplaceWhole(old_: string, rest: string, new_: string)
    requires old_ != ""
    ensures Replace(old_ + rest, old_, new_) == new_ + Replace(rest, old_, new_)
  {
    assert (old_ + rest)[|old_|..] == rest;
  }

  lemma TooShort(s: string, old_: string, new_: string)
    requires |s| < |old_|
    ensures Replace(s, old_, new_) == s
  {
    ReplaceAbsent(s, old_, new_);
  }

  /** The name, sharing the underscore at its edge with the sentinel of the package. */
  function Marked(v: string): string
    requires EdgeUnderscore(v)
  {
    if v[0] == '_' then Sentinel(0) + v[1..] else v[..|v| - 1] + Sentinel(0)
  }

  /** Two sentinels that share an underscore. */
  function Joined(a: nat, b: nat): string {
    Sentinel(a) + Sentinel(b)[1..]
  }

  lemma JoinedParts(a: nat, b: nat)
    ensures var head := Sentinel(a)[..|Sentinel(a)| - 1];
      && Sentinel(a) == head + "_" && Joined(a, b) == head + Sentinel(b) && |head| > 0
      && Sentinel(b) == "_" + Sentinel(b)[1..]
  {
    hide Word;
  }

  lemma MarkedParts(v: string)
    requires EdgeUnderscore(v)
    ensures var s := Sentinel(0);
      && (v[0] == '_' ==> Marked(v) == s[..|s| - 1] + v)
      && (v[0] != '_' ==> Marked(v) == v + s[1..])
  {
    hide Word;
    if v[0] == '_' {
      assert v == "_" + v[1..];
    } else {
      assert v == v[..|v| - 1] + "_";
    }
  }

  /** A clear name does not occur in two joined sentinels. */
  lemma ClearOfJoined(v: string, k: nat, a: nat, b: nat)
    requires Clear(v, k) && a < k && b < k
    ensures !Occurs(v, Joined(a, b))
  {
    hide Sentinel, NoDouble;
    JoinedParts(a, b);
    var t, n := Joined(a, b), |Sentinel(a)| - 1;
    forall i | 0 <= i <= |t| ensures !(v <= t[i..]) {
      if i < n {
        ClearSkipsSentinel(v, k, a, Sentinel(b)[1..], i);
      } else {
        assert t[i..] == Sentinel(b)[i - n..];
        assert !Occurs(v, Sentinel(b));
      }
    }
  }

  /** A name that does not occur in `v` does not occur in it and the sentinel next to it either. */
  lemma UntouchedBy(w: string, k: nat, v: string)
    requires Clear(w, k) && k >= 1 && EdgeUnderscore(v) && !Occurs(w, v)
    ensures !Occurs(w, Marked(v))
  {
    MarkedParts(v);
    JoinedParts(0, 0);
    hide Sentinel, NoDouble, Marked;
    var s, t := Sentinel(0), Marked(v);
    forall i | 0 <= i <= |t| ensures !(w <= t[i..]) {
      if v[0] == '_' {
        LeadingUntouched(w, k, v, i);
      } else {
        TrailingUntouched(w, v, i);
      }
    }
  }

  lemma LeadingUntouched(w: string, k: nat, v: string, i: nat)
    requires Clear(w, k) && k >= 1 && v != "" && v[0] == '_' && !Occurs(w, v) && i <= |Sentinel(0)| + |v| - 1
    ensures !(w <= (Sentinel(0) + v[1..])[i..])
  {
    var s := Sentinel(0);
    if i < |s| - 1 {
      ClearSkipsSentinel(w, k, 0, v[1..], i);
    } else {
      JoinedParts(0, 0);
      hide Sentinel, Clear;
      SharedUnderscore(s[..|s| - 1], v, i);
      assert !(w <= v[i - (|s| - 1)..]);
    }
  }

  lemma SharedUnderscore(head: string, v: string, i: nat)
    requires v != "" && v[0] == '_' && |head| <= i <= |head| + |v|
    ensures ((head + "_") + v[1..])[i..] == v[i - |head|..]
  {
  }

  lemma TrailingUntouched(w: string, v: string, i: nat)
    requires Clear(w, 1) && v != "" && v[|v| - 1] == '_' && !Occurs(w, v) && i <= |v| + |Sentinel(0)| - 1
    ensures !(w <= (v[..|v| - 1] + Sentinel(0))[i..])
  {
    hide Word;
    var s, n := Sentinel(0), |v| - 1;
    var t := v[..n] + s;
    assert s[0] == '_' && s[1] == '_';
    if i >= n {
      assert t[i..] == s[i - n..];
      assert !Occurs(w, s);
    } else if i + |w| <= |v| {
      assert t[..n + 1] == v;
      assert t[i..][..|w|] == t[..n + 1][i..][..|w|];
      assert !(w <= v[i..]);
    } else {
      assert t[i..][n - i] == '_' && t[i..][n - i + 1] == '_';
    }
  }

  /** The pass of the name itself joins its sentinel to that of the package. */
  lemma TakesUnderscore(v: string, k: nat)
    requires Clear(v, k) && k >= 1 && EdgeUnderscore(v)
    ensures Replace(Marked(v), v, Sentinel(k)) == if v[0] == '_' then Joined(0, k) else Joined(k, 0)
  {
    var s := Sentinel(0);
    var head, tail := s[..|s| - 1], s[1..];
    MarkedParts(v);
    JoinedParts(0, k);
    JoinedParts(k, 0);
    hide Sentinel, NoDouble, Joined;
    if v[0] == '_' {
      assert head + v == s + v[1..];
      hide Marked;
      forall q | 0 <= q < |head| ensures !(v <= (head + v)[q..]) {
        ClearSkipsSentinel(v, k, 0, v[1..], q);
      }
      ReplaceSkips(head, v, v, Sentinel(k));
      ReplaceAll(v, Sentinel(k));
    } else {
      hide Marked;
      ReplaceWhole(v, tail, Sentinel(k));
      forall i | 0 <= i <= |tail| ensures !(v <= tail[i..]) {
        assert tail[i..] == s[i + 1..];
        assert !Occurs(v, s);
      }
      ReplaceAbsent(tail, v, Sentinel(k));
    }
  }

  lemma ReplaceAll(old_: string, new_: string)
    requires old_ != ""
    ensures Replace(old_, old_, new_) == new_
  {
    ReplaceWhole(old_, "", new_);
    assert old_ + "" == old_ && Replace("", old_, new_) == "" && new_ + "" == new_;
  }

  /** All four passes, when the first damaging name is number `k`. */
  lemma MarkedFile(content: string, vals: seq<string>, k: nat)
    requires |vals| == 4 && vals[0] != "" && 1 <= k <= 3 && forall j | 1 <= j <= 3 :: Clear(vals[j], j)
    requires EdgeUnderscore(vals[k]) && Replace(content, vals[0], Sentinel(0)) == Marked(vals[k])
    requires forall j | 1 <= j < k :: !Occurs(vals[j], vals[k])
    ensures InsertSentinels(content, vals) == if vals[k][0] == '_' then Joined(0, k) else Joined(k, 0)
  {
    hide *;
    var v := vals[k];
    ClearNotEmpty(v, k);
    var joined := if v[0] == '_' then Joined(0, k) else Joined(k, 0);
    TakesUnderscore(v, k);
    forall j | 1 <= j <= 3 ensures vals[j] != "" {
      ClearNotEmpty(vals[j], j);
    }
    forall j | 1 <= j < k ensures Replace(Marked(v), vals[j], Sentinel(j)) == Marked(v) {
      MarkedStays(vals[j], j, v);
    }
    forall j | k < j <= 3 ensures Replace(joined, vals[j], Sentinel(j)) == joined {
      JoinedStays(vals[j], j, k);
    }
    FourPasses(content, vals, Marked(v), joined, k);
  }

  lemma ClearNotEmpty(v: string, j: nat)
    requires Clear(v, j)
    ensures v != ""
  {
  }

  lemma MarkedStays(w: string, j: nat, v: string)
    requires Clear(w, j) && j >= 1 && EdgeUnderscore(v) && !Occurs(w, v)
    ensures w != "" && Replace(Marked(v), w, Sentinel(j)) == Marked(v)
  {
    UntouchedBy(w, j, v);
    hide Marked, Sentinel, Occurs;
    ReplaceAbsent(Marked(v), w, Sentinel(j));
  }

  lemma JoinedStays(w: string, j: nat, k: nat)
    requires Clear(w, j) && k < j
    ensures w != "" && Replace(Joined(0, k), w, Sentinel(j)) == Joined(0, k)
    ensures Replace(Joined(k, 0), w, Sentinel(j)) == Joined(k, 0)
  {
    ClearOfJoined(w, j, 0, k);
    ClearOfJoined(w, j, k, 0);
    hide Joined, Sentinel, Occurs;
    ReplaceAbsent(Joined(0, k), w, Sentinel(j));
    ReplaceAbsent(Joined(k, 0), w, Sentinel(j));
  }

  lemma FourPasses(content: string, vals: seq<string>, marked: string, joined: string, k: nat)
    requires |vals| == 4 && (forall j | 0 <= j <= 3 :: vals[j] != "") && 1 <= k <= 3
    requires Replace(content, vals[0], Sentinel(0)) == marked && Replace(marked, vals[k], Sentinel(k)) == joined
    requires forall j | 1 <= j < k :: Replace(marked, vals[j], Sentinel(j)) == marked
    requires forall j | k < j <= 3 :: Replace(joined, vals[j], Sentinel(j)) == joined
    ensures InsertSentinels(content, vals) == joined
  {
    hide Replace, Sentinel;
  }

  // ----- restoring what is left of the sentinels

  /** A sentinel without its first, or last, underscore. */
  function Beheaded(k: nat): string {
    "_" + Word(k) + "__"
  }

  function Bitten(k: nat): string {
    "__" + Word(k) + "_"
  }

  lemma JoinedText(k: nat)
    ensures Joined(0, k) == Sentinel(0) + Beheaded(k) && Joined(k, 0) == Bitten(k) + Sentinel(0)
  {
    hide Word;
    assert Sentinel(k)[1..] == Beheaded(k) && Sentinel(0)[1..] == "_" + Word(0) + "__";
    assert Sentinel(k) == Bitten(k) + "_";
    Regroup(Bitten(k), "_", "_" + Word(0) + "__");
    assert "_" + ("_" + Word(0) + "__") == Sentinel(0);
  }

  lemma NoSentinelIn(t: string, m: nat)
    requires Tight(t) && t != ""
    ensures !Occurs(Sentinel(m), t + "__")
  {
    WordShape(m);
    hide Word;
    var s := t + "__";
    forall i | 0 <= i <= |s| ensures !(Sentinel(m) <= s[i..]) {
      assert Sentinel(m)[0] == '_' && Sentinel(m)[1] == '_';
      if i < |s| - 2 {
        assert s[i..][0] == s[i] && s[i..][1] == s[i + 1];
      }
    }
  }

  lemma NoSentinelBehind(t: string, m: nat)
    requires t != "" ==> NoDouble(t[1..])
    ensures !Occurs(Sentinel(m), t)
  {
    WordShape(m);
    hide Word;
    var s := Sentinel(m);
    assert s[|s| - 2] == '_' && s[|s| - 1] == '_';
    forall i | 0 <= i <= |t| ensures !(s <= t[i..]) {
      if i + |s| <= |t| {
        assert t[i..][|s| - 2] == t[1..][i + |s| - 3] && t[i..][|s| - 1] == t[1..][i + |s| - 2];
      }
    }
  }

  lemma LeadingTight(k: nat)
    ensures Tight("_" + Word(k)) && Tight(Placeholder(0) + ("_" + Word(k)))
  {
    WordShape(0);
    WordShape(k);
    hide Word;
    TightJoin("_", Word(k));
    TightJoin("${", Word(0));
    TightJoin("${" + Word(0), "}");
    TightJoin(Placeholder(0), "_" + Word(k));
  }

  lemma LeadingRestored(k: nat)
    ensures RestoreSentinels(Joined(0, k)) == Placeholder(0) + Beheaded(k)
  {
    var t := Placeholder(0) + Beheaded(k);
    JoinedText(k);
    LeadingTight(k);
    NoSentinelIn("_" + Word(k), 0);
    NoSentinelIn(Placeholder(0) + ("_" + Word(k)), 1);
    NoSentinelIn(Placeholder(0) + ("_" + Word(k)), 2);
    NoSentinelIn(Placeholder(0) + ("_" + Word(k)), 3);
    hide Word;
    assert t == (Placeholder(0) + ("_" + Word(k))) + "__";
    hide Sentinel, Placeholder, Joined;
    ReplaceWhole(Sentinel(0), Beheaded(k), Placeholder(0));
    ReplaceAbsent(Beheaded(k), Sentinel(0), Placeholder(0));
    ReplaceAbsent(t, Sentinel(1), Placeholder(1));
    ReplaceAbsent(t, Sentinel(2), Placeholder(2));
    ReplaceAbsent(t, Sentinel(3), Placeholder(3));
  }

  lemma BittenSkipped(k: nat)
    requires 1 <= k <= 3
    ensures forall q | 0 <= q < |Bitten(k)| :: !(Sentinel(0) <= (Bitten(k) + Sentinel(0))[q..])
  {
    WordShape(k);
    WordShape(0);
    WordHeads(k);
    hide Word;
    var w, b := Word(k), Bitten(k);
    var s := b + Sentinel(0);
    forall q | 0 <= q < |b| ensures !(Sentinel(0) <= s[q..]) {
      assert s[q..][0] == s[q] && s[q..][1] == s[q + 1] && s[q..][2] == s[q + 2];
      assert Sentinel(0)[0] == '_' && Sentinel(0)[1] == '_' && Sentinel(0)[2] == Word(0)[0];
      assert 2 <= q < |b| - 1 ==> s[q] == w[q - 2] && (q < |b| - 2 ==> s[q + 1] == w[q - 1]);
      assert s[2] == w[0] && s[|b|] == '_' && s[|b| + 1] == '_';
    }
  }

  lemma WordHeads(k: nat)
    ensures Word(0)[0] == 'P' && (1 <= k <= 3 ==> Word(k)[0] != 'P' && Word(k)[0] != '_')
  {
  }

  lemma TightMark(w: string)
    requires NoDouble(w) && w != "" && w[0] != '_' && w[|w| - 1] != '_'
    ensures NoDouble("_" + w + "_")
  {
    var u := "_" + w + "_";
    forall i | 0 <= i < |u| - 1 ensures !(u[i] == '_' && u[i + 1] == '_') {
      assert (1 <= i <= |w| ==> u[i] == w[i - 1]) && (i < |w| ==> u[i + 1] == w[i]);
    }
  }

  lemma BittenTight(k: nat)
    ensures var t := Bitten(k) + Placeholder(0); NoDouble(t[1..])
  {
    WordShape(0);
    WordShape(k);
    hide Word;
    TightJoin("_", Word(k));
    TightJoin("${", Word(0));
    TightJoin("${" + Word(0), "}");
    var u := "_" + Word(k) + "_";
    TightMark(Word(k));
    TightJoin(u, Placeholder(0));
    BittenTail(k, Placeholder(0));
  }

  lemma BittenTail(k: nat, t: string)
    ensures (Bitten(k) + t)[1..] == "_" + Word(k) + "_" + t
  {
    hide Word;
    assert Bitten(k)[1..] == "_" + Word(k) + "_";
  }

  lemma TrailingRestored(k: nat)
    requires 1 <= k <= 3
    ensures RestoreSentinels(Joined(k, 0)) == Bitten(k) + Placeholder(0)
  {
    var t := Bitten(k) + Placeholder(0);
    JoinedText(k);
    BittenSkipped(k);
    BittenTight(k);
    NoSentinelBehind(t, 1);
    NoSentinelBehind(t, 2);
    NoSentinelBehind(t, 3);
    hide Word, Sentinel, Placeholder, Bitten, Joined;
    ReplaceSkips(Bitten(k), Sentinel(0), Sentinel(0), Placeholder(0));
    ReplaceAll(Sentinel(0), Placeholder(0));
    ReplaceAbsent(t, Sentinel(1), Placeholder(1));
    ReplaceAbsent(t, Sentinel(2), Placeholder(2));
    ReplaceAbsent(t, Sentinel(3), Placeholder(3));
  }

  // ----- expanding it

  lemma {:induction false} ExpandPlain(s: string, rest: string, vars: map<string, string>)
    requires '$' !in s
    ensures Expand(s + rest, vars) == s + Expand(rest, vars)
  {
    if s == "" {
      assert s + rest == rest;
    } else {
      hide Expand;
      var head, tail := [s[0]], s[1..];
      assert s == head + tail;
      ExpandPlain(tail, rest, vars);
      ExpandChar(s[0], tail + rest, vars);
      Regroup(head, tail, rest);
      Regroup(head, tail, Expand(rest, vars));
    }
  }

  lemma ExpandChar(c: char, rest: string, vars: map<string, string>)
    requires c != '$'
    ensures Expand([c] + rest, vars) == [c] + Expand(rest, vars)
  {
    hide WordRun;
    assert ([c] + rest)[1..] == rest;
  }

  /** A template without backslashes is left alone by the unescape pass. */
  lemma Unescaped(t: string, order: seq<nat>)
    requires '\\' !in t
    ensures UnescapeVars(t, order) == t
  {
    hide UnescapeVars;
    forall k: nat ensures !Occurs("\\" + Placeholder(k), t) {
      AbsentChar("\\" + Placeholder(k), '\\', t);
    }
    UnescapeNothing(t, order);
  }

  lemma ExpandAll(s: string, vars: map<string, string>)
    requires '$' !in s
    ensures Expand(s, vars) == s
  {
    ExpandPlain(s, "", vars);
    assert s + "" == s && Expand("", vars) == "";
  }

  lemma NoDollarLeft(k: nat, c: char)
    requires c == '$' || c == '\\'
    ensures c !in Joined(0, k) && c !in Joined(k, 0) && c !in Beheaded(k) && c !in Bitten(k)
    ensures c == '\\' ==> c !in Placeholder(0) + Beheaded(k) && c !in Bitten(k) + Placeholder(0)
  {
    WordShape(0);
    WordShape(k);
    hide Word;
    assert c !in Sentinel(0) && c !in Sentinel(k);
    assert c == '\\' ==> c !in Placeholder(0);
  }

  /** What the file comes back as: a part of the name's sentinel next to the package. */
  function Damaged(v: string, k: nat, package: string): string
    requires EdgeUnderscore(v)
  {
    if v[0] == '_' then package + Beheaded(k) else Bitten(k) + package
  }

  /** A file with the first damaging name, number `k`, sharing its underscore with the sentinel of the package. */
  lemma Damages(content: string, pascal: string, package: string, k: nat, order: seq<nat>)
    requires ClearNames(pascal) && package != "" && 1 <= k <= 3
    requires var vals := Values(pascal, package);
      EdgeUnderscore(vals[k]) && Replace(content, package, Sentinel(0)) == Marked(vals[k])
      && forall j | 1 <= j < k :: !Occurs(vals[j], vals[k])
    ensures Parameterize(content, pascal, package, order).Some?
    ensures Expand(Parameterize(content, pascal, package, order).value, ScaffoldVars(pascal, package))
         == Damaged(Values(pascal, package)[k], k, package)
  {
    var vars, v := ScaffoldVars(pascal, package), Values(pascal, package)[k];
    MarkedFile(content, Values(pascal, package), k);
    ScaffoldBinds(pascal, package, vars);
    assert Word(0) in vars && vars[Word(0)] == package;
    NoDollarLeft(k, '$');
    NoDollarLeft(k, '\\');
    hide ClearNames, Word, Sentinel, Placeholder, ScaffoldVars, Bitten, Beheaded, Joined, Values, Occurs, Replace, Marked;
    hide InsertSentinels, EscapeDollars, RestoreSentinels, UnescapeVars, Expand;
    if v[0] == '_' {
      PlainEscape(Joined(0, k));
      LeadingRestored(k);
      Unescaped(Placeholder(0) + Beheaded(k), order);
      ExpandPlaceholder(0, Beheaded(k), vars);
      ExpandAll(Beheaded(k), vars);
    } else {
      PlainEscape(Joined(k, 0));
      TrailingRestored(k);
      Unescaped(Bitten(k) + Placeholder(0), order);
      ExpandPlain(Bitten(k), Placeholder(0), vars);
      ExpandPlaceholder(0, "", vars);
      ExpandAll("", vars);
      assert Placeholder(0) + "" == Placeholder(0) && package + "" == package;
    }
  }

  // ----- a file that is damaged

  /** A package that does not occur in the name. */
  function Package(v: string): string {
    "," + seq(|v|, i => '.')
  }

  /** The name without the underscore at its edge, next to the package. */
  function EdgeFile(v: string): string
    requires EdgeUnderscore(v)
  {
    if v[0] == '_' then Package(v) + v[1..] else v[..|v| - 1] + Package(v)
  }

  lemma EdgeFileMarked(v: string)
    requires EdgeUnderscore(v)
    ensures Replace(EdgeFile(v), Package(v), Sentinel(0)) == Marked(v)
  {
    hide Sentinel;
    var p := Package(v);
    if v[0] == '_' {
      ReplaceWhole(p, v[1..], Sentinel(0));
      TooShort(v[1..], p, Sentinel(0));
    } else {
      var stem := v[..|v| - 1];
      forall q | 0 <= q < |stem| ensures !(p <= (stem + p)[q..]) {
        assert (stem + p)[q..][|stem| - q] == p[0] != p[|stem| - q];
      }
      ReplaceSkips(stem, p, p, Sentinel(0));
      ReplaceAll(p, Sentinel(0));
    }
  }

  /** Around a plain text, characters that are no letters make no word. */
  lemma PlainAround(left: string, core: string, right: string)
    requires PlainFile(core)
    requires forall c | c in left + right :: c == ',' || c == '.' || c == '_'
    ensures PlainFile(left + core + right)
  {
    var t := left + core + right;
    forall i | 0 <= i < |t| ensures t[i] != '\\' && t[i] != '$' {
      assert if i < |left| then t[i] in left + right else if i < |left| + |core| then t[i] in core else t[i] in left + right;
    }
    forall k | 0 <= k < 4 ensures !Occurs(Word(k), t) {
      forall i | 0 <= i <= |t| ensures !(Word(k) <= t[i..]) {
        if Word(k) <= t[i..] {
          WordWithin(left, core, right, k, i);
        }
      }
    }
  }

  lemma WordWithin(left: string, core: string, right: string, k: nat, i: nat)
    requires i <= |left + core + right| && Word(k) <= (left + core + right)[i..]
    requires forall c | c in left + right :: c == ',' || c == '.' || c == '_'
    ensures Occurs(Word(k), core)
  {
    WordShape(k);
    var w, t := Word(k), left + core + right;
    hide Word;
    var n, end := |left| + |core|, i + |w| - 1;
    assert t[i] == t[i..][0] == w[0] && t[end] == t[i..][|w| - 1] == w[|w| - 1];
    assert forall j | 0 <= j < |t| && (j < |left| || j >= n) :: t[j] in left + right;
    assert i >= |left| && end < n;
    assert t[|left|..n] == core;
    assert t[i..][..|w|] == core[i - |left|..][..|w|];
    assert w <= core[i - |left|..];
  }

  lemma EdgeFilePlain(v: string)
    requires Damaging(v)
    ensures PlainFile(EdgeFile(v))
  {
    var p, core := Package(v), Core(v);
    hide NoWords;
    if v[0] == '_' {
      var right := v[1 + |core|..];
      assert v[1..] == core + right && (right == "" || right == "_");
      PlainAround(p, core, right);
      Regroup(p, core, right);
    } else {
      PlainAround("", core, p);
      assert "" + core + p == core + p;
    }
  }

  lemma DamagedDiffers(v: string, k: nat)
    requires NoDouble(v) && EdgeUnderscore(v)
    ensures Damaged(v, k, Package(v)) != EdgeFile(v)
  {
    hide Word;
    var p := Package(v);
    if v[0] == '_' {
      assert EdgeFile(v)[|p|..] == v[1..] && Damaged(v, k, p)[|p|..] == Beheaded(k);
      var n := |Beheaded(k)|;
      assert Beheaded(k)[n - 1] == '_' && Beheaded(k)[n - 2] == '_';
      assert |v| == n + 1 ==> v[1..][n - 1] == v[n] && v[1..][n - 2] == v[n - 1];
    } else {
      hide Package;
      var stem, b := v[..|v| - 1], Bitten(k);
      assert b[0] == '_' && b[1] == '_';
      if |stem| == |b| {
        assert stem[0] == v[0];
        assert EdgeFile(v)[0] == v[0] && Damaged(v, k, p)[0] == '_';
      }
    }
  }

  // ----- exactly when every file comes back

  /** The first damaging name damages a plain file. */
  lemma EdgeUnderscoreFails(pascal: string, k: nat, order: seq<nat>)
    requires ClearNames(pascal) && 1 <= k <= 3
    requires var vals := Values(pascal, ""); Damaging(vals[k]) && forall j | 1 <= j < k :: !Occurs(vals[j], vals[k])
    ensures var v := Values(pascal, "")[k];
      PlainFile(EdgeFile(v)) && !RoundTrips(EdgeFile(v), pascal, Package(v), order)
  {
    var v := Values(pascal, "")[k];
    var vals := Values(pascal, Package(v));
    assert vals[1..] == Values(pascal, "")[1..];
    assert forall j | 1 <= j <= 3 :: vals[j] == Values(pascal, "")[j];
    assert Clear(v, k);
    EdgeFilePlain(v);
    EdgeFileMarked(v);
    DamagedDiffers(v, k);
    hide ClearNames, Damaging, EdgeFile, Damaged, Parameterize, Expand, ScaffoldVars, Values, PlainFile, Marked, Occurs;
    Damages(EdgeFile(v), pascal, Package(v), k, order);
  }

  /**
   For a feature whose names contain no double underscore and occur in no sentinel of an earlier pass: every file
   without dollar signs, backslashes and names of template variables comes back, with every package, if and only if no
   name of the feature has an underscore at its edge and, without it, could stand in such a file.
   */
  lemma EveryFileIffNoEdge(pascal: string)
    requires ClearNames(pascal)
    ensures (forall content, package, order: seq<nat> | PlainFile(content) :: RoundTrips(content, pascal, package, order))
       <==> !Damaging(pascal) && !Damaging(PascalToCamel(pascal)) && !Damaging(PascalToSnake(pascal))
  {
    assert pascal != "";
    hide RoundTrips, ClearNames, Damaging, EdgeFile, PlainFile, Occurs;
    var vals := Values(pascal, "");
    if Damaging(pascal) {
      EdgeUnderscoreFails(pascal, 1, []);
    } else {
      EarlierApart(pascal);
      if Damaging(vals[2]) {
        EdgeUnderscoreFails(pascal, 2, []);
      } else if Damaging(vals[3]) {
        EdgeUnderscoreFails(pascal, 3, []);
      } else {
        forall content, package, order: seq<nat> | PlainFile(content) ensures RoundTrips(content, pascal, package, order) {
          ComesBack(content, pascal, package, order);
        }
      }
    }
  }

  lemma ExampleNames()
    ensures PascalToCamel("_Q") == "_Q" && PascalToSnake("_Q") == "_q"
  {
    var s := "_Q";
    assert s[1..] == "Q" && "Q"[1..] == "";
    assert SplitBeforeWords("Q") == "Q" && SplitBeforeWords(s) == s;
    assert SplitAfterLower("Q") == "Q" && SplitAfterLower(s) == s;
    assert LowerAll(s) == "_q" && PascalToCamel(s) == s;
  }

  lemma ExampleClear(k: nat)
    requires k < 4
    ensures !Occurs("_Q", Sentinel(k)) && !Occurs("_q", Sentinel(k)) && !Occurs(Word(k), "pQ")
  {
    WordShape(k);
    var c := Word(k)[1];
    assert c in Word(k);
    hide Word, Occurs;
    AbsentChar("_Q", 'Q', Sentinel(k));
    AbsentChar("_q", 'q', Sentinel(k));
    AbsentChar(Word(k), c, "pQ");
  }

  lemma ExampleFits()
    ensures ClearNames("_Q") && PlainFile("pQ")
  {
    ExampleNames();
    hide PascalToCamel, PascalToSnake, Sentinel, Occurs, Word;
    forall k | 0 <= k < 4 ensures !Occurs("_Q", Sentinel(k)) && !Occurs("_q", Sentinel(k)) && !Occurs(Word(k), "pQ") {
      ExampleClear(k);
    }
  }

  /** For example the feature `_Q` in package `p`: the file `pQ` comes back as `p_FEATURE_NAME__`. */
  lemma EdgeExample(order: seq<nat>)
    ensures ClearNames("_Q") && PlainFile("pQ") && Parameterize("pQ", "_Q", "p", order).Some?
    ensures Expand(Parameterize("pQ", "_Q", "p", order).value, ScaffoldVars("_Q", "p")) == "p_FEATURE_NAME__"
  {
    ExampleFits();
    assert "pQ" == "p" + "Q" && "_Q"[1..] == "Q" && "p" + Beheaded(1) == "p_FEATURE_NAME__";
    hide ClearNames, PlainFile, PascalToCamel, PascalToSnake, Parameterize, Expand, ScaffoldVars, Sentinel, Occurs, Replace, Beheaded;
    ReplaceWhole("p", "Q", Sentinel(0));
    AbsentChar("p", 'p', "Q");
    ReplaceAbsent("Q", "p", Sentinel(0));
    Damages("pQ", "_Q", "p", 1, order);
  }
}
