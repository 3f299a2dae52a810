/**
 Generating file templates and expanding them (contrib/kotlin-cli.py): `_parameterize` turns the
 names of a feature into `${VAR}` placeholders by way of sentinels, escaping the dollar signs of
 the file; `_expand_vars` puts the names of a feature in place of the placeholders.
 */
module Templates {
  import opened FeatureNames
  import opened Replacing
  import opened Text

  /** Python's `\w`. */
  predicate IsWord(c: char) {
    IsAlnum(c) || c == '_'
  }

  // ----- generating a template

  /** The four values a template abstracts from, in the order in which they are replaced. */
  function Values(pascal: string, package: string): seq<string>
    requires pascal != ""
  {
    [package, pascal, PascalToCamel(pascal), PascalToSnake(pascal)]
  }

  function ReplaceValue(s: string, vals: seq<string>, k: nat): string
    requires k < |vals|
  {
    if vals[k] == "" then s else Replace(s, vals[k], Sentinel(k))
  }

  /** `_sentinel_package_and_feature_names`: package, then Pascal, camel and snake case. */
  function InsertSentinels(content: string, vals: seq<string>): string
    requires |vals| == 4
  {
    ReplaceValue(ReplaceValue(ReplaceValue(ReplaceValue(content, vals, 0), vals, 1), vals, 2), vals, 3)
  }

  /** The length of the run of word characters at the start of `s`. */
  function WordRun(s: string): (n: nat)
    ensures n <= |s| && forall i | 0 <= i < n :: IsWord(s[i])
    ensures n < |s| ==> !IsWord(s[n])
  {
    if s != "" && IsWord(s[0]) then 1 + WordRun(s[1..]) else 0
  }

  /** `s` begins with a match of `\$\{(\w+)\}`. */
  predicate BraceMatch(s: string) {
    |s| >= 2 && s[0] == '$' && s[1] == '{' && WordRun(s[2..]) > 0 && WordRun(s[2..]) + 2 < |s| && s[WordRun(s[2..]) + 2] == '}'
  }

  /** `s` begins with a match of `\$([A-Za-z_]\w*)`. */
  predicate IdentMatch(s: string) {
    |s| >= 2 && s[0] == '$' && IsWord(s[1]) && !IsDigit(s[1])
  }

  function EscapeBraces(s: string): string
    decreases |s|
  {
    if BraceMatch(s) then
      var end := WordRun(s[2..]) + 3;
      "\\" + s[..end] + EscapeBraces(s[end..])
    else if s == "" then ""
    else [s[0]] + EscapeBraces(s[1..])
  }

  function EscapeIdents(s: string): string
    decreases |s|
  {
    if IdentMatch(s) then
      var end := WordRun(s[1..]) + 1;
      (if "__" <= s[1..end] then "" else "\\") + s[..end] + EscapeIdents(s[end..])
    else if s == "" then ""
    else [s[0]] + EscapeIdents(s[1..])
  }

  /** `_escape_kotlin_and_velocity_dollars` */
  function EscapeDollars(s: string): string {
    EscapeIdents(EscapeBraces(s))
  }

  /** `_restore_sentinels_as_template_vars` */
  function RestoreSentinels(s: string): string {
    Replace(Replace(Replace(Replace(s, Sentinel(0), Placeholder(0)), Sentinel(1), Placeholder(1)),
                    Sentinel(2), Placeholder(2)), Sentinel(3), Placeholder(3))
  }

  /** `_unescape_scaffold_vars`: the variables form a Python set, so the order is any order. */
  function UnescapeVars(s: string, order: seq<nat>): string
    decreases |order|
  {
    if order == [] then s
    else UnescapeVars(Replace(s, "\\" + Placeholder(order[0]), Placeholder(order[0])), order[1..])
  }

  /** `_parameterize`; an empty feature name raises IndexError. */
  function Parameterize(content: string, pascal: string, package: string, order: seq<nat>): Option<string> {
    if pascal == "" then None
    else Some(UnescapeVars(RestoreSentinels(EscapeDollars(InsertSentinels(content, Values(pascal, package)))), order))
  }

  // ----- expanding a template

  function Expand(s: string, vars: map<string, string>): string
    decreases |s|
  {
    if BraceMatch(s) then
      var n := WordRun(s[2..]);
      var name := s[2..n + 2];
      (if name in vars then vars[name] else s[..n + 3]) + Expand(s[n + 3..], vars)
    else if s == "" then ""
    else [s[0]] + Expand(s[1..], vars)
  }

  /** The variables `cmd_scaffold_feature` derives from a feature name and a package. */
  function ScaffoldVars(pascal: string, package: string): map<string, string>
    requires pascal != ""
  {
    map["FEATURE_NAME" := pascal, "feature_name" := PascalToSnake(pascal),
        "featureName" := PascalToCamel(pascal), "PACKAGE_NAME" := package]
  }

  // ----- the sentinel text as tokens

  function MarkValue(toks: seq<Token>, vals: seq<string>, k: nat): seq<Token>
    requires k < |vals|
  {
    if vals[k] == "" then toks else MarkAll(toks, vals[k], k)
  }

  /** The names of the template variables do not occur in the file. */
  ghost predicate NoWords(content: string) {
    forall k | 0 <= k < 4 :: !Occurs(Word(k), content)
  }

  ghost predicate NoWordRuns(toks: seq<Token>) {
    forall k | 0 <= k < 4 :: !HasRun(toks, Word(k))
  }

  /** What stands in raw characters stands in the file. */
  ghost predicate RunsFrom(toks: seq<Token>, content: string) {
    forall w: string | w != "" && HasRun(toks, w) :: Occurs(w, content)
  }

  /** What the first `m` replacement passes keep. */
  ghost predicate Stage(content: string, s: string, toks: seq<Token>, vals: seq<string>, m: nat)
    requires |vals| == 4
  {
    MarksOk(toks) && MarksBelow(toks, m) && Render(toks, 0) == s && Subst(toks, vals) == content && RunsFrom(toks, content)
  }

  /**
   In this file, a name can be told apart from the sentinels of the passes before its own: with an underscore at its
   edge it could take one from a sentinel, unless the rest of it is not in the file.
   */
  ghost predicate FitsFile(v: string, k: nat, content: string) {
    Clear(v, k) && (EdgeUnderscore(v) ==> !Occurs(Core(v), content))
  }

  lemma StagePass(content: string, s: string, toks: seq<Token>, vals: seq<string>, k: nat)
    requires |vals| == 4 && k < 4 && Stage(content, s, toks, vals, k)
    requires vals[k] == "" || FitsFile(vals[k], k, content) || forall t | t in toks :: t.Raw?
    ensures Stage(content, ReplaceValue(s, vals, k), MarkValue(toks, vals, k), vals, k + 1)
  {
    var v := vals[k];
    if v != "" {
      MarkKeepsMeaning(toks, k, vals);
      MarkedRuns(toks, v, k, content);
      if (forall t | t in toks :: t.Raw?) || Separable(v, k) {
        MarkPass(toks, v, k);
      } else {
        hide Occurs, HasRun, Core;
        assert Occurs("", content) by {
          assert "" <= content[0..];
        }
        EdgeAbsent(toks, v, k);
        ReplaceAbsent(s, v, Sentinel(k));
      }
    }
  }

  lemma MarkedRuns(toks: seq<Token>, v: string, k: nat, content: string)
    requires v != "" && RunsFrom(toks, content)
    ensures RunsFrom(MarkAll(toks, v, k), content)
  {
    hide HasRun, Occurs;
    forall w: string | w != "" && HasRun(MarkAll(toks, v, k), w) ensures Occurs(w, content) {
      MarkKeepsRuns(toks, v, k, w);
    }
  }

  /** The names of the feature can be told apart from the sentinels in this file. */
  ghost predicate FeatureFits(pascal: string, content: string) {
    && pascal != "" && FitsFile(pascal, 1, content) && FitsFile(PascalToCamel(pascal), 2, content)
    && FitsFile(PascalToSnake(pascal), 3, content)
  }

  /** They can be told apart in every file. */
  ghost predicate SeparableFeature(pascal: string) {
    pascal != "" && Separable(pascal, 1) && Separable(PascalToCamel(pascal), 2) && Separable(PascalToSnake(pascal), 3)
  }

  /** The file after the four passes. */
  function MarkedTokens(content: string, vals: seq<string>): seq<Token>
    requires |vals| == 4
  {
    MarkValue(MarkValue(MarkValue(MarkValue(Raws(content), vals, 0), vals, 1), vals, 2), vals, 3)
  }

  lemma SentinelStage(content: string, pascal: string, package: string) returns (toks: seq<Token>)
    requires FeatureFits(pascal, content)
    ensures toks == MarkedTokens(content, Values(pascal, package))
    ensures Stage(content, InsertSentinels(content, Values(pascal, package)), toks, Values(pascal, package), 4)
  {
    var vals := Values(pascal, package);
    RawsMeaning(content, vals);
    forall w: string | w != "" && HasRun(Raws(content), w) ensures Occurs(w, content) {
      RawRunOccurs(content, w);
    }
    var s0, t0 := content, Raws(content);
    assert Stage(content, s0, t0, vals, 0);
    var s1, t1 := ReplaceValue(s0, vals, 0), MarkValue(t0, vals, 0);
    var s2, t2 := ReplaceValue(s1, vals, 1), MarkValue(t1, vals, 1);
    var s3, t3 := ReplaceValue(s2, vals, 2), MarkValue(t2, vals, 2);
    hide Stage, ReplaceValue, MarkValue, FitsFile;
    StagePass(content, s0, t0, vals, 0);
    StagePass(content, s1, t1, vals, 1);
    StagePass(content, s2, t2, vals, 2);
    StagePass(content, s3, t3, vals, 3);
    toks := MarkValue(t3, vals, 3);
  }

  // ----- the rule for escapes

  /** What is escaped: `${...}`, and `$ident` unless the identifier begins like a sentinel. */
  predicate ToEscape(s: string) {
    BraceMatch(s) || (IdentMatch(s) && !("__" <= s[1..]))
  }

  function Backslashed(b: bool, s: string): string {
    if b then ['\\'] + s else s
  }

  /** A backslash before every dollar sign at which there is something to escape, and no other change. */
  function Escaped(s: string): string {
    if s == "" then "" else Backslashed(ToEscape(s), [s[0]] + Escaped(s[1..]))
  }

  function BracesEscaped(s: string): string {
    if s == "" then "" else Backslashed(BraceMatch(s), [s[0]] + BracesEscaped(s[1..]))
  }

  function IdentsEscaped(s: string): string {
    if s == "" then "" else Backslashed(IdentMatch(s) && !("__" <= s[1..]), [s[0]] + IdentsEscaped(s[1..]))
  }

  lemma NoDollar(c: char, s: string)
    requires c != '$'
    ensures BracesEscaped([c] + s) == [c] + BracesEscaped(s) && IdentsEscaped([c] + s) == [c] + IdentsEscaped(s)
  {
    assert ([c] + s)[1..] == s;
  }

  /** Nothing happens where no dollar sign stands. */
  lemma {:induction false} NoDollarAhead(a: string, s: string)
    requires '$' !in a
    ensures BracesEscaped(a + s) == a + BracesEscaped(s) && IdentsEscaped(a + s) == a + IdentsEscaped(s)
  {
    hide BracesEscaped, IdentsEscaped;
    if a == "" {
      assert a + s == s;
    } else {
      var c, rest := a[0], a[1..];
      NoDollarAhead(rest, s);
      assert a == [c] + rest;
      NoDollar(c, rest + s);
      Regroup([c], rest, s);
      Regroup([c], rest, BracesEscaped(s));
      Regroup([c], rest, IdentsEscaped(s));
    }
  }

  lemma {:induction false} BracePass(s: string)
    ensures EscapeBraces(s) == BracesEscaped(s)
    decreases |s|
  {
    if BraceMatch(s) {
      var end := WordRun(s[2..]) + 3;
      assert forall i | 0 <= i < end - 3 :: s[i + 2] == s[2..][i];
      BracePass(s[end..]);
      NoDollarAhead(s[1..end], s[end..]);
      Parted(s, end, BracesEscaped(s[end..]));
    } else if s != "" {
      BracePass(s[1..]);
    }
  }

  lemma {:induction false} IdentPass(s: string)
    ensures EscapeIdents(s) == IdentsEscaped(s)
    decreases |s|
  {
    if IdentMatch(s) {
      var end := WordRun(s[1..]) + 1;
      assert forall i | 0 <= i < end - 1 :: s[i + 1] == s[1..][i];
      IdentPass(s[end..]);
      NoDollarAhead(s[1..end], s[end..]);
      Parted(s, end, IdentsEscaped(s[end..]));
      assert "__" <= s[1..end] <==> "__" <= s[1..];
    } else if s != "" {
      IdentPass(s[1..]);
    }
  }

  lemma Parted(s: string, end: nat, rest: string)
    requires 0 < end <= |s|
    ensures s[1..] == s[1..end] + s[end..]
    ensures "\\" + s[..end] + rest == ['\\'] + ([s[0]] + (s[1..end] + rest)) && "" + s[..end] + rest == [s[0]] + (s[1..end] + rest)
  {
  }

  /** The second pass meets the same words behind dollar signs as if the first had not been there. */
  lemma SameIdent(s: string)
    requires s != ""
    ensures var e := [s[0]] + BracesEscaped(s[1..]);
      IdentMatch(e) && !("__" <= e[1..]) <==> IdentMatch(s) && !("__" <= s[1..])
  {
    var t := s[1..];
    if t != "" {
      assert BracesEscaped(t)[0] == if BraceMatch(t) then '\\' else t[0];
    }
  }

  /** The two passes together escape by the rule. */
  lemma {:induction false} EscapeRule(s: string)
    ensures EscapeDollars(s) == Escaped(s)
    decreases |s|
  {
    BracePass(s);
    IdentPass(EscapeBraces(s));
    if s != "" {
      EscapeRule(s[1..]);
      BracePass(s[1..]);
      IdentPass(EscapeBraces(s[1..]));
      SameIdent(s);
      var e := [s[0]] + BracesEscaped(s[1..]);
      assert e[1..] == BracesEscaped(s[1..]) && (['\\'] + e)[1..] == e;
    }
  }

  /** `e` is `t` with backslashes inserted before some of its dollar signs. */
  predicate Inserted(t: string, e: string)
    decreases |e|
  {
    if e == "" then t == ""
    else if e[0] == '\\' && t != "" && t[0] == '$' then Inserted(t, e[1..])
    else t != "" && t[0] == e[0] && Inserted(t[1..], e[1..])
  }

  lemma {:induction false} EscapedInserts(s: string)
    ensures Inserted(s, Escaped(s))
  {
    if s != "" {
      EscapedInserts(s[1..]);
      var e := [s[0]] + Escaped(s[1..]);
      assert e[1..] == Escaped(s[1..]) && (['\\'] + e)[1..] == e;
    }
  }

  lemma EscapeInserts(s: string)
    ensures Inserted(s, EscapeDollars(s))
  {
    EscapeRule(s);
    EscapedInserts(s);
  }

  /** There is nothing to escape. */
  predicate NothingToEscape(s: string) {
    forall i | 0 <= i <= |s| :: !ToEscape(s[i..])
  }

  lemma {:induction false} EscapedLength(s: string)
    ensures |Escaped(s)| >= |s| && (|Escaped(s)| == |s| <==> NothingToEscape(s))
    ensures NothingToEscape(s) ==> Escaped(s) == s
  {
    assert s[0..] == s;
    if s != "" {
      EscapedLength(s[1..]);
      hide ToEscape;
      forall i | 0 < i <= |s| ensures s[i..] == s[1..][i - 1..] {
      }
      forall i | 0 <= i <= |s[1..]| ensures s[1..][i..] == s[i + 1..] {
      }
      assert s == [s[0]] + s[1..];
    }
  }

  /** The escape pass changes nothing exactly if there is nothing to escape. */
  lemma EscapesNothing(s: string)
    ensures EscapeDollars(s) == s <==> NothingToEscape(s)
  {
    EscapeRule(s);
    EscapedLength(s);
  }

  // ----- the same on tokens

  predicate TokensInserted(a: seq<Token>, b: seq<Token>)
    decreases |b|
  {
    if b == [] then a == []
    else if b[0] == Raw('\\') && a != [] && a[0] == Raw('$') then TokensInserted(a, b[1..])
    else a != [] && a[0] == b[0] && TokensInserted(a[1..], b[1..])
  }

  lemma {:induction false} InsertedSkips(a: string, t: string, e: string)
    requires '$' !in a && Inserted(a + t, e)
    ensures |a| <= |e| && e[..|a|] == a && Inserted(t, e[|a|..])
  {
    if a == "" {
      assert a + t == t && e[0..] == e;
    } else {
      assert (a + t)[1..] == a[1..] + t;
      InsertedSkips(a[1..], t, e[1..]);
      assert e[1..][|a[1..]|..] == e[|a|..] && e[..|a|] == [e[0]] + e[1..][..|a[1..]|];
    }
  }

  lemma SentinelHasNoDollar(k: nat)
    ensures '$' !in Sentinel(k) && '\\' !in Sentinel(k) && '\\' !in Placeholder(k)
  {
    WordShape(k);
  }

  lemma {:induction false} InsertTokens(toks: seq<Token>, e: string) returns (r: seq<Token>)
    requires MarksOk(toks) && Inserted(Render(toks, 0), e)
    ensures MarksOk(r) && Render(r, 0) == e && TokensInserted(toks, r)
    decreases |e|
  {
    if toks == [] {
      r := [];
    } else if toks[0].Mark? {
      var s := Sentinel(toks[0].k);
      SentinelHasNoDollar(toks[0].k);
      hide Sentinel, Inserted, TokensInserted;
      InsertedSkips(s, Render(toks[1..], 0), e);
      var rest := InsertTokens(toks[1..], e[|s|..]);
      r := [toks[0]] + rest;
      TokenInFront(toks, toks[0], rest);
      assert e == s + e[|s|..];
    } else {
      var c, t := toks[0].c, Render(toks[1..], 0);
      assert Render(toks, 0) == [c] + t;
      hide Render, Inserted, TokensInserted;
      InsertedHead(c, t, e);
      var rest := InsertTokens(if e[0] == '\\' && c == '$' then toks else toks[1..], e[1..]);
      r := [Raw(e[0])] + rest;
      TokenInFront(toks, Raw(e[0]), rest);
      assert e == [e[0]] + e[1..];
    }
  }

  lemma InsertedHead(c: char, t: string, e: string)
    requires Inserted([c] + t, e)
    ensures e != "" && if e[0] == '\\' && c == '$' then Inserted([c] + t, e[1..]) else e[0] == c && Inserted(t, e[1..])
  {
    assert ([c] + t)[1..] == t;
  }

  lemma TokenInFront(a: seq<Token>, x: Token, r: seq<Token>)
    ensures Render([x] + r, 0) == Show(x, 0) + Render(r, 0)
    ensures TokensInserted(a, [x] + r)
       <==> if x == Raw('\\') && a != [] && a[0] == Raw('$') then TokensInserted(a, r)
            else a != [] && a[0] == x && TokensInserted(a[1..], r)
  {
    assert ([x] + r)[1..] == r;
  }

  lemma {:induction false} InsertedStartsRun(a: seq<Token>, b: seq<Token>, w: string)
    requires TokensInserted(a, b) && '\\' !in w && StartsRun(b, w)
    ensures StartsRun(a, w)
  {
    if w != "" {
      assert b[0] == Raw(w[0]);
      InsertedStartsRun(a[1..], b[1..], w[1..]);
    }
  }

  /** Inserting backslashes makes no new runs of words. */
  lemma {:induction false} InsertedHasRun(a: seq<Token>, b: seq<Token>, w: string)
    requires TokensInserted(a, b) && '\\' !in w && HasRun(b, w)
    ensures HasRun(a, w)
    decreases |b|
  {
    var i :| 0 <= i <= |b| && StartsRun(b[i..], w);
    if i == 0 {
      assert b[0..] == b && a[0..] == a;
      InsertedStartsRun(a, b, w);
    } else {
      assert b[i..] == b[1..][i - 1..];
      if b[0] == Raw('\\') && a != [] && a[0] == Raw('$') {
        InsertedHasRun(a, b[1..], w);
      } else {
        InsertedHasRun(a[1..], b[1..], w);
        RunInTail(a, 1, w);
      }
    }
  }

  // ----- restoring, unescaping and expanding

  lemma RestoreAll(toks: seq<Token>)
    requires MarksOk(toks) && NoWordRuns(toks)
    ensures RestoreSentinels(Render(toks, 0)) == Render(toks, 4)
  {
    hide Word, Replace, Render, HasRun;
    RestorePass(toks, 0);
    RestorePass(toks, 1);
    RestorePass(toks, 2);
    RestorePass(toks, 3);
  }

  lemma {:induction false} UnescapeNothing(s: string, order: seq<nat>)
    requires forall k: nat :: !Occurs("\\" + Placeholder(k), s)
    ensures UnescapeVars(s, order) == s
  {
    if order != [] {
      ReplaceAbsent(s, "\\" + Placeholder(order[0]), Placeholder(order[0]));
      UnescapeNothing(s, order[1..]);
    }
  }

  /** The escapes that were inserted never stand before a restored placeholder. */
  lemma {:induction false} NoEscapedPlaceholder(a: seq<Token>, b: seq<Token>, k: nat)
    requires TokensInserted(a, b) && Raw('\\') !in a && !HasRun(a, Word(k))
    ensures !Occurs("\\" + Placeholder(k), Render(b, 4))
    decreases |b|
  {
    var p, s := "\\" + Placeholder(k), Render(b, 4);
    if b != [] {
      var head, rest := Show(b[0], 4), Render(b[1..], 4);
      if b[0] == Raw('\\') {
        NoEscapedPlaceholder(a, b[1..], k);
        AfterBackslash(a, b, k);
      } else {
        assert !HasRun(a[1..], Word(k)) by {
          if HasRun(a[1..], Word(k)) {
            RunInTail(a, 1, Word(k));
          }
        }
        NoEscapedPlaceholder(a[1..], b[1..], k);
        if b[0].Mark? {
          SentinelHasNoDollar(b[0].k);
        }
      }
      OccursBehind(p, head, rest);
    }
  }

  lemma OccursBehind(p: string, head: string, rest: string)
    requires p != "" && !Occurs(p, rest)
    requires forall i | 0 <= i < |head| :: head[i] != p[0] || (i == 0 && !(p <= head + rest))
    ensures !Occurs(p, head + rest)
  {
    var s := head + rest;
    forall i | 0 <= i <= |s| ensures !(p <= s[i..]) {
      if i >= |head| {
        assert s[i..] == rest[i - |head|..];
      } else {
        assert s[i..][0] == head[i];
        assert s[0..] == s;
      }
    }
  }

  lemma AfterBackslash(a: seq<Token>, b: seq<Token>, k: nat)
    requires TokensInserted(a, b) && Raw('\\') !in a && !HasRun(a, Word(k))
    requires b != [] && b[0] == Raw('\\')
    ensures !("\\" + Placeholder(k) <= Render(b, 4))
  {
    hide Word, Render, HasRun, TokensInserted;
    var p, s := "\\" + Placeholder(k), Render(b, 4);
    AfterInserted(a, b);
    RenderHead(b, 4);
    RenderHead(b[1..], 4);
    if b[1] == Raw('$') {
      var c := b[2..];
      assert b[1..][1..] == c;
      NoWordAfterBrace(a, b, k);
      assert p == "\\$" + ("{" + Word(k) + "}") && s == "\\$" + Render(c, 4);
      PrefixCancels("\\$", "{" + Word(k) + "}", Render(c, 4));
    } else {
      assert s[1] == '\\' && p[1] == '$';
    }
  }

  lemma NoWordAfterBrace(a: seq<Token>, b: seq<Token>, k: nat)
    requires TokensInserted(a, b) && !HasRun(a, Word(k)) && |b| >= 2
    ensures !("{" + Word(k) + "}" <= Render(b[2..], 4))
  {
    WordShape(k);
    hide Word, Render, TokensInserted;
    var u, c := "{" + Word(k), b[2..];
    PrefixIsRun(c, 4, u);
    if StartsRun(c, u) {
      assert StartsRun(b[3..], Word(k));
      InsertedHasRun(a, b, Word(k));
    }
    LongerPrefix(u, "}", Render(c, 4));
  }

  /** An inserted backslash is followed by another one or by its dollar sign. */
  lemma AfterInserted(a: seq<Token>, b: seq<Token>)
    requires TokensInserted(a, b) && Raw('\\') !in a && b != [] && b[0] == Raw('\\')
    ensures |b| >= 2 && (b[1] == Raw('\\') || b[1] == Raw('$'))
  {
  }

  lemma RenderHead(toks: seq<Token>, m: nat)
    ensures toks != [] && toks[0].Raw? ==>
      Render(toks, m) == [toks[0].c] + Render(toks[1..], m) && Render(toks, m)[1..] == Render(toks[1..], m)
    ensures toks != [] && toks[0].Mark? && toks[0].k < m ==> Render(toks, m) != "" && Render(toks, m)[0] == '$'
  {
  }

  /** In the rendered template, a raw dollar sign begins a match only if it did before. */
  lemma RawDollar(toks: seq<Token>)
    requires MarksOk(toks) && toks != [] && toks[0].Raw? && BraceMatch(Render(toks, 4))
    ensures BraceMatch(Render(toks, 0))
  {
    hide Render, WordRun;
    var rest := toks[1..];
    RenderHead(toks, 4);
    RenderHead(toks, 0);
    assert Render(rest, 4) != "" && Render(rest, 4)[0] == '{';
    RenderNonempty(rest, 4);
    RenderHead(rest, 4);
    RenderHead(rest, 0);
    assert Render(toks, 4)[2..] == Render(rest[1..], 4) && Render(toks, 0)[2..] == Render(rest[1..], 0);
    RawWord(rest[1..]);
  }

  lemma RenderNonempty(toks: seq<Token>, m: nat)
    ensures Render(toks, m) != "" ==> toks != []
  {
  }

  /** A word in the rendered template that is not followed by a dollar sign stands in raw characters. */
  lemma {:induction false} RawWord(toks: seq<Token>)
    requires MarksOk(toks)
    requires var n := WordRun(Render(toks, 4)); n < |Render(toks, 4)| && Render(toks, 4)[n] != '$'
    ensures var n := WordRun(Render(toks, 4));
      WordRun(Render(toks, 0)) == n && n < |Render(toks, 0)| && Render(toks, 0)[n] == Render(toks, 4)[n]
  {
    hide Render;
    var s := Render(toks, 4);
    RenderNonempty(toks, 4);
    RenderHead(toks, 4);
    RenderHead(toks, 0);
    if toks[0].Raw? && IsWord(s[0]) {
      RawWord(toks[1..]);
    }
  }

  ghost predicate Binds(vars: map<string, string>, vals: seq<string>)
    requires |vals| == 4
  {
    forall k | 0 <= k < 4 :: Word(k) in vars && vars[Word(k)] == vals[k]
  }

  lemma {:induction false} WordRunIs(w: string, rest: string)
    requires (forall i | 0 <= i < |w| :: IsWord(w[i])) && (rest == "" || !IsWord(rest[0]))
    ensures WordRun(w + rest) == |w|
  {
    if w == "" {
      assert w + rest == rest;
    } else {
      WordRunIs(w[1..], rest);
      assert (w + rest)[1..] == w[1..] + rest;
    }
  }

  lemma WordOfWords(k: nat)
    ensures forall i | 0 <= i < |Word(k)| :: IsWord(Word(k)[i])
  {
  }

  /** A placeholder at the front of the template is expanded. */
  lemma ExpandPlaceholder(k: nat, rest: string, vars: map<string, string>)
    requires Word(k) in vars
    ensures Expand(Placeholder(k) + rest, vars) == vars[Word(k)] + Expand(rest, vars)
  {
    WordOfWords(k);
    WordShape(k);
    hide Word, WordRun, Expand;
    var w, s := Word(k), Placeholder(k) + rest;
    WordRunIs(w, "}" + rest);
    ExpandMatch(w, rest, vars);
  }

  lemma ExpandMatch(w: string, rest: string, vars: map<string, string>)
    requires w != "" && WordRun(w + ("}" + rest)) == |w|
    ensures Expand(("${" + w + "}") + rest, vars) == (if w in vars then vars[w] else "${" + w + "}") + Expand(rest, vars)
  {
    hide WordRun;
    PlaceholderParts(w, rest);
    assert BraceMatch(("${" + w + "}") + rest);
  }

  lemma PlaceholderParts(w: string, rest: string)
    ensures var s := ("${" + w + "}") + rest;
      && s[0] == '$' && s[1] == '{' && s[2..] == w + ("}" + rest)
      && s[|w| + 2] == '}' && s[2..|w| + 2] == w && s[|w| + 3..] == rest
  {
  }

  /** A reference: `${`, at least one letter, digit or underscore, and `}`. */
  lemma BraceMatchIs(s: string)
    ensures BraceMatch(s) <==> exists n | 3 <= n < |s| ::
      s[0] == '$' && s[1] == '{' && s[n] == '}' && forall i | 2 <= i < n :: IsWord(s[i])
  {
    if BraceMatch(s) {
      var n := WordRun(s[2..]) + 2;
      assert forall i | 2 <= i < n :: s[i] == s[2..][i - 2];
    }
    if n :| 3 <= n < |s| && s[0] == '$' && s[1] == '{' && s[n] == '}' && forall i | 2 <= i < n :: IsWord(s[i]) {
      assert s[2..] == s[2..n] + s[n..];
      WordRunIs(s[2..n], s[n..]);
    }
  }

  /**
   Expansion goes from reference to reference: what stands before the first one is kept, a known variable is replaced by
   its value, an unknown one is kept, and so is a text without any.
   */
  lemma {:induction false} ExpandRule(text: string, w: string, rest: string, vars: map<string, string>)
    requires forall q | 0 <= q < |text| :: !BraceMatch((text + ("${" + w + "}" + rest))[q..])
    requires w != "" && forall i | 0 <= i < |w| :: IsWord(w[i])
    ensures Expand(text + ("${" + w + "}" + rest), vars)
         == text + ((if w in vars then vars[w] else "${" + w + "}") + Expand(rest, vars))
    ensures (forall q | 0 <= q <= |rest| :: !BraceMatch(rest[q..])) ==> Expand(rest, vars) == rest
    decreases |text|
  {
    var r := "${" + w + "}" + rest;
    if forall q | 0 <= q <= |rest| :: !BraceMatch(rest[q..]) {
      NothingToExpand(rest, vars);
    }
    hide BraceMatch;
    if text == "" {
      assert text + r == r;
      WordRunIs(w, "}" + rest);
      ExpandMatch(w, rest, vars);
    } else {
      assert (text + r)[0..] == text + r && (text + r)[1..] == text[1..] + r;
      forall q | 0 <= q < |text[1..]| ensures !BraceMatch((text[1..] + r)[q..]) {
        assert (text[1..] + r)[q..] == (text + r)[q + 1..];
      }
      ExpandRule(text[1..], w, rest, vars);
      Regroup([text[0]], text[1..], (if w in vars then vars[w] else "${" + w + "}") + Expand(rest, vars));
      assert [text[0]] + text[1..] == text;
    }
  }

  lemma {:induction false} NothingToExpand(s: string, vars: map<string, string>)
    requires forall q | 0 <= q <= |s| :: !BraceMatch(s[q..])
    ensures Expand(s, vars) == s
  {
    hide BraceMatch;
    assert s[0..] == s;
    if s != "" {
      forall q | 0 <= q <= |s[1..]| ensures !BraceMatch(s[1..][q..]) {
        assert s[1..][q..] == s[q + 1..];
      }
      NothingToExpand(s[1..], vars);
    }
  }

  lemma {:induction false} ExpandMeaning(toks: seq<Token>, vals: seq<string>, vars: map<string, string>)
    requires MarksOk(toks) && |vals| == 4 && Binds(vars, vals)
    requires forall i | 0 <= i <= |Render(toks, 0)| :: !BraceMatch(Render(toks, 0)[i..])
    ensures Expand(Render(toks, 4), vars) == Subst(toks, vals)
    decreases |toks|
  {
    if toks != [] {
      var head, rest := Show(toks[0], 0), Render(toks[1..], 0);
      assert Render(toks, 0) == head + rest;
      forall i | 0 <= i <= |rest| ensures !BraceMatch(rest[i..]) {
        assert rest[i..] == Render(toks, 0)[|head| + i..];
      }
      ExpandMeaning(toks[1..], vals, vars);
      if toks[0].Mark? {
        ExpandPlaceholder(toks[0].k, Render(toks[1..], 4), vars);
      } else {
        assert !BraceMatch(Render(toks, 4)) by {
          assert Render(toks, 0)[0..] == Render(toks, 0);
          if BraceMatch(Render(toks, 4)) {
            RawDollar(toks);
          }
        }
        RenderHead(toks, 4);
      }
    }
  }

  /** Expansion never removes a backslash. */
  lemma {:induction false} ExpandKeepsBackslash(s: string, vars: map<string, string>)
    requires '\\' in s
    ensures '\\' in Expand(s, vars)
    decreases |s|
  {
    if BraceMatch(s) {
      var n := WordRun(s[2..]);
      assert forall i | 0 <= i < n :: s[2 + i] == s[2..][i];
      assert '\\' !in s[..n + 3];
      assert s == s[..n + 3] + s[n + 3..];
      ExpandKeepsBackslash(s[n + 3..], vars);
    } else {
      assert s == [s[0]] + s[1..];
      if s[0] != '\\' {
        ExpandKeepsBackslash(s[1..], vars);
      }
    }
  }

  lemma {:induction false} RenderKeepsBackslash(toks: seq<Token>, m: nat)
    ensures '\\' in Render(toks, m) <==> Raw('\\') in toks
  {
    if toks != [] {
      RenderKeepsBackslash(toks[1..], m);
      assert toks == [toks[0]] + toks[1..];
      if toks[0].Mark? {
        SentinelHasNoDollar(toks[0].k);
      }
    }
  }

  // ----- the main results

  /** The template of a file, as tokens: the marks, and the backslashes that were inserted. */
  lemma TemplateTokens(content: string, pascal: string, package: string, order: seq<nat>)
    returns (toks: seq<Token>, escaped: seq<Token>)
    requires NoWords(content) && '\\' !in content && FeatureFits(pascal, content)
    ensures toks == MarkedTokens(content, Values(pascal, package))
    ensures Stage(content, InsertSentinels(content, Values(pascal, package)), toks, Values(pascal, package), 4)
    ensures Raw('\\') !in toks && TokensInserted(toks, escaped)
    ensures Render(escaped, 0) == EscapeDollars(Render(toks, 0))
    ensures Parameterize(content, pascal, package, order) == Some(Render(escaped, 4))
  {
    toks := SentinelStage(content, pascal, package);
    EscapeInserts(Render(toks, 0));
    escaped := InsertTokens(toks, EscapeDollars(Render(toks, 0)));
    NoRawChar(toks, Values(pascal, package), '\\');
    RestoredTokens(toks, escaped, order);
  }

  /** Restoring and unescaping, on tokens. */
  lemma RestoredTokens(toks: seq<Token>, escaped: seq<Token>, order: seq<nat>)
    requires MarksOk(escaped) && TokensInserted(toks, escaped) && Raw('\\') !in toks && NoWordRuns(toks)
    ensures UnescapeVars(RestoreSentinels(Render(escaped, 0)), order) == Render(escaped, 4)
  {
    hide HasRun, Render, RestoreSentinels, TokensInserted, Placeholder;
    forall k | 0 <= k < 4 ensures !HasRun(escaped, Word(k)) {
      WordShape(k);
      if HasRun(escaped, Word(k)) {
        InsertedHasRun(toks, escaped, Word(k));
      }
    }
    RestoreAll(escaped);
    forall k: nat ensures !Occurs("\\" + Placeholder(k), Render(escaped, 4)) {
      assert Word(k) == Word(Min(k, 3)) && !HasRun(toks, Word(Min(k, 3)));
      NoEscapedPlaceholder(toks, escaped, k);
    }
    UnescapeNothing(Render(escaped, 4), order);
  }

  lemma {:induction false} InsertedNothing(a: seq<Token>, b: seq<Token>)
    requires TokensInserted(a, b) && Raw('\\') !in b
    ensures a == b
  {
    if b != [] {
      InsertedNothing(a[1..], b[1..]);
      assert a == [a[0]] + a[1..] && b == [b[0]] + b[1..];
    }
  }

  lemma ScaffoldBinds(pascal: string, package: string, vars: map<string, string>)
    requires pascal != ""
    requires forall name | name in ScaffoldVars(pascal, package) ::
      name in vars && vars[name] == ScaffoldVars(pascal, package)[name]
    ensures Binds(vars, Values(pascal, package))
  {
    var own, vals := ScaffoldVars(pascal, package), Values(pascal, package);
    forall k | 0 <= k < 4 ensures Word(k) in own && own[Word(k)] == vals[k] {
    }
  }

  /** Raw characters come from the file. */
  lemma {:induction false} NoRawChar(toks: seq<Token>, vals: seq<string>, c: char)
    requires MarksOk(toks) && |vals| == 4 && c !in Subst(toks, vals)
    ensures Raw(c) !in toks
  {
    if toks != [] {
      NoRawChar(toks[1..], vals, c);
    }
  }

  /** The marks of the passes after pass `k` put back to what they stand for. */
  ghost function PutBack(toks: seq<Token>, vals: seq<string>, k: nat): seq<Token>
    requires MarksOk(toks) && |vals| == 4
  {
    if toks == [] then []
    else (if toks[0].Mark? && toks[0].k > k then Raws(vals[toks[0].k]) else [toks[0]]) + PutBack(toks[1..], vals, k)
  }

  lemma {:induction false} PutBackNothing(toks: seq<Token>, vals: seq<string>, k: nat)
    requires k < 4 && MarksBelow(toks, k + 1) && |vals| == 4
    ensures PutBack(toks, vals, k) == toks
  {
    if toks != [] {
      PutBackNothing(toks[1..], vals, k);
      assert toks == [toks[0]] + toks[1..];
    }
  }

  lemma {:induction false} PutBackRun(toks: seq<Token>, vals: seq<string>, k: nat, w: string)
    requires MarksOk(toks) && |vals| == 4 && StartsRun(toks, w)
    ensures PutBack(toks, vals, k) == Raws(w) + PutBack(toks[|w|..], vals, k)
  {
    if w == "" {
      assert toks[0..] == toks;
    } else {
      PutBackRun(toks[1..], vals, k, w[1..]);
      assert toks[1..][|w[1..]|..] == toks[|w|..];
      Regroup([Raw(w[0])], Raws(w[1..]), PutBack(toks[|w|..], vals, k));
    }
  }

  /** Putting a pass back undoes it. */
  lemma {:induction false} PutBackPass(toks: seq<Token>, vals: seq<string>, j: nat, k: nat)
    requires k < j < 4 && |vals| == 4 && vals[j] != "" && MarksOk(toks)
    ensures MarksOk(MarkAll(toks, vals[j], j)) && PutBack(MarkAll(toks, vals[j], j), vals, k) == PutBack(toks, vals, k)
    decreases |toks|
  {
    MarkKeepsMeaning(toks, j, vals);
    if toks != [] {
      var n := if StartsRun(toks, vals[j]) then |vals[j]| else 1;
      PutBackPass(toks[n..], vals, j, k);
      assert MarkAll(toks, vals[j], j)[1..] == MarkAll(toks[n..], vals[j], j);
      if StartsRun(toks, vals[j]) {
        PutBackRun(toks, vals, k, vals[j]);
      }
    }
  }

  /** After its pass, a value stands nowhere in raw characters. */
  lemma {:induction false} MarkedGone(toks: seq<Token>, v: string, k: nat)
    requires v != ""
    ensures !HasRun(MarkAll(toks, v, k), v)
    decreases |toks|
  {
    var marked := MarkAll(toks, v, k);
    if marked != [] {
      var n := MarkTail(toks, v, k);
      MarkedGone(toks[n..], v, k);
      forall i | 0 <= i <= |marked| ensures !StartsRun(marked[i..], v) {
        if i == 0 {
          assert marked[0..] == marked;
          if StartsRun(marked, v) {
            MarkStartsRun(toks, v, k, v);
          }
        } else {
          assert marked[i..] == marked[1..][i - 1..];
        }
      }
    }
  }

  /** With the marks of later passes put back, no value of the first `m` passes stands in raw characters. */
  ghost predicate Gone(toks: seq<Token>, vals: seq<string>, m: nat) {
    && |vals| == 4 && m <= 4 && MarksBelow(toks, m)
    && forall k | 0 <= k < m && vals[k] != "" :: !HasRun(PutBack(toks, vals, k), vals[k])
  }

  lemma ValueGone(toks: seq<Token>, vals: seq<string>, k: nat)
    requires k < 4 && Gone(toks, vals, k)
    ensures Gone(MarkValue(toks, vals, k), vals, k + 1)
  {
    if vals[k] != "" {
      hide HasRun, MarkAll;
      MarkKeepsMeaning(toks, k, vals);
      MarkedGone(toks, vals[k], k);
      PutBackNothing(MarkValue(toks, vals, k), vals, k);
      forall j | 0 <= j < k ensures PutBack(MarkValue(toks, vals, k), vals, j) == PutBack(toks, vals, j) {
        PutBackPass(toks, vals, k, j);
      }
    }
  }

  lemma AllGone(content: string, vals: seq<string>)
    requires |vals| == 4
    ensures Gone(MarkedTokens(content, vals), vals, 4)
  {
    var t0 := Raws(content);
    var t1 := MarkValue(t0, vals, 0);
    var t2 := MarkValue(t1, vals, 1);
    assert Gone(t0, vals, 0);
    hide Gone, MarkValue;
    ValueGone(t0, vals, 0);
    ValueGone(t1, vals, 1);
    ValueGone(t2, vals, 2);
    ValueGone(MarkValue(t2, vals, 2), vals, 3);
  }

  /**
   What a template is: the file with marks, shown as placeholders, where the values stood, and with backslashes inserted
   before dollar signs.  Each value is gone from the text that is left once it had its turn: with the marks of later
   passes put back, it stands nowhere in raw characters.
   */
  lemma TemplateAbstracts(content: string, pascal: string, package: string, order: seq<nat>)
    returns (toks: seq<Token>, escaped: seq<Token>)
    requires NoWords(content) && '\\' !in content && FeatureFits(pascal, content)
    ensures Parameterize(content, pascal, package, order) == Some(Render(escaped, 4)) && TokensInserted(toks, escaped)
    ensures MarksOk(toks) && Subst(toks, [package, pascal, PascalToCamel(pascal), PascalToSnake(pascal)]) == content
    ensures Gone(toks, [package, pascal, PascalToCamel(pascal), PascalToSnake(pascal)], 4)
    ensures escaped == toks <==> NothingToEscape(InsertSentinels(content, Values(pascal, package)))
  {
    toks, escaped := TemplateTokens(content, pascal, package, order);
    AllGone(content, Values(pascal, package));
    SameTokens(toks, escaped);
    hide HasRun, Render, Parameterize, TokensInserted, PutBack, InsertSentinels, PascalToSnake, PascalToCamel;
  }

  /** No backslash is inserted exactly if there is nothing to escape. */
  lemma SameTokens(toks: seq<Token>, escaped: seq<Token>)
    requires TokensInserted(toks, escaped) && Raw('\\') !in toks && Render(escaped, 0) == EscapeDollars(Render(toks, 0))
    ensures escaped == toks <==> NothingToEscape(Render(toks, 0))
    ensures escaped == toks <==> Raw('\\') !in escaped
  {
    hide EscapeDollars, NothingToEscape;
    var text := Render(toks, 0);
    EscapesNothing(text);
    if EscapeDollars(text) == text {
      RenderKeepsBackslash(toks, 0);
      RenderKeepsBackslash(escaped, 0);
    }
    if Raw('\\') !in escaped {
      InsertedNothing(toks, escaped);
    }
  }

  /**
   The round trip.  For a file without backslashes and without the names of the template variables,
   and a feature whose names can be told apart from the sentinels in it, expanding the generated template
   with the same feature and package gives back the file if and only if there is nothing to escape once the
   sentinels are in.  Other variables given to the expansion make no difference.
   */
  lemma TemplateRoundTrip(content: string, pascal: string, package: string, order: seq<nat>, vars: map<string, string>)
    requires NoWords(content) && '\\' !in content && FeatureFits(pascal, content)
    requires forall name | name in ScaffoldVars(pascal, package) ::
      name in vars && vars[name] == ScaffoldVars(pascal, package)[name]
    ensures var text := InsertSentinels(content, Values(pascal, package));
      && Parameterize(content, pascal, package, order).Some?
      && (Expand(Parameterize(content, pascal, package, order).value, vars) == content <==> NothingToEscape(text))
  {
    var vals := Values(pascal, package);
    var toks, escaped := TemplateTokens(content, pascal, package, order);
    SameTokens(toks, escaped);
    if escaped == toks {
      ScaffoldBinds(pascal, package, vars);
      ExpandMeaning(toks, vals, vars);
    } else {
      RenderKeepsBackslash(escaped, 4);
      ExpandKeepsBackslash(Render(escaped, 4), vars);
    }
  }

  lemma {:induction false} RenderNoDollar(toks: seq<Token>)
    requires Raw('$') !in toks
    ensures '$' !in Render(toks, 0)
  {
    if toks != [] {
      RenderNoDollar(toks[1..]);
      if toks[0].Mark? {
        SentinelHasNoDollar(toks[0].k);
      }
    }
  }

  lemma PlainEscape(s: string)
    requires '$' !in s
    ensures EscapeDollars(s) == s
  {
    hide EscapeDollars;
    EscapeInserts(s);
    assert s + "" == s;
    InsertedSkips(s, "", EscapeDollars(s));
  }

  /** In particular, every file without dollar signs comes back. */
  lemma PlainFileRoundTrip(content: string, pascal: string, package: string, order: seq<nat>)
    requires NoWords(content) && '\\' !in content && '$' !in content && FeatureFits(pascal, content)
    ensures Parameterize(content, pascal, package, order).Some?
    ensures Expand(Parameterize(content, pascal, package, order).value, ScaffoldVars(pascal, package)) == content
  {
    var toks := SentinelStage(content, pascal, package);
    var text := Render(toks, 0);
    NoRawChar(toks, Values(pascal, package), '$');
    RenderNoDollar(toks);
    PlainEscape(text);
    EscapesNothing(text);
    TemplateRoundTrip(content, pascal, package, order, ScaffoldVars(pascal, package));
  }

  lemma DollarNames()
    ensures Values("Foo", "p") == ["p", "Foo", "foo", "foo"]
  {
    var s := "Foo";
    assert s[1..] == "oo" && s[1..][1..] == "o" && s[1..][1..][1..] == "";
    assert SplitBeforeWords("o") == "o" && SplitBeforeWords("oo") == "oo" && SplitBeforeWords(s) == s;
    assert SplitAfterLower("o") == "o" && SplitAfterLower("oo") == "oo" && SplitAfterLower(s) == s;
    assert LowerAll(s) == "foo" && PascalToCamel(s) == "foo";
  }

  lemma DollarLetters(k: nat)
    requires k < 4
    ensures (k < 3 ==> 'o' !in Sentinel(k)) && Word(k)[1] in Word(k) && Word(k)[1] !in "$x"
  {
    WordShape(k);
    assert Word(k)[1] == 'A' || Word(k)[1] == 'E' || Word(k)[1] == 'e';
    assert k < 3 ==> 'o' !in Word(k);
    hide Word;
  }

  lemma DollarFits()
    ensures NoWords("$x") && FeatureFits("Foo", "$x")
  {
    DollarNames();
    assert PascalToCamel("Foo") == Values("Foo", "p")[2] && PascalToSnake("Foo") == Values("Foo", "p")[3];
    hide Values, Sentinel, PascalToCamel, PascalToSnake, Occurs, Word, Core;
    forall k | 0 <= k < 4
      ensures !Occurs(Word(k), "$x") && (k < 3 ==> !Occurs("Foo", Sentinel(k)) && !Occurs("foo", Sentinel(k)))
    {
      DollarLetters(k);
      AbsentChar(Word(k), Word(k)[1], "$x");
      if k < 3 {
        AbsentChar("Foo", 'o', Sentinel(k));
        AbsentChar("foo", 'o', Sentinel(k));
      }
    }
  }

  /** For example the feature `Foo` in package `p`: the file `$x` does not come back, since its dollar sign is escaped. */
  lemma DollarExample(order: seq<nat>)
    ensures Parameterize("$x", "Foo", "p", order).Some?
    ensures Expand(Parameterize("$x", "Foo", "p", order).value, ScaffoldVars("Foo", "p")) != "$x"
  {
    DollarNames();
    DollarFits();
    NothingInserted();
    assert "$x"[0..] == "$x" && IdentMatch("$x") && "$x"[1..] == "x";
    assert ToEscape("$x"[0..]);
    hide NoWords, FeatureFits, Values, InsertSentinels, Parameterize, Expand, ScaffoldVars, BraceMatch, ToEscape;
    TemplateRoundTrip("$x", "Foo", "p", order, ScaffoldVars("Foo", "p"));
  }

  lemma NothingInserted()
    ensures InsertSentinels("$x", ["p", "Foo", "foo", "foo"]) == "$x"
  {
    hide Sentinel, Replace, Occurs;
    AbsentChar("p", 'p', "$x");
    AbsentChar("Foo", 'o', "$x");
    AbsentChar("foo", 'o', "$x");
    ReplaceAbsent("$x", "p", Sentinel(0));
    ReplaceAbsent("$x", "Foo", Sentinel(1));
    ReplaceAbsent("$x", "foo", Sentinel(2));
    ReplaceAbsent("$x", "foo", Sentinel(3));
  }

  // ----- files that hold the name of a variable

  lemma PlaceholderShape(k: nat)
    ensures |Placeholder(k)| > 3 && Placeholder(k)[|Placeholder(k)| - 1] == '}'
    ensures forall i | 0 <= i < |Placeholder(k)| - 1 :: Placeholder(k)[i] != '}' && Placeholder(k)[i] != '\\'
    ensures NoDouble(Placeholder(k))
  {
    WordShape(k);
    hide Word;
  }

  lemma PlaceholderMatches(k: nat)
    ensures Placeholder(k) == ['$'] + ("{" + Word(k) + "}")
    ensures '$' !in "{" + Word(k) + "}" && BraceMatch(Placeholder(k))
  {
    WordOfWords(k);
    WordShape(k);
    hide Word, WordRun;
    WordRunIs(Word(k), "}");
    assert Placeholder(k)[2..] == Word(k) + "}";
  }

  lemma NoSentinelIn(s: string, k: nat)
    requires NoDouble(s)
    ensures !Occurs(Sentinel(k), s)
  {
    forall i | 0 <= i <= |s| ensures !(Sentinel(k) <= s[i..]) {
      var t := s[i..];
      assert |t| >= 2 ==> t[0] == s[i] && t[1] == s[i + 1];
    }
  }

  /** An escaped placeholder is not unescaped for another variable. */
  lemma OtherPlaceholder(j: nat, k: nat)
    requires Placeholder(j) != Placeholder(k)
    ensures !Occurs("\\" + Placeholder(j), "\\" + Placeholder(k))
  {
    PlaceholderShape(j);
    PlaceholderShape(k);
    hide Placeholder;
    OtherEscaped(Placeholder(j), Placeholder(k));
  }

  lemma OtherEscaped(p: string, q: string)
    requires p != q && |p| > 0 && p[|p| - 1] == '}' && (forall i | 0 <= i < |q| - 1 :: q[i] != '}' && q[i] != '\\')
    requires q != "" && q[|q| - 1] == '}'
    ensures !Occurs("\\" + p, "\\" + q)
  {
    var s := "\\" + q;
    forall i | 0 <= i <= |s| ensures !("\\" + p <= s[i..]) {
      if i == 0 {
        assert s[0..] == s && s[1..] == q && ("\\" + p)[1..] == p;
        assert |p| <= |q| ==> q[..|p|] == s[1..|p| + 1];
        assert q[..|q|] == q;
        assert "\\" + p <= s ==> p <= q;
      } else {
        assert i < |s| ==> s[i..][0] == q[i - 1];
      }
    }
  }

  lemma {:induction false} UnescapeOne(k: nat, order: seq<nat>)
    requires k in order
    ensures UnescapeVars("\\" + Placeholder(k), order) == Placeholder(k)
  {
    var p, j := "\\" + Placeholder(k), order[0];
    if Placeholder(j) == Placeholder(k) {
      PlaceholderShape(k);
      assert p[|p|..] == "" && Replace(p, p, Placeholder(k)) == Placeholder(k) + "" == Placeholder(k);
      forall i: nat ensures !Occurs("\\" + Placeholder(i), Placeholder(k)) {
        AbsentChar("\\" + Placeholder(i), '\\', Placeholder(k));
      }
      UnescapeNothing(Placeholder(k), order[1..]);
    } else {
      OtherPlaceholder(j, k);
      ReplaceAbsent(p, "\\" + Placeholder(j), Placeholder(j));
      UnescapeOne(k, order[1..]);
    }
  }

  /**
   A file that is itself a placeholder of scaffolding is its own template: its dollar sign is escaped and unescaped again.
   So it does not come back, but is taken for the value.
   */
  lemma OwnPlaceholder(k: nat, pascal: string, package: string, order: seq<nat>)
    requires k < 4 && k in order && pascal != ""
    requires forall v | v in Values(pascal, package) :: v != "" ==> !Occurs(v, Placeholder(k))
    ensures Parameterize(Placeholder(k), pascal, package, order) == Some(Placeholder(k))
    ensures Expand(Placeholder(k), ScaffoldVars(pascal, package)) == Values(pascal, package)[k]
  {
    var s := Placeholder(k);
    ScaffoldBinds(pascal, package, ScaffoldVars(pascal, package));
    assert Expand("", ScaffoldVars(pascal, package)) == "" && s + "" == s;
    hide Values, Replace, UnescapeVars, Placeholder, ReplaceValue, EscapeDollars, InsertSentinels, Expand, ScaffoldVars, Word;
    NothingReplaced(s, Values(pascal, package));
    PlaceholderEscaped(k);
    NothingRestored(k);
    UnescapeOne(k, order);
    ExpandPlaceholder(k, "", ScaffoldVars(pascal, package));
    assert Values(pascal, package)[k] + "" == Values(pascal, package)[k];
  }

  lemma NothingRestored(k: nat)
    ensures RestoreSentinels("\\" + Placeholder(k)) == "\\" + Placeholder(k)
  {
    var s := "\\" + Placeholder(k);
    PlaceholderShape(k);
    assert NoDouble(s);
    hide Replace, Sentinel, Placeholder, NoDouble;
    forall j | 0 <= j < 4 ensures Replace(s, Sentinel(j), Placeholder(j)) == s {
      NoSentinelIn(s, j);
      ReplaceAbsent(s, Sentinel(j), Placeholder(j));
    }
  }

  lemma NothingReplaced(s: string, vals: seq<string>)
    requires |vals| == 4 && forall v | v in vals :: v != "" ==> !Occurs(v, s)
    ensures InsertSentinels(s, vals) == s
  {
    hide Replace, Occurs;
    forall k | 0 <= k < 4 ensures ReplaceValue(s, vals, k) == s {
      assert vals[k] in vals;
      if vals[k] != "" {
        ReplaceAbsent(s, vals[k], Sentinel(k));
      }
    }
  }

  lemma PlaceholderEscaped(k: nat)
    ensures EscapeDollars(Placeholder(k)) == "\\" + Placeholder(k)
  {
    var s, tail := Placeholder(k), "{" + Word(k) + "}";
    PlaceholderMatches(k);
    hide Word, BraceMatch, Placeholder, EscapeDollars;
    PlainEscape(tail);
    EscapeRule(tail);
    EscapeRule(s);
    assert s[1..] == tail;
  }

  // ----- which features are separable

  /** No double underscore, and none at the end. */
  predicate Tight(s: string) {
    NoDouble(s) && (s != "" ==> s[|s| - 1] != '_')
  }

  lemma {:induction false} TightBeforeWords(s: string)
    requires forall i | 0 <= i < |s| :: IsAlnum(s[i])
    ensures var r := SplitBeforeWords(s); Tight(r) && (s != "" ==> r != "" && r[0] == s[0])
    decreases |s|
  {
    if |s| >= 3 && s[0] != '\n' && IsUpper(s[1]) && IsLower(s[2]) {
      var end := 2 + LowerRun(s[2..]);
      TightBeforeWords(s[end..]);
      TightJoin([s[0]] + "_" + s[1..end], SplitBeforeWords(s[end..]));
    } else if s != "" {
      TightBeforeWords(s[1..]);
      TightJoin([s[0]], SplitBeforeWords(s[1..]));
    }
  }

  lemma TightJoin(a: string, b: string)
    requires NoDouble(a) && Tight(b) && (if b == "" then Tight(a) else b[0] != '_' || Tight(a))
    ensures Tight(a + b)
  {
    forall i | 0 <= i < |a + b| - 1 ensures !((a + b)[i] == '_' && (a + b)[i + 1] == '_') {
      if i >= |a| {
        assert (a + b)[i] == b[i - |a|] && (a + b)[i + 1] == b[i + 1 - |a|];
      }
    }
  }

  lemma {:induction false} TightAfterLower(s: string)
    requires Tight(s)
    ensures var r := SplitAfterLower(s); Tight(r) && (s != "" ==> r != "" && r[0] == s[0])
    decreases |s|
  {
    if |s| >= 2 && (IsLower(s[0]) || IsDigit(s[0])) && IsUpper(s[1]) {
      TightAfterLower(s[2..]);
      TightJoin([s[0]] + "_" + [s[1]], SplitAfterLower(s[2..]));
    } else if s != "" {
      TightAfterLower(s[1..]);
      if |s| > 1 {
        TightJoin([s[0]], SplitAfterLower(s[1..]));
      }
    }
  }

  /**
   For a feature name of letters and digits, the snake-case name has no double underscore and none
   at its ends; so the feature is separable, in every file, exactly if none of its names occurs in a sentinel of an
   earlier pass.
   */
  lemma AlnumFeature(pascal: string)
    requires pascal != "" && forall i | 0 <= i < |pascal| :: IsAlnum(pascal[i])
    ensures SeparableFeature(pascal) <==>
      && !Occurs(pascal, Sentinel(0))
      && (forall j | 0 <= j < 2 :: !Occurs(PascalToCamel(pascal), Sentinel(j)))
      && (forall j | 0 <= j < 3 :: !Occurs(PascalToSnake(pascal), Sentinel(j)))
    ensures SeparableFeature(pascal) ==> forall content :: FeatureFits(pascal, content)
  {
    hide Occurs, Sentinel, SplitAfterLower, SplitBeforeWords;
    var split := SplitAfterLower(SplitBeforeWords(pascal));
    TightBeforeWords(pascal);
    TightAfterLower(SplitBeforeWords(pascal));
    var snake, camel := PascalToSnake(pascal), PascalToCamel(pascal);
    assert |snake| == |split| && forall i | 0 <= i < |snake| :: snake[i] == '_' <==> split[i] == '_';
    assert forall i | 0 <= i < |camel| :: camel[i] == if i == 0 then ToLower(pascal[0]) else pascal[i];
  }
}
