/**
 The names of a feature (contrib/kotlin-cli.py, `_pascal_to_snake` and the camel-case form in
 `_parameterize`): two regular-expression passes put underscores into a Pascal-case name.  Together
 they follow one rule, which looks at a character and its neighbours only.
 */
module FeatureNames {
  import opened Text

  predicate IsAlnum(c: char) {
    IsUpper(c) || IsLower(c) || IsDigit(c)
  }

  /** How many of the characters at the start of `s` are lower-case letters. */
  function LowerRun(s: string): (n: nat)
    ensures n <= |s| && forall i | 0 <= i < n :: IsLower(s[i])
  {
    if s != "" && IsLower(s[0]) then 1 + LowerRun(s[1..]) else 0
  }

  /** `re.sub(r"(.)([A-Z][a-z]+)", r"\1_\2", s)` */
  function SplitBeforeWords(s: string): string
    decreases |s|
  {
    if |s| >= 3 && s[0] != '\n' && IsUpper(s[1]) && IsLower(s[2]) then
      var end := 2 + LowerRun(s[2..]);
      [s[0]] + "_" + s[1..end] + SplitBeforeWords(s[end..])
    else if s == "" then ""
    else [s[0]] + SplitBeforeWords(s[1..])
  }

  /** `re.sub(r"([a-z0-9])([A-Z])", r"\1_\2", s)` */
  function SplitAfterLower(s: string): string
    decreases |s|
  {
    if |s| >= 2 && (IsLower(s[0]) || IsDigit(s[0])) && IsUpper(s[1]) then
      [s[0]] + "_" + [s[1]] + SplitAfterLower(s[2..])
    else if s == "" then ""
    else [s[0]] + SplitAfterLower(s[1..])
  }

  function PascalToSnake(name: string): string {
    LowerAll(SplitAfterLower(SplitBeforeWords(name)))
  }

  function PascalToCamel(name: string): string
    requires name != ""
  {
    [ToLower(name[0])] + name[1..]
  }

  // ----- the rule for underscores

  /** `c` with its neighbours: an upper-case letter behind a lower-case one or a digit, or before a lower-case one. */
  predicate Boundary(prev: Option<char>, c: char, next: Option<char>) {
    && 'A' <= c <= 'Z' && prev.Some?
    && ('a' <= prev.value <= 'z' || '0' <= prev.value <= '9'
        || (prev.value != '\n' && next.Some? && 'a' <= next.value <= 'z'))
  }

  function CharAt(s: string, i: int): Option<char> {
    if 0 <= i < |s| then Some(s[i]) else None
  }

  function Lowered(c: char): char {
    if 'A' <= c <= 'Z' then "abcdefghijklmnopqrstuvwxyz"[c as int - 'A' as int] else c
  }

  /** What becomes of character `i` of a name. */
  function SnakePiece(name: string, i: nat): string
    requires i < |name|
  {
    (if Boundary(CharAt(name, i - 1), name[i], CharAt(name, i + 1)) then "_" else "") + [Lowered(name[i])]
  }

  function Underscored(b: bool, s: string): string {
    if b then ['_'] + s else s
  }

  /** The name with underscores by the rule, behind the character `prev`. */
  function Ruled(prev: Option<char>, s: string): string
    decreases |s|
  {
    if s == "" then ""
    else Underscored(Boundary(prev, s[0], CharAt(s, 1)), [s[0]] + Ruled(Some(s[0]), s[1..]))
  }

  /** The second pass puts an underscore behind `prev`. */
  predicate Splits(prev: Option<char>, c: char) {
    prev.Some? && (IsLower(prev.value) || IsDigit(prev.value)) && IsUpper(c)
  }

  /** The second pass, behind the character `prev`. */
  function AfterLower(prev: Option<char>, s: string): string
    decreases |s|
  {
    if s == "" then "" else Underscored(Splits(prev, s[0]), [s[0]] + AfterLower(Some(s[0]), s[1..]))
  }

  lemma Step(prev: Option<char>, c: char, s: string)
    ensures AfterLower(prev, [c] + s) == Underscored(Splits(prev, c), [c] + AfterLower(Some(c), s))
    ensures Ruled(prev, [c] + s) == Underscored(Boundary(prev, c, CharAt(s, 0)), [c] + Ruled(Some(c), s))
  {
    assert ([c] + s)[1..] == s;
  }

  lemma {:induction false} SecondPass(s: string)
    ensures SplitAfterLower(s) == AfterLower(None, s)
    decreases |s|
  {
    if |s| >= 2 {
      assert s[1..][1..] == s[2..];
      if (IsLower(s[0]) || IsDigit(s[0])) && IsUpper(s[1]) {
        SecondPass(s[2..]);
        assert AfterLower(Some(s[1]), s[2..]) == AfterLower(None, s[2..]);
      } else {
        SecondPass(s[1..]);
        assert AfterLower(Some(s[0]), s[1..]) == AfterLower(None, s[1..]);
      }
    }
  }

  function LastOf(prev: Option<char>, w: string): Option<char> {
    if w == "" then prev else Some(w[|w| - 1])
  }

  /** Lower-case letters pass both ways unchanged. */
  lemma {:induction false} LowerLetters(prev: Option<char>, w: string, rest: string)
    requires forall i | 0 <= i < |w| :: IsLower(w[i])
    ensures AfterLower(prev, w + rest) == w + AfterLower(LastOf(prev, w), rest)
    ensures Ruled(prev, w + rest) == w + Ruled(LastOf(prev, w), rest)
    decreases |w|
  {
    if w == "" {
      assert w + rest == rest;
    } else {
      assert IsLower(w[0]);
      hide AfterLower, Ruled;
      LowerLetters(Some(w[0]), w[1..], rest);
      assert w == [w[0]] + w[1..];
      Regroup([w[0]], w[1..], rest);
      Step(prev, w[0], w[1..] + rest);
      Regroup([w[0]], w[1..], AfterLower(LastOf(prev, w), rest));
      Regroup([w[0]], w[1..], Ruled(LastOf(prev, w), rest));
    }
  }

  /** The first pass has just gone past `prev`, so it does not put an underscore behind it any more. */
  predicate Past(prev: Option<char>, s: string) {
    prev.Some? && !IsLower(prev.value) && prev.value != '\n' && |s| >= 2 && IsUpper(s[0]) ==> !IsLower(s[1])
  }

  lemma {:induction false} BothPasses(prev: Option<char>, s: string)
    requires Past(prev, s)
    ensures AfterLower(prev, SplitBeforeWords(s)) == Ruled(prev, s)
    decreases |s|
  {
    if |s| >= 3 && s[0] != '\n' && IsUpper(s[1]) && IsLower(s[2]) {
      var end := 2 + LowerRun(s[2..]);
      BothPasses(Some(s[end - 1]), s[end..]);
      WordPasses(prev, s, end, SplitBeforeWords(s[end..]));
    } else if s != "" {
      BothPasses(Some(s[0]), s[1..]);
      var rest := SplitBeforeWords(s[1..]);
      assert ([s[0]] + rest)[1..] == rest;
    }
  }

  /** The first pass has put an underscore before the word `[d] + w`. */
  lemma WordAfter(prev: Option<char>, c: char, d: char, w: string, rest: string)
    requires IsUpper(d) && w != "" && forall i | 0 <= i < |w| :: IsLower(w[i])
    ensures AfterLower(prev, [c] + (['_'] + ([d] + (w + rest))))
         == Underscored(Splits(prev, c), [c] + (['_'] + ([d] + (w + AfterLower(Some(w[|w| - 1]), rest)))))
  {
    hide AfterLower;
    LowerLetters(Some(d), w, rest);
    Step(prev, c, ['_'] + ([d] + (w + rest)));
    Step(Some(c), '_', [d] + (w + rest));
    Step(Some('_'), d, w + rest);
  }

  /** The rule puts one there as well. */
  lemma WordRuled(prev: Option<char>, c: char, d: char, w: string, rest: string)
    requires c != '\n' && IsUpper(d) && w != "" && forall i | 0 <= i < |w| :: IsLower(w[i])
    ensures Ruled(prev, [c] + ([d] + (w + rest)))
         == Underscored(Boundary(prev, c, Some(d)), [c] + (['_'] + ([d] + (w + Ruled(Some(w[|w| - 1]), rest)))))
  {
    hide Ruled;
    LowerLetters(Some(d), w, rest);
    Step(prev, c, [d] + (w + rest));
    Step(Some(c), d, w + rest);
    assert CharAt(w + rest, 0) == Some(w[0]) && Boundary(Some(c), d, Some(w[0]));
  }

  lemma WordPasses(prev: Option<char>, s: string, end: nat, rest: string)
    requires 3 <= end <= |s| && s[0] != '\n' && IsUpper(s[1]) && (forall i | 2 <= i < end :: IsLower(s[i]))
    requires AfterLower(Some(s[end - 1]), rest) == Ruled(Some(s[end - 1]), s[end..])
    ensures AfterLower(prev, [s[0]] + "_" + s[1..end] + rest) == Ruled(prev, s)
  {
    var c, d, w := s[0], s[1], s[2..end];
    assert s[1..end] == [d] + w && w[|w| - 1] == s[end - 1];
    assert w + s[end..] == s[2..];
    assert s == [c] + ([d] + s[2..]);
    assert Splits(prev, c) <==> Boundary(prev, c, Some(d));
    WordAfter(prev, c, d, w, rest);
    WordRuled(prev, c, d, w, s[end..]);
    hide *;
    Apart(c, d, w, rest);
  }

  lemma Apart(c: char, d: char, w: string, rest: string)
    ensures [c] + "_" + ([d] + w) + rest == [c] + (['_'] + ([d] + (w + rest)))
  {
  }

  // ----- the main results

  lemma LowerJoined(a: string, b: string)
    ensures LowerAll(a + b) == LowerAll(a) + LowerAll(b)
  {
  }

  lemma LowerOne(c: char)
    ensures LowerAll([c]) == [Lowered(c)] && LowerAll("_") == "_" && LowerAll("") == ""
  {
  }

  /** What becomes of each character of a name. */
  function SnakePieces(name: string): seq<string> {
    seq(|name|, i requires 0 <= i < |name| => SnakePiece(name, i))
  }

  lemma {:induction false} PiecesFrom(name: string, i: nat)
    requires i <= |name|
    ensures LowerAll(Ruled(CharAt(name, i - 1), name[i..])) == Concat(SnakePieces(name)[i..])
    decreases |name| - i
  {
    if i < |name| {
      PiecesFrom(name, i + 1);
      assert name[i..] == [name[i]] + name[i + 1..] && CharAt(name[i + 1..], 0) == CharAt(name, i + 1);
      assert SnakePieces(name)[i..] == [SnakePiece(name, i)] + SnakePieces(name)[i + 1..];
      Step(CharAt(name, i - 1), name[i], name[i + 1..]);
      var rest := Ruled(Some(name[i]), name[i + 1..]);
      hide Ruled, Boundary, LowerAll, Lowered, SnakePieces;
      LowerOne(name[i]);
      LowerJoined([name[i]], rest);
      LowerJoined(['_'], [name[i]] + rest);
      Regroup(['_'], [Lowered(name[i])], LowerAll(rest));
    }
  }

  /**
   The snake-case name, for every name: each character in lower case, with an underscore before it exactly if it is an
   upper-case letter behind a lower-case letter or a digit, or between any character on its line and a lower-case letter.
   */
  lemma SnakeRule(name: string)
    ensures PascalToSnake(name) == Concat(SnakePieces(name))
  {
    BothPasses(None, name);
    SecondPass(SplitBeforeWords(name));
    PiecesFrom(name, 0);
    assert name[0..] == name && SnakePieces(name)[0..] == SnakePieces(name);
  }

  /** An upper-case letter and at least one lower-case letter. */
  predicate IsWordOfName(w: string) {
    |w| >= 2 && 'A' <= w[0] <= 'Z' && forall i | 1 <= i < |w| :: 'a' <= w[i] <= 'z'
  }

  function LowerWord(w: string): string
    requires IsWordOfName(w)
  {
    [Lowered(w[0])] + w[1..]
  }

  /** The words in lower case, with underscores between them. */
  function SnakeWords(words: seq<string>): string
    requires forall w | w in words :: IsWordOfName(w)
  {
    if words == [] then ""
    else if |words| == 1 then LowerWord(words[0])
    else LowerWord(words[0]) + ("_" + SnakeWords(words[1..]))
  }

  lemma LowerOfWord(w: string)
    requires IsWordOfName(w)
    ensures LowerAll(w) == LowerWord(w)
  {
  }

  lemma {:induction false} WordsRuled(prev: Option<char>, words: seq<string>)
    requires forall w | w in words :: IsWordOfName(w)
    requires prev.Some? ==> 'a' <= prev.value <= 'z'
    ensures LowerAll(Ruled(prev, Concat(words))) == Underscored(prev.Some? && words != [], SnakeWords(words))
    decreases |words|
  {
    if words != [] {
      var w, rest := words[0], Concat(words[1..]);
      assert w in words && w == [w[0]] + w[1..];
      WordsRuled(Some(w[|w| - 1]), words[1..]);
      Regroup([w[0]], w[1..], rest);
      assert CharAt(w[1..] + rest, 0) == Some(w[1]);
      Step(prev, w[0], w[1..] + rest);
      LowerLetters(Some(w[0]), w[1..], rest);
      assert Boundary(prev, w[0], Some(w[1])) <==> prev.Some?;
      hide Ruled, Boundary, LowerAll;
      Regroup([w[0]], w[1..], Ruled(Some(w[|w| - 1]), rest));
      LowerJoined(w, Ruled(Some(w[|w| - 1]), rest));
      LowerJoined(['_'], w + Ruled(Some(w[|w| - 1]), rest));
      LowerOne('_');
      LowerOfWord(w);
    }
  }

  /**
   A name made of words, in Pascal case, becomes those words in lower case with underscores between them; in camel case
   only the first word is in lower case.
   */
  lemma WordsOfName(words: seq<string>)
    requires words != [] && forall w | w in words :: IsWordOfName(w)
    ensures PascalToSnake(Concat(words)) == SnakeWords(words)
    ensures IsWordOfName(words[0]) && Concat(words) != ""
    ensures PascalToCamel(Concat(words)) == LowerWord(words[0]) + Concat(words[1..])
  {
    var w, rest := words[0], Concat(words[1..]);
    assert w in words && Concat(words) == w + rest;
    assert PascalToSnake(w + rest) == LowerAll(SplitAfterLower(SplitBeforeWords(w + rest))) && Past(None, w + rest);
    assert Underscored(false, SnakeWords(words)) == SnakeWords(words);
    hide *;
    BothPasses(None, w + rest);
    SecondPass(SplitBeforeWords(w + rest));
    WordsRuled(None, words);
    CamelOfWord(w, rest);
  }

  lemma CamelOfWord(w: string, rest: string)
    requires IsWordOfName(w)
    ensures w + rest != "" && PascalToCamel(w + rest) == LowerWord(w) + rest
  {
    assert (w + rest)[1..] == w[1..] + rest;
    Regroup([Lowered(w[0])], w[1..], rest);
  }
}
