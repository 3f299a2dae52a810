/**
 Parenthesis matching in both directions, and the return type of a Java method read off its
 signature (src/rg.rs, `balanced_paren_close`, `balanced_paren_open_backward`,
 `java_method_return_type`, `rtake_type_token`).
 */
module JavaSignature {
  import opened Text

  // ----- parentheses

  /** The `)` that closes a `(` just before position `i`, with `depth` parentheses open. */
  function CloseFrom(s: string, i: nat, depth: nat): (r: Option<nat>)
    requires i <= |s| && depth > 0
    ensures r.Some? ==> i <= r.value < |s|
    decreases |s| - i
  {
    if i == |s| then None
    else if s[i] == '(' then CloseFrom(s, i + 1, depth + 1)
    else if s[i] == ')' then (if depth == 1 then Some(i) else CloseFrom(s, i + 1, depth - 1))
    else CloseFrom(s, i + 1, depth)
  }

  function MatchingClose(s: string): Option<nat> {
    CloseFrom(s, 0, 1)
  }

  /** The `(` that opens a `)` just behind position `n`, with `depth` parentheses open. */
  function OpenBefore(s: string, n: nat, depth: nat): (r: Option<nat>)
    requires n <= |s| && depth > 0
    ensures r.Some? ==> r.value < n
    decreases n
  {
    if n == 0 then None
    else if s[n - 1] == ')' then OpenBefore(s, n - 1, depth + 1)
    else if s[n - 1] == '(' then (if depth == 1 then Some(n - 1) else OpenBefore(s, n - 1, depth - 1))
    else OpenBefore(s, n - 1, depth)
  }

  function MatchingOpen(s: string): Option<nat> {
    OpenBefore(s, |s|, 1)
  }

  method BalancedParenClose(s: string) returns (r: Option<nat>)
    ensures r == MatchingClose(s)
  {
    var depth := 1;
    for i := 0 to |s|
      invariant depth > 0 && MatchingClose(s) == CloseFrom(s, i, depth)
    {
      if s[i] == '(' {
        depth := depth + 1;
      } else if s[i] == ')' {
        depth := depth - 1;
        if depth == 0 {
          return Some(i);
        }
      }
    }
    return None;
  }

  method BalancedParenOpenBackward(s: string) returns (r: Option<nat>)
    ensures r == MatchingOpen(s)
  {
    var depth := 1;
    for i := |s| downto 0
      invariant depth > 0 && MatchingOpen(s) == OpenBefore(s, i, depth)
    {
      if s[i] == ')' {
        depth := depth + 1;
      } else if s[i] == '(' {
        depth := depth - 1;
        if depth == 0 {
          return Some(i);
        }
      }
    }
    return None;
  }

  // ----- what a match is

  /** Opening minus closing parentheses. */
  function Balance(s: string): int {
    if s == "" then 0
    else Balance(s[..|s| - 1]) + if s[|s| - 1] == '(' then 1 else if s[|s| - 1] == ')' then -1 else 0
  }

  /** A text in which every parenthesis has its partner. */
  ghost predicate Balanced(s: string) {
    Balance(s) == 0 && forall k | 0 <= k <= |s| :: Balance(s[..k]) >= 0
  }

  lemma {:induction false} BalanceSplit(a: string, b: string)
    ensures Balance(a + b) == Balance(a) + Balance(b)
  {
    if b == "" {
      assert a + b == a;
    } else {
      BalanceSplit(a, b[..|b| - 1]);
      assert (a + b)[..|a + b| - 1] == a + b[..|b| - 1];
    }
  }

  /** The forward scan at position `i`, in terms of the balance of what it has read. */
  lemma {:induction false} CloseMeaning(s: string, i: nat, j: nat)
    requires i <= j < |s| && forall k | 0 <= k <= i :: Balance(s[..k]) >= 0
    ensures CloseFrom(s, i, Balance(s[..i]) + 1) == Some(j) <==> s[j] == ')' && Balanced(s[..j])
    decreases |s| - i
  {
    assert s[..i + 1][..i] == s[..i];
    assert s[..j][..i] == s[..i] && (i < j ==> s[..j][..i + 1] == s[..i + 1]);
    if s[i] == ')' && Balance(s[..i]) == 0 {
      if i == j {
        forall k | 0 <= k <= |s[..j]| ensures Balance(s[..j][..k]) >= 0 {
          assert s[..j][..k] == s[..k];
        }
      }
    } else if i < j {
      CloseMeaning(s, i + 1, j);
    } else {
      assert s[..j][..j] == s[..j];
    }
  }

  /** The backward scan, in terms of the balance of what it has read from the end. */
  lemma {:induction false} OpenMeaning(s: string, n: nat, i: nat)
    requires i < n <= |s| && forall k | n <= k <= |s| :: Balance(s[k..]) <= 0
    ensures OpenBefore(s, n, 1 - Balance(s[n..])) == Some(i) <==> s[i] == '(' && Balanced(s[i + 1..])
    decreases n
  {
    assert s[n - 1..] == [s[n - 1]] + s[n..];
    BalanceSplit([s[n - 1]], s[n..]);
    assert [s[n - 1]][..0] == "";
    if s[n - 1] == '(' && Balance(s[n..]) == 0 {
      if i == n - 1 {
        SuffixesBalanced(s[n..]);
        forall k | 0 <= k <= |s[n..]| ensures Balance(s[n..][k..]) <= 0 {
          assert s[n..][k..] == s[n + k..];
        }
      } else {
        SuffixesBalanced(s[i + 1..]);
        assert s[i + 1..][n - 1 - (i + 1)..] == s[n - 1..];
      }
    } else if i < n - 1 {
      OpenMeaning(s, n - 1, i);
    }
  }

  /** Being balanced can be read from either end. */
  lemma SuffixesBalanced(s: string)
    ensures Balanced(s) <==> Balance(s) == 0 && forall k | 0 <= k <= |s| :: Balance(s[k..]) <= 0
  {
    forall k | 0 <= k <= |s| ensures Balance(s[..k]) + Balance(s[k..]) == Balance(s) {
      BalanceSplit(s[..k], s[k..]);
      assert s == s[..k] + s[k..];
    }
  }

  /**
   Matching is symmetric: on every text, the forward scan started behind the `(` at `i` ends at `j`
   exactly if the backward scan started before the `)` at `j` ends at `i`; both say that the text in
   between is balanced.
   */
  lemma MatchingIsSymmetric(s: string, i: nat, j: nat)
    requires i < j < |s| && s[i] == '(' && s[j] == ')'
    ensures MatchingClose(s[i + 1..]) == Some(j - i - 1) <==> MatchingOpen(s[..j]) == Some(i)
    ensures MatchingOpen(s[..j]) == Some(i) <==> Balanced(s[i + 1..j])
  {
    var after, before := s[i + 1..], s[..j];
    assert after[..0] == "" && before[j..] == "";
    CloseMeaning(after, 0, j - i - 1);
    OpenMeaning(before, j, i);
    assert after[..j - i - 1] == s[i + 1..j] == before[i + 1..];
  }

  // ----- the return type

  /** `rfind(c)` */
  function LastIndexOf(s: string, c: char): (r: Option<nat>)
    ensures match r
      case Some(i) => i < |s| && s[i] == c && forall k | i < k < |s| :: s[k] != c
      case None => forall k | 0 <= k < |s| :: s[k] != c
  {
    if s == "" then None else if s[|s| - 1] == c then Some(|s| - 1) else LastIndexOf(s[..|s| - 1], c)
  }

  /** `rfind(char::is_whitespace)` */
  function LastSpace(s: string): (r: Option<nat>)
    ensures match r
      case Some(i) => i < |s| && IsSpace(s[i]) && forall k | i < k < |s| :: !IsSpace(s[k])
      case None => forall k | 0 <= k < |s| :: !IsSpace(s[k])
  {
    if s == "" then None else if IsSpace(s[|s| - 1]) then Some(|s| - 1) else LastSpace(s[..|s| - 1])
  }

  /** Where the backward scan over `text[..n]` finds white space outside angle brackets. */
  function TokenStart(text: string, n: nat, depth: int): (r: nat)
    requires n <= |text|
    ensures r <= n
    decreases n
  {
    if n == 0 then 0
    else if text[n - 1] == '>' then TokenStart(text, n - 1, depth + 1)
    else if text[n - 1] == '<' then TokenStart(text, n - 1, depth - 1)
    else if depth == 0 && IsSpace(text[n - 1]) then n
    else TokenStart(text, n - 1, depth)
  }

  function TypeToken(text: string): string {
    Trim(text[TokenStart(text, |text|, 0)..])
  }

  /** `rtake_type_token` */
  method RtakeTypeToken(text: string) returns (token: string)
    ensures token == TypeToken(text)
  {
    var depth := 0;
    for i := |text| downto 0
      invariant TokenStart(text, |text|, 0) == TokenStart(text, i, depth)
    {
      if text[i] == '>' {
        depth := depth + 1;
      } else if text[i] == '<' {
        depth := depth - 1;
      } else if depth == 0 && IsSpace(text[i]) {
        return Trim(text[i + 1..]);
      }
    }
    return Trim(text);
  }

  /** What stands before the parameter list, which the last `)` ends. */
  function HeadOf(detail: string): Option<string> {
    var trimmed := TrimEnd(TrimSemicolons(TrimEnd(detail)));
    match LastIndexOf(trimmed, ')')
    case None => None
    case Some(close) =>
      match MatchingOpen(trimmed[..close])
      case None => None
      case Some(open) => Some(TrimEnd(trimmed[..open]))
  }

  /** `java_method_return_type` */
  function ReturnType(detail: string): Option<string> {
    match HeadOf(detail)
    case None => None
    case Some(head) =>
      match LastSpace(head)
      case None => None
      case Some(space) =>
        var beforeName := TrimEnd(head[..space + 1]);
        if beforeName == "" then None else Some(TypeToken(beforeName))
  }

  // ----- what the return type is

  /** Closing minus opening angle brackets. */
  function AngleDepth(s: string): int {
    if s == "" then 0 else AngleDepth(s[1..]) + if s[0] == '>' then 1 else if s[0] == '<' then -1 else 0
  }

  /** A type as it is written in Java: white space only inside its type arguments. */
  ghost predicate TypeText(t: string) {
    && t != "" && !IsSpace(t[0]) && !IsSpace(t[|t| - 1]) && AngleDepth(t) == 0
    && forall i | 0 <= i < |t| && IsSpace(t[i]) :: AngleDepth(t[i + 1..]) != 0
  }

  lemma {:induction false} ScanType(prefix: string, t: string, k: nat)
    requires k <= |t| && forall i | 0 <= i < |t| && IsSpace(t[i]) :: AngleDepth(t[i + 1..]) != 0
    ensures TokenStart(prefix + t, |prefix| + k, AngleDepth(t[k..])) == TokenStart(prefix + t, |prefix|, AngleDepth(t))
    decreases k
  {
    if k > 0 {
      assert t[k - 1..][1..] == t[k..] && t[k - 1..][0] == t[k - 1];
      assert (prefix + t)[|prefix| + k - 1] == t[k - 1];
      ScanType(prefix, t, k - 1);
    } else {
      assert t[0..] == t;
    }
  }

  /** The token at the end of a text is found whole, whatever stands before the white space in front of it. */
  lemma TypeTokenFound(prefix: string, t: string)
    requires TypeText(t) && (AllSpace(prefix) || IsSpace(prefix[|prefix| - 1]))
    ensures TypeToken(prefix + t) == t
  {
    hide AngleDepth;
    TokenBegins(prefix, t);
    assert (prefix + t)[|prefix|..] == t;
    TrimStartPadded("", t);
    TrimEndPadded(t, "");
    assert "" + t == t && t + "" == t;
  }

  lemma TokenBegins(prefix: string, t: string)
    requires TypeText(t) && (AllSpace(prefix) || IsSpace(prefix[|prefix| - 1]))
    ensures TokenStart(prefix + t, |prefix + t|, 0) == |prefix|
  {
    ScanType(prefix, t, |t|);
    assert t[|t|..] == "" && AngleDepth("") == 0;
    assert prefix != "" ==> (prefix + t)[|prefix| - 1] == prefix[|prefix| - 1] && IsSpace(prefix[|prefix| - 1]);
  }

  /** Trimming the end of a signature keeps everything up to its last parenthesis. */
  lemma TrimKeeps(front: string, tail: string)
    requires front != "" && front[|front| - 1] == ')' && ')' !in tail
    ensures var trimmed := TrimEnd(TrimSemicolons(TrimEnd(front + tail)));
      LastIndexOf(trimmed, ')') == Some(|front| - 1) && trimmed[..|front| - 1] == front[..|front| - 1]
  {
    var s := front + tail;
    assert s[|front| - 1] == ')';
    var a := TrimEnd(s);
    var b := TrimSemicolons(a);
    var c := TrimEnd(b);
    assert |a| >= |front| && |b| >= |front| && |c| >= |front|;
    assert c == s[..|c|];
    assert forall k | |front| <= k < |c| :: c[k] == tail[k - |front|];
  }

  lemma OpenFound(head: string, params: string)
    requires Balanced(params)
    ensures MatchingOpen(head + "(" + params) == Some(|head|)
  {
    var s := head + "(" + params;
    OpenMeaning(s, |s|, |head|);
    assert s[|s|..] == "" && s[|head| + 1..] == params;
  }

  lemma SpaceFound(a: string, name: string)
    requires a != "" && IsSpace(a[|a| - 1]) && forall i | 0 <= i < |name| :: !IsSpace(name[i])
    ensures LastSpace(a + name) == Some(|a| - 1)
  {
    var s := a + name;
    assert s[|a| - 1] == a[|a| - 1];
    assert forall k | |a| <= k < |s| :: s[k] == name[k - |a|];
  }

  lemma HeadFound(head: string, gap: string, params: string, tail: string)
    requires head != "" && !IsSpace(head[|head| - 1]) && AllSpace(gap) && Balanced(params) && ')' !in tail
    ensures HeadOf(head + gap + "(" + params + ")" + tail) == Some(head)
  {
    hide TypeToken, TrimEnd, LastIndexOf, MatchingOpen, Balance;
    var front := head + gap + "(" + params + ")";
    var open := |head + gap|;
    TrimKeeps(front, tail);
    assert front[..|front| - 1] == head + gap + "(" + params;
    OpenFound(head + gap, params);
    assert (head + gap + "(" + params)[..open] == head + gap;
    var trimmed := TrimEnd(TrimSemicolons(TrimEnd(front + tail)));
    assert trimmed[..open] == trimmed[..|front| - 1][..open];
    TrimEndPadded(head, gap);
  }

  /**
   A signature `prefix T name(params) tail` whose parameter text is balanced yields exactly the type
   `T`, whatever the prefix holds (modifiers, or annotations with their own argument lists) and
   whatever follows the parameters, as long as it has no `)`.
   */
  lemma ReturnTypeFound(prefix: string, t: string, gap: string, name: string, gap': string, params: string, tail: string)
    requires TypeText(t) && (AllSpace(prefix) || IsSpace(prefix[|prefix| - 1]))
    requires gap != "" && AllSpace(gap) && AllSpace(gap') && Balanced(params) && ')' !in tail
    requires name != "" && forall i | 0 <= i < |name| :: !IsSpace(name[i])
    ensures ReturnType(prefix + t + gap + name + gap' + "(" + params + ")" + tail) == Some(t)
  {
    hide TypeToken, TrimEnd, LastSpace, HeadOf, Balance;
    var before := prefix + t;
    var head := before + gap + name;
    assert head[|head| - 1] == name[|name| - 1];
    HeadFound(head, gap', params, tail);
    SpaceFound(before + gap, name);
    assert head[..|before + gap|] == before + gap;
    assert before[|before| - 1] == t[|t| - 1];
    TrimEndPadded(before, gap);
    TypeTokenFound(prefix, t);
  }

  /** A signature without a type before its name, as of a constructor, has no return type; nor has a text without `)`. */
  lemma NoReturnType(pad: string, name: string, gap: string, params: string, tail: string)
    requires AllSpace(pad) && AllSpace(gap) && Balanced(params) && ')' !in tail
    requires name != "" && forall i | 0 <= i < |name| :: !IsSpace(name[i])
    ensures ReturnType(pad + name + gap + "(" + params + ")" + tail) == None
    ensures ReturnType(tail) == None
  {
    hide TypeToken, LastSpace, Balance;
    assert ReturnType(tail) == None by {
      var trimmed := TrimEnd(TrimSemicolons(TrimEnd(tail)));
      assert trimmed <= tail;
      assert LastIndexOf(trimmed, ')') == None;
    }
    hide HeadOf, TrimEnd;
    var head := pad + name;
    assert head[|head| - 1] == name[|name| - 1];
    HeadFound(head, gap, params, tail);
    if pad == "" {
      assert head == name && LastSpace(name) == None;
    } else {
      SpaceFound(pad, name);
      assert head[..|pad|] == pad && "" + pad == pad;
      TrimEndPadded("", pad);
    }
  }
}
