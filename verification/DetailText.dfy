/**
 Reading a declaration's signature text (src/detail_text.rs): the declared return type behind the
 parameter list, whether it admits null, and the element type of a collection type.
 */
module DetailText {
  import opened Text

  // ----- names

  predicate IsIdChar(c: char) {
    IsUpper(c) || IsLower(c) || IsDigit(c) || c == '_'
  }

  function IdentPrefix(s: string): string {
    if s != "" && IsIdChar(s[0]) then [s[0]] + IdentPrefix(s[1..]) else ""
  }

  function DottedIdentPrefix(s: string): string {
    if s != "" && (IsIdChar(s[0]) || s[0] == '.') then [s[0]] + DottedIdentPrefix(s[1..]) else ""
  }

  predicate StartsWithUppercase(s: string) {
    s != "" && IsUpper(s[0])
  }

  predicate StartsWith(s: string, c: char) {
    s != "" && s[0] == c
  }

  // ----- types

  /** The characters that end a type outside angle brackets. */
  predicate IsStop(c: char) {
    c in {'?', ' ', '=', ',', ')', '\n'}
  }

  /** Where the scan for a type ends, with `depth` angle brackets open at position `i`. */
  function TypeEnd(s: string, i: nat, depth: nat): (n: nat)
    requires i <= |s|
    ensures i <= n <= |s|
    decreases |s| - i
  {
    if i == |s| then i
    else if s[i] == '<' then TypeEnd(s, i + 1, depth + 1)
    else if s[i] == '>' then (if depth > 1 then TypeEnd(s, i + 1, depth - 1) else if depth == 1 then i + 1 else i)
    else if depth == 0 && IsStop(s[i]) then i
    else TypeEnd(s, i + 1, depth)
  }

  function ExtractType(s: string): string {
    s[..TypeEnd(s, 0, 0)]
  }

  /** `extract_type_with_generics` */
  method ExtractTypeWithGenerics(s: string) returns (result: string)
    ensures result == ExtractType(s)
  {
    result := "";
    var depth := 0;
    for i := 0 to |s|
      invariant depth >= 0 && result == s[..i] && TypeEnd(s, 0, 0) == TypeEnd(s, i, depth)
    {
      var c := s[i];
      if c == '<' {
        depth := depth + 1;
        result := result + [c];
      } else if c == '>' {
        if depth > 0 {
          depth := depth - 1;
          result := result + [c];
          if depth == 0 {
            break;
          }
        } else {
          break;
        }
      } else if depth == 0 && IsStop(c) {
        break;
      } else {
        result := result + [c];
      }
    }
  }

  // ----- the declared return type

  datatype DeclaredReturn = DeclaredReturn(typeName: string, nullable: bool)

  datatype Nullability = NonNull | Nullable | Unknown

  const ELLIPSIS := '\U{2026}'

  function LastParen(s: string): (r: Option<nat>)
    ensures match r
      case Some(i) => i < |s| && s[i] == ')' && forall k | i < k < |s| :: s[k] != ')'
      case None => forall k | 0 <= k < |s| :: s[k] != ')'
  {
    if s == "" then None else if s[|s| - 1] == ')' then Some(|s| - 1) else LastParen(s[..|s| - 1])
  }

  /** The text behind the colon, if a `)` at position `i` is followed by one. */
  function AfterColon(detail: string, i: nat): Option<string>
    requires i < |detail|
  {
    var after := TrimStart(detail[i + 1..]);
    if detail[i] == ')' && StartsWith(after, ':') then Some(TrimStart(after[1..])) else None
  }

  /** The return type declared behind position `i`, if there is one. */
  function ReturnAt(detail: string, i: nat): Option<DeclaredReturn>
    requires i < |detail|
  {
    match AfterColon(detail, i)
    case None => None
    case Some(part) =>
      var typeName := ExtractType(part);
      var path := DottedIdentPrefix(typeName);
      if path != "" && StartsWithUppercase(LastSegment(path))
      then Some(DeclaredReturn(typeName, StartsWith(part[|typeName|..], '?')))
      else None
  }

  /** The declared return type behind the last `)` in `detail[..n]` that has one. */
  function ReturnBefore(detail: string, n: nat): Option<DeclaredReturn>
    requires n <= |detail|
    decreases n
  {
    match LastParen(detail[..n])
    case None => None
    case Some(i) => if ReturnAt(detail, i).Some? then ReturnAt(detail, i) else ReturnBefore(detail, i)
  }

  function DeclaredIn(detail: string): Option<DeclaredReturn> {
    if ELLIPSIS in detail then None else ReturnBefore(detail, |detail|)
  }

  /** `declared_return_in_detail`: the loop searches backward and terminates. */
  method DeclaredReturnInDetail(detail: string) returns (r: Option<DeclaredReturn>)
    ensures r == DeclaredIn(detail)
  {
    if ELLIPSIS in detail {
      return None;
    }
    hide *;
    var searchFrom: nat := |detail|;
    while true
      invariant searchFrom <= |detail| && ReturnBefore(detail, |detail|) == ReturnBefore(detail, searchFrom)
      decreases searchFrom
    {
      var close := LastParen(detail[..searchFrom]);
      if close.None? {
        return None;
      }
      var after := TrimStart(detail[close.value + 1..]);
      if StartsWith(after, ':') {
        var typePart := TrimStart(after[1..]);
        var typeName := ExtractTypeWithGenerics(typePart);
        var typePath := DottedIdentPrefix(typeName);
        if typePath != "" && StartsWithUppercase(LastSegment(typePath)) {
          return Some(DeclaredReturn(typeName, StartsWith(typePart[|typeName|..], '?')));
        }
      }
      searchFrom := close.value;
    }
  }

  /** `extract_return_type_from_detail` */
  function ReturnType(detail: string): Option<string> {
    match DeclaredIn(detail)
    case None => None
    case Some(d) => Some(d.typeName)
  }

  /** `extract_return_nullability_from_detail` */
  function ReturnNullability(detail: string): Nullability {
    match DeclaredIn(detail)
    case None => Unknown
    case Some(d) => if d.nullable then Nullable else NonNull
  }

  // ----- what the search finds

  /** The search answers with the last position at which a return type is declared. */
  lemma {:induction false} LastDeclarationWins(detail: string, n: nat)
    requires n <= |detail|
    ensures match ReturnBefore(detail, n)
      case Some(d) =>
        exists i | 0 <= i < n :: ReturnAt(detail, i) == Some(d) && forall k | i < k < n :: ReturnAt(detail, k) == None
      case None => forall i | 0 <= i < n :: ReturnAt(detail, i) == None
    decreases n
  {
    hide ReturnAt;
    var close := LastParen(detail[..n]);
    var i := if close.None? then -1 else close.value;
    forall k | i < k < n ensures ReturnAt(detail, k) == None {
      assert detail[..n][k] == detail[k];
      NoParenNoReturn(detail, k);
    }
    if close.Some? {
      LastDeclarationWins(detail, close.value);
    }
  }

  lemma NoParenNoReturn(detail: string, i: nat)
    requires i < |detail| && detail[i] != ')'
    ensures ReturnAt(detail, i) == None
  {
  }

  /** Letters, digits, underscores and dots. */
  predicate IsPath(path: string) {
    forall i | 0 <= i < |path| ::
      'a' <= path[i] <= 'z' || 'A' <= path[i] <= 'Z' || '0' <= path[i] <= '9' || path[i] == '_' || path[i] == '.'
  }

  /** A type as it is written: a dotted name, with or without type arguments. */
  ghost predicate IsType(t: string, path: string, args: string) {
    && path != "" && IsPath(path)
    && StartsWithUppercase(LastSegment(path))
    && t == path + args && (args == "" || Bracketed(args))
  }

  /** `<...>` in which the first bracket is closed by the last one; no arrows. */
  ghost predicate Bracketed(args: string) {
    |args| >= 2 && args[0] == '<' && CloseBracket(args, 1, 1) == Some(|args| - 1)
  }

  /** The `>` that closes the brackets open at position `i`. */
  function CloseBracket(s: string, i: nat, depth: nat): Option<nat>
    requires i <= |s| && depth > 0
    decreases |s| - i
  {
    if i == |s| then None
    else if s[i] == '<' then CloseBracket(s, i + 1, depth + 1)
    else if s[i] == '>' then (if depth == 1 then Some(i) else CloseBracket(s, i + 1, depth - 1))
    else CloseBracket(s, i + 1, depth)
  }

  lemma {:induction false} ScanPath(path: string, rest: string, i: nat)
    requires i <= |path| && IsPath(path)
    ensures TypeEnd(path + rest, i, 0) == TypeEnd(path + rest, |path|, 0)
    decreases |path| - i
  {
    if i < |path| {
      assert (path + rest)[i] == path[i];
      ScanPath(path, rest, i + 1);
    }
  }

  lemma {:induction false} ScanArgs(path: string, args: string, rest: string, i: nat, depth: nat)
    requires i <= |args| && depth > 0 && CloseBracket(args, i, depth) == Some(|args| - 1)
    ensures TypeEnd(path + args + rest, |path| + i, depth) == |path + args|
    decreases |args| - i
  {
    if i < |args| {
      assert (path + args + rest)[|path| + i] == args[i];
      if args[i] == '<' {
        ScanArgs(path, args, rest, i + 1, depth + 1);
      } else if args[i] != '>' {
        ScanArgs(path, args, rest, i + 1, depth);
      } else if depth > 1 {
        ScanArgs(path, args, rest, i + 1, depth - 1);
      }
    }
  }

  /** A written type is extracted whole; without type arguments it must be followed by a stop character. */
  lemma ExtractWritten(path: string, args: string, rest: string)
    requires IsPath(path) && (args == "" || Bracketed(args)) && (args == "" ==> rest == "" || rest[0] in "? =,)\n")
    ensures ExtractType(path + args + rest) == path + args
  {
    var s := path + args + rest;
    assert s == path + (args + rest);
    ScanPath(path, args + rest, 0);
    if args == "" {
      assert rest != "" ==> s[|path|] == rest[0];
    } else {
      assert s[|path|] == args[0];
      ScanArgs(path, args, rest, 1, 1);
    }
  }

  lemma {:induction false} DottedPrefixIs(path: string, args: string)
    requires IsPath(path) && (args == "" || args[0] == '<')
    ensures DottedIdentPrefix(path + args) == path
  {
    if path == "" {
      assert path + args == args;
    } else {
      DottedPrefixIs(path[1..], args);
      assert (path + args)[1..] == path[1..] + args;
    }
  }

  /**
   The signature round trip: whatever the text in front of the parameter list's `)` holds, a return
   type written behind it is recovered together with its nullability, as long as no later `)` is
   followed by a colon and the text is not truncated.
   */
  lemma SignatureRoundTrip(front: string, gap: string, gap': string, path: string, args: string, rest: string)
    requires IsType(path + args, path, args) && (args == "" ==> rest == "" || rest[0] in "? =,)\n")
    requires AllSpace(gap) && AllSpace(gap')
    requires ELLIPSIS !in front + ")" + gap + ":" + gap' + (path + args + rest)
    requires forall i | 0 <= i < |path + args + rest| :: AfterColon(path + args + rest, i) == None
    ensures var detail := front + ")" + gap + ":" + gap' + (path + args + rest);
      && ReturnType(detail) == Some(path + args)
      && ReturnNullability(detail) == if StartsWith(rest, '?') then Nullable else NonNull
  {
    var tail := path + args + rest;
    var detail := front + ")" + gap + ":" + gap' + tail;
    ReturnAtParen(front, gap, gap', path, args, rest);
    LaterParens(front, gap, gap', tail);
    LastDeclarationWins(detail, |detail|);
  }

  lemma ReturnAtParen(front: string, gap: string, gap': string, path: string, args: string, rest: string)
    requires IsType(path + args, path, args) && (args == "" ==> rest == "" || rest[0] in "? =,)\n")
    requires AllSpace(gap) && AllSpace(gap')
    ensures ReturnAt(front + ")" + gap + ":" + gap' + (path + args + rest), |front|)
         == Some(DeclaredReturn(path + args, StartsWith(rest, '?')))
  {
    hide TypeEnd, DottedIdentPrefix, AfterColon, LastSegment, ExtractType;
    var tail := path + args + rest;
    assert tail[0] == path[0];
    ColonFound(front, gap, gap', tail);
    ExtractWritten(path, args, rest);
    DottedPrefixIs(path, args);
    assert tail[|path + args|..] == rest;
  }

  lemma ColonFound(front: string, gap: string, gap': string, tail: string)
    requires AllSpace(gap) && AllSpace(gap') && tail != "" && !IsSpace(tail[0])
    ensures AfterColon(front + ")" + gap + ":" + gap' + tail, |front|) == Some(tail)
  {
    hide TrimStart;
    var detail := front + ")" + gap + ":" + gap' + tail;
    assert detail[|front| + 1..] == gap + (":" + gap' + tail);
    TrimStartPadded(gap, ":" + gap' + tail);
    assert (":" + gap' + tail)[1..] == gap' + tail;
    TrimStartPadded(gap', tail);
  }

  /** A type that does not end in a class name, such as a type variable in lower case, is not taken. */
  lemma NoClassName(front: string, gap: string, gap': string, path: string, args: string, rest: string)
    requires IsPath(path) && (args == "" || Bracketed(args)) && (args == "" ==> rest == "" || rest[0] in "? =,)\n")
    requires path == "" || !StartsWithUppercase(LastSegment(path))
    requires AllSpace(gap) && AllSpace(gap') && path + args + rest != "" && !IsSpace((path + args + rest)[0])
    ensures ReturnAt(front + ")" + gap + ":" + gap' + (path + args + rest), |front|) == None
  {
    hide TypeEnd, DottedIdentPrefix, AfterColon, LastSegment, ExtractType;
    ColonFound(front, gap, gap', path + args + rest);
    ExtractWritten(path, args, rest);
    DottedPrefixIs(path, args);
  }

  /** A text that was cut off, and one without a class name behind a `)` and a colon, declares nothing. */
  lemma NothingDeclared(detail: string)
    requires ELLIPSIS in detail || forall i | 0 <= i < |detail| :: ReturnAt(detail, i) == None
    ensures ReturnType(detail) == None && ReturnNullability(detail) == Unknown
  {
    hide ReturnAt;
    LastDeclarationWins(detail, |detail|);
  }

  lemma LaterParens(front: string, gap: string, gap': string, tail: string)
    requires AllSpace(gap) && AllSpace(gap')
    requires forall i | 0 <= i < |tail| :: AfterColon(tail, i) == None
    ensures var detail := front + ")" + gap + ":" + gap' + tail;
      forall k | |front| < k < |detail| :: ReturnAt(detail, k) == None
  {
    var head := front + ")" + gap + ":" + gap';
    var detail := head + tail;
    forall k | |front| < k < |detail| ensures ReturnAt(detail, k) == None {
      if k < |head| {
        var j := k - |front| - 1;
        assert detail[k] == (gap + ":" + gap')[j];
        assert detail[k] != ')';
      } else {
        assert detail[k] == tail[k - |head|] && detail[k + 1..] == tail[k - |head| + 1..];
        assert AfterColon(detail, k) == AfterColon(tail, k - |head|);
      }
    }
  }

  // ----- the element type of a collection

  const LIST_TYPES := {
    "List", "MutableList", "ArrayList", "ImmutableList", "PersistentList", "Sequence", "Array", "Iterable", "MutableIterable"
  }

  const SET_TYPES := {
    "Set", "MutableSet", "HashSet", "LinkedHashSet", "ImmutableSet", "PersistentSet",
    "Collection", "MutableCollection", "ImmutableCollection", "PersistentCollection"
  }

  const STREAM_TYPES := {"Flow", "StateFlow", "SharedFlow", "Channel", "SendChannel", "ReceiveChannel"}

  const COLLECTION_TYPES := LIST_TYPES + SET_TYPES + STREAM_TYPES

  /** The first comma outside angle brackets, or the end. */
  function FirstArgEnd(s: string, i: nat, depth: int): (n: nat)
    requires i <= |s|
    ensures i <= n <= |s|
    decreases |s| - i
  {
    if i == |s| || (s[i] == ',' && depth == 0) then i
    else FirstArgEnd(s, i + 1, if s[i] == '<' then depth + 1 else if s[i] == '>' then depth - 1 else depth)
  }

  /** `first_type_arg` */
  method FirstTypeArg(s: string) returns (arg: string)
    ensures arg == s[..FirstArgEnd(s, 0, 0)]
  {
    var depth, end := 0, |s|;
    for i := 0 to |s|
      invariant end == |s| && FirstArgEnd(s, 0, 0) == FirstArgEnd(s, i, depth)
    {
      if s[i] == '<' {
        depth := depth + 1;
      } else if s[i] == '>' {
        depth := depth - 1;
      } else if s[i] == ',' && depth == 0 {
        end := i;
        break;
      }
    }
    arg := s[..end];
  }

  /** `find(c)` and `rfind(c)` */
  function Find(s: string, c: char, i: nat): (r: Option<nat>)
    requires i <= |s|
    ensures r.Some? ==> i <= r.value < |s|
    decreases |s| - i
  {
    if i == |s| then None else if s[i] == c then Some(i) else Find(s, c, i + 1)
  }

  function FindLast(s: string, c: char, n: nat): (r: Option<nat>)
    requires n <= |s|
    ensures r.Some? ==> r.value < n
  {
    if n == 0 then None else if s[n - 1] == c then Some(n - 1) else FindLast(s, c, n - 1)
  }

  /** `trim_matches('?')`, and `trim_end_matches('.')` */
  function TrimQuestion(s: string): string
    decreases |s|
  {
    if StartsWith(s, '?') then TrimQuestion(s[1..])
    else if s != "" && s[|s| - 1] == '?' then TrimQuestion(s[..|s| - 1])
    else s
  }

  function TrimDots(s: string): (r: string)
    ensures r <= s
  {
    if s != "" && s[|s| - 1] == '.' then TrimDots(s[..|s| - 1]) else s
  }

  function FirstSegment(s: string): string {
    if s == "" || s[0] == '.' then "" else [s[0]] + FirstSegment(s[1..])
  }

  /** The type argument without surrounding space and null marks, unless it does not start with a class name. */
  function ElementOf(arg: string): Option<string> {
    var first := TrimQuestion(Trim(arg));
    var prefix := TrimDots(DottedIdentPrefix(first));
    if prefix == "" || !StartsWithUppercase(FirstSegment(prefix)) then None else Some(first)
  }

  /** `extract_collection_element_type` */
  function ElementType(raw: string): Option<string> {
    if IdentPrefix(raw) !in COLLECTION_TYPES then None
    else
      match (Find(raw, '<', 0), FindLast(raw, '>', |raw|))
      case (Some(open), Some(close)) =>
        if close <= open then None
        else
          var inner := raw[open + 1..close];
          ElementOf(inner[..FirstArgEnd(inner, 0, 0)])
      case _ => None
  }

  /** Opening minus closing angle brackets. */
  function AngleDepth(s: string): int {
    if s == "" then 0 else AngleDepth(s[..|s| - 1]) + if s[|s| - 1] == '<' then 1 else if s[|s| - 1] == '>' then -1 else 0
  }

  /** One type argument: its brackets match, and its commas are inside them. */
  ghost predicate ArgText(a: string) {
    AngleDepth(a) == 0 && forall i | 0 <= i < |a| && a[i] == ',' :: AngleDepth(a[..i]) != 0
  }

  lemma {:induction false} ScanArg(a: string, more: string, i: nat)
    requires i <= |a| && ArgText(a) && (more == "" || more[0] == ',')
    ensures FirstArgEnd(a + more, i, AngleDepth(a[..i])) == |a|
    decreases |a| - i
  {
    if i == |a| {
      assert a[..i] == a;
      assert more != "" ==> (a + more)[i] == more[0];
    } else {
      assert (a + more)[i] == a[i];
      assert a[..i + 1][..i] == a[..i];
      ScanArg(a, more, i + 1);
    }
  }

  lemma {:induction false} IdentPrefixIs(name: string, rest: string)
    requires (forall i | 0 <= i < |name| :: IsIdChar(name[i])) && (rest == "" || !IsIdChar(rest[0]))
    ensures IdentPrefix(name + rest) == name
  {
    if name == "" {
      assert name + rest == rest;
    } else {
      IdentPrefixIs(name[1..], rest);
      assert (name + rest)[1..] == name[1..] + rest;
    }
  }

  lemma {:induction false} FindIs(a: string, c: char, rest: string, i: nat)
    requires i <= |a| && c !in a
    ensures Find(a + [c] + rest, c, i) == Some(|a|)
    decreases |a| - i
  {
    if i < |a| {
      assert (a + [c] + rest)[i] == a[i];
      FindIs(a, c, rest, i + 1);
    }
  }

  lemma {:induction false} FindLastIs(a: string, c: char, rest: string, n: nat)
    requires n <= |rest| && c !in rest
    ensures FindLast(a + [c] + rest, c, |a| + 1 + n) == Some(|a|)
  {
    if n > 0 {
      assert (a + [c] + rest)[|a| + n] == rest[n - 1];
      FindLastIs(a, c, rest, n - 1);
    }
  }

  predicate IsIdent(name: string) {
    forall i | 0 <= i < |name| :: IsIdChar(name[i])
  }

  lemma ListNames(name: string)
    requires name in LIST_TYPES
    ensures IsIdent(name)
  {
  }

  lemma SetNames(name: string)
    requires name in SET_TYPES
    ensures IsIdent(name)
  {
  }

  lemma StreamNames(name: string)
    requires name in STREAM_TYPES
    ensures IsIdent(name)
  {
  }

  lemma CollectionNames(name: string)
    requires name in COLLECTION_TYPES
    ensures IsIdent(name)
  {
    hide IsIdent;
    if name in LIST_TYPES {
      ListNames(name);
    } else if name in SET_TYPES {
      SetNames(name);
    } else {
      StreamNames(name);
    }
  }

  /** A type argument as it is written: padding, null marks, and the type between them. */
  datatype Argument = Argument(pad: string, marks: string, typeText: string, marks': string, pad': string)

  function ArgumentText(a: Argument): string {
    a.pad + (a.marks + a.typeText + a.marks') + a.pad'
  }

  predicate Marks(s: string) {
    forall i | 0 <= i < |s| :: s[i] == '?'
  }

  /** The padding and the marks are all there is of either; every text can be written like this. */
  ghost predicate ArgumentOk(a: Argument) {
    var core := a.marks + a.typeText + a.marks';
    && AllSpace(a.pad) && AllSpace(a.pad') && Marks(a.marks) && Marks(a.marks')
    && (core != "" ==> !IsSpace(core[0]) && !IsSpace(core[|core| - 1]))
    && (a.typeText != "" ==> a.typeText[0] != '?' && a.typeText[|a.typeText| - 1] != '?')
  }

  lemma {:induction false} TrimQuestionMarks(marks: string, t: string, marks': string)
    requires Marks(marks) && Marks(marks') && (t != "" ==> t[0] != '?' && t[|t| - 1] != '?')
    ensures TrimQuestion(marks + t + marks') == t
    decreases |marks| + |marks'|
  {
    var s := marks + t + marks';
    if marks != "" {
      assert s[1..] == marks[1..] + t + marks';
      TrimQuestionMarks(marks[1..], t, marks');
    } else if marks' != "" {
      if t == "" {
        assert s[1..] == "" + t + marks'[1..];
        TrimQuestionMarks("", t, marks'[1..]);
      } else {
        assert s[0] == t[0] && s[..|s| - 1] == "" + t + marks'[..|marks'| - 1];
        TrimQuestionMarks("", t, marks'[..|marks'| - 1]);
      }
    } else {
      assert s == t;
    }
  }

  lemma TrimArgument(a: Argument)
    requires ArgumentOk(a)
    ensures TrimQuestion(Trim(ArgumentText(a))) == a.typeText
  {
    var core := a.marks + a.typeText + a.marks';
    hide TrimQuestion, TrimStart, TrimEnd;
    Regroup(a.pad, core, a.pad');
    if core == "" {
      assert AllSpace(a.pad + a.pad') && ArgumentText(a) == (a.pad + a.pad') + "";
      TrimStartPadded(a.pad + a.pad', "");
      TrimEndPadded("", "");
      assert "" + "" == "";
    } else {
      assert (core + a.pad')[0] == core[0];
      TrimStartPadded(a.pad, core + a.pad');
      TrimEndPadded(core, a.pad');
    }
    TrimQuestionMarks(a.marks, a.typeText, a.marks');
  }

  lemma {:induction false} TrimDotsKeeps(s: string)
    requires s != "" && s[0] != '.'
    ensures TrimDots(s) != "" && TrimDots(s)[0] == s[0]
  {
    if s[|s| - 1] == '.' {
      TrimDotsKeeps(s[..|s| - 1]);
    }
  }

  /** The element type is the bare text, if it is a class type: one that starts with an upper-case letter. */
  lemma ElementRead(a: Argument)
    requires ArgumentOk(a)
    ensures ElementOf(ArgumentText(a)) == if a.typeText != "" && IsUpper(a.typeText[0]) then Some(a.typeText) else None
  {
    hide ArgumentText, Trim, TrimQuestion;
    TrimArgument(a);
    var t := a.typeText;
    var prefix := DottedIdentPrefix(t);
    if prefix != "" {
      if prefix[0] != '.' {
        TrimDotsKeeps(prefix);
      }
      assert TrimDots(prefix) != "" ==> TrimDots(prefix)[0] == prefix[0] == t[0];
    }
  }

  /**
   The element type of a collection type is its first type argument, with that argument's own type arguments but without
   padding and null marks, whatever other arguments and null marks follow; there is none if it is not a class type.
   */
  lemma ElementTypeFound(name: string, a: Argument, more: string, end: string)
    requires name in COLLECTION_TYPES && ArgumentOk(a)
    requires ArgText(ArgumentText(a)) && (more == "" || more[0] == ',') && '>' !in end
    ensures ElementType(name + "<" + (ArgumentText(a) + more) + ">" + end)
         == if a.typeText != "" && IsUpper(a.typeText[0]) then Some(a.typeText) else None
  {
    ElementRead(a);
    CollectionNames(name);
    hide ArgumentOk, ArgumentText;
    ElementInside(name, ArgumentText(a), more, end);
  }

  lemma ElementInside(name: string, arg: string, more: string, end: string)
    requires name in COLLECTION_TYPES && IsIdent(name)
    requires ArgText(arg) && (more == "" || more[0] == ',') && '>' !in end
    ensures ElementType(name + "<" + (arg + more) + ">" + end) == ElementOf(arg)
  {
    hide ElementOf, FirstArgEnd, Find, FindLast, IdentPrefix, COLLECTION_TYPES, AngleDepth, ArgText, IsIdent;
    OuterBrackets(name, arg + more, end);
    FirstArgFound(arg, more);
  }

  lemma FirstArgFound(arg: string, more: string)
    requires ArgText(arg) && (more == "" || more[0] == ',')
    ensures (arg + more)[..FirstArgEnd(arg + more, 0, 0)] == arg
  {
    assert arg[..0] == "" && AngleDepth("") == 0;
    ScanArg(arg, more, 0);
  }

  lemma OuterBrackets(name: string, inner: string, end: string)
    requires IsIdent(name) && '>' !in end
    ensures var raw := name + "<" + inner + ">" + end;
      && IdentPrefix(raw) == name && Find(raw, '<', 0) == Some(|name|)
      && FindLast(raw, '>', |raw|) == Some(|name| + 1 + |inner|)
      && raw[|name| + 1..|name| + 1 + |inner|] == inner
  {
    hide Find, FindLast, IdentPrefix;
    var raw := name + "<" + inner + ">" + end;
    assert raw == name + ("<" + inner + ">" + end);
    IdentPrefixIs(name, "<" + inner + ">" + end);
    assert raw == name + ['<'] + (inner + ">" + end);
    FindIs(name, '<', inner + ">" + end, 0);
    assert raw == (name + "<" + inner) + ['>'] + end;
    FindLastIs(name + "<" + inner, '>', end, |end|);
  }

  lemma {:induction false} FindNone(s: string, c: char, i: nat)
    requires i <= |s| && c !in s[i..]
    ensures Find(s, c, i) == None
    decreases |s| - i
  {
    if i < |s| {
      assert s[i] == s[i..][0] && s[i + 1..] == s[i..][1..];
      FindNone(s, c, i + 1);
    }
  }

  lemma {:induction false} FindLastNone(s: string, c: char, n: nat)
    requires n <= |s| && c !in s[..n]
    ensures FindLast(s, c, n) == None
  {
    if n > 0 {
      assert s[n - 1] == s[..n][n - 1] && s[..n - 1] == s[..n][..n - 1];
      FindLastNone(s, c, n - 1);
    }
  }

  /** Other types, and types without type arguments, have no element type. */
  lemma NoElementType(name: string, rest: string)
    requires IsPath(name) && '.' !in name && (rest == "" || !IsPath([rest[0]]) || rest[0] == '.')
    requires name !in COLLECTION_TYPES || '<' !in rest || '>' !in rest
    ensures ElementType(name + rest) == None
  {
    IdentPrefixIs(name, rest);
    hide COLLECTION_TYPES, IdentPrefix, ElementOf, FirstArgEnd;
    var raw := name + rest;
    assert raw[0..] == raw && raw[..|raw|] == raw;
    if '<' !in rest {
      FindNone(raw, '<', 0);
    } else if '>' !in rest {
      FindLastNone(raw, '>', |raw|);
    }
  }
}
