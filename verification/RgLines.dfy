/**
 Reading the search tool's output lines `path:line:column:content` (src/rg.rs, `split_rg_fields`,
 `parse_rg_line`), on paths with and without a drive letter.
 */
module RgLines {
  import opened Text

  const U32_MAX := 0xFFFF_FFFF

  datatype Fields = Fields(file: string, line: nat, column: nat, content: string)

  datatype Location = Location(uri: string, line: nat, character: nat)

  predicate IsLetter(c: char) {
    IsUpper(c) || IsLower(c)
  }

  predicate IsSlash(c: char) {
    c == '\\' || c == '/'
  }

  const LONG_PATH_PREFIX := "\\\\?\\"

  /** How much of the line to pass over, so that the colon of a drive letter does not count. */
  function ScanFrom(s: string): (n: nat)
    ensures n <= |s|
  {
    if |s| >= 3 && IsLetter(s[0]) && s[1] == ':' && IsSlash(s[2]) then 2
    else if |s| >= 7 && LONG_PATH_PREFIX <= s && IsLetter(s[4]) && s[5] == ':' && IsSlash(s[6]) then 6
    else 0
  }

  /** The position of the first colon. */
  function Colon(s: string): (r: Option<nat>)
    ensures match r
      case Some(i) => i < |s| && s[i] == ':' && ':' !in s[..i]
      case None => ':' !in s
  {
    if s == "" then None
    else if s[0] == ':' then Some(0)
    else
      match Colon(s[1..])
      case None => None
      case Some(i) =>
        assert s[..i + 1] == [s[0]] + s[1..][..i];
        Some(i + 1)
  }

  /** `trim().parse::<u32>()` */
  function ParseU32(s: string): Option<nat> {
    var t := Trim(s);
    var digits := if t != "" && t[0] == '+' then t[1..] else t;
    if digits == "" || !AllDigits(digits) || DecimalValue(digits) > U32_MAX then None else Some(DecimalValue(digits))
  }

  /** The fields behind the path: line, column, and content, which may hold colons. */
  function SplitNumbers(s: string): Option<(nat, nat, string)> {
    match Colon(s)
    case None => None
    case Some(i) =>
      var rest := s[i + 1..];
      var end := Colon(rest);
      var columnText := if end.Some? then rest[..end.value] else rest;
      var content := if end.Some? then rest[end.value + 1..] else "";
      match (ParseU32(s[..i]), ParseU32(columnText))
      case (Some(line), Some(column)) => Some((line, column, content))
      case _ => None
  }

  /** `splitn(4, ':')` behind the drive letter, and the two numbers. */
  function SplitRgFields(line: string): Option<Fields> {
    var from := ScanFrom(line);
    match Colon(line[from..])
    case None => None
    case Some(i) =>
      match SplitNumbers(line[from + i + 1..])
      case None => None
      case Some(n) => Some(Fields(line[..from + i], n.0, n.1, n.2))
  }

  /** One-based numbers become zero-based; a path without a URI (a relative one) gives nothing. */
  function ParseRgLine(line: string, uriOf: string -> Option<string>): Option<Location> {
    match SplitRgFields(line)
    case None => None
    case Some(f) =>
      match uriOf(f.file)
      case None => None
      case Some(uri) => Some(Location(uri, Max(f.line - 1, 0), Max(f.column - 1, 0)))
  }

  function Print(path: string, line: nat, column: nat, content: string): string {
    path + ":" + Decimal(line) + ":" + Decimal(column) + ":" + content
  }

  lemma {:induction false} ColonAfter(a: string, rest: string)
    requires ':' !in a
    ensures Colon(a + ":" + rest) == Some(|a|)
  {
    if a == "" {
      assert a + ":" + rest == ":" + rest;
    } else {
      ColonAfter(a[1..], rest);
      assert (a + ":" + rest)[1..] == a[1..] + ":" + rest;
    }
  }

  lemma Halves(a: string, rest: string)
    ensures (a + ":" + rest)[..|a|] == a && (a + ":" + rest)[|a| + 1..] == rest
  {
  }

  lemma {:induction false} ColonFirst(s: string, k: nat)
    requires k < |s| && s[k] == ':'
    ensures Colon(s).Some? && Colon(s).value <= k
  {
    if k > 0 {
      ColonFirst(s[1..], k - 1);
    }
  }

  lemma ParseDecimal(n: nat)
    requires n <= U32_MAX
    ensures ParseU32(Decimal(n)) == Some(n) && ':' !in Decimal(n)
  {
    DecimalRoundTrip(n);
    hide Decimal, DecimalValue, Trim;
    var d := Decimal(n);
    TrimDecimal(d);
  }

  lemma TrimDecimal(d: string)
    requires d != "" && AllDigits(d)
    ensures Trim(d) == d
  {
    TrimStartPadded("", d);
    TrimEndPadded(d, "");
    assert "" + d == d && d + "" == d;
  }

  lemma FieldsBehind(path: string, from: nat, line: nat, column: nat, content: string)
    requires line <= U32_MAX && column <= U32_MAX && from <= |path| && ':' !in path[from..]
    requires ScanFrom(Print(path, line, column, content)) == from
    ensures SplitRgFields(Print(path, line, column, content)) == Some(Fields(path, line, column, content))
  {
    hide ScanFrom, Decimal, Colon, SplitNumbers;
    var tail := Decimal(line) + ":" + (Decimal(column) + ":" + content);
    var s := path + ":" + tail;
    assert Print(path, line, column, content) == s;
    assert s[from..] == path[from..] + ":" + tail;
    ColonAfter(path[from..], tail);
    Halves(path, tail);
    NumbersBehind(line, column, content);
  }

  lemma NumbersBehind(line: nat, column: nat, content: string)
    requires line <= U32_MAX && column <= U32_MAX
    ensures SplitNumbers(Decimal(line) + ":" + (Decimal(column) + ":" + content)) == Some((line, column, content))
  {
    hide Decimal, Colon, ParseU32;
    ParseDecimal(line);
    ParseDecimal(column);
    ColonAfter(Decimal(line), Decimal(column) + ":" + content);
    Halves(Decimal(line), Decimal(column) + ":" + content);
    ColonAfter(Decimal(column), content);
    Halves(Decimal(column), content);
  }

  /** Character `i` is the colon of a drive letter, on its own or behind the prefix for long paths. */
  predicate OfDriveLetter(path: string, i: nat) {
    || (i == 1 && |path| >= 3 && Letter(path[0]) && path[2] in "\\/")
    || (i == 5 && |path| >= 7 && path[..4] == "\\\\?\\" && Letter(path[4]) && path[6] in "\\/")
  }

  predicate Letter(c: char) {
    'A' <= c <= 'Z' || 'a' <= c <= 'z'
  }

  lemma ScannedColons(path: string)
    ensures ':' !in path[ScanFrom(path)..] <==> forall i | 0 <= i < |path| && path[i] == ':' :: OfDriveLetter(path, i)
  {
    var from := ScanFrom(path);
    forall i | from <= i < |path| ensures path[i] == path[from..][i - from] {
    }
  }

  /**
   The output-line round trip: a printed line is split into exactly its path, numbers and content
   (which may hold colons), if and only if the path has no colon but that of a drive letter.
   */
  lemma LineRoundTrip(path: string, line: nat, column: nat, content: string)
    requires line <= 0xFFFF_FFFF && column <= 0xFFFF_FFFF
    ensures SplitRgFields(Print(path, line, column, content)) == Some(Fields(path, line, column, content))
       <==> forall i | 0 <= i < |path| && path[i] == ':' :: OfDriveLetter(path, i)
  {
    ScannedColons(path);
    var s, from := Print(path, line, column, content), ScanFrom(path);
    var rest := Decimal(line) + ":" + Decimal(column) + ":" + content;
    assert s == path + ":" + rest;
    assert rest[0] == Decimal(line)[0];
    if ':' in path[from..] {
      EarlyColon(path, from, rest);
    } else {
      FieldsBehind(path, from, line, column, content);
    }
  }

  /** With another colon in the path, the file field stops short. */
  lemma EarlyColon(path: string, from: nat, rest: string)
    requires from <= |path| && ':' in path[from..] && ScanFrom(path + ":" + rest) == from
    ensures var r := SplitRgFields(path + ":" + rest); r.Some? ==> |r.value.file| < |path|
  {
    hide SplitNumbers, Colon;
    var s := path + ":" + rest;
    var k :| 0 <= k < |path[from..]| && path[from..][k] == ':';
    ColonFirst(s[from..], k);
  }

  /** A number as `parse::<u32>` reads it once white space is trimmed: digits, perhaps behind a plus sign. */
  predicate NumberText(s: string, pad: string, plus: string, digits: string, pad': string) {
    && s == pad + (plus + digits) + pad' && AllSpace(pad) && AllSpace(pad') && (plus == "" || plus == "+")
    && digits != "" && AllDigits(digits) && DecimalValue(digits) <= 0xFFFF_FFFF
  }

  ghost predicate Denotes(s: string, n: nat) {
    exists pad, plus, digits, pad' :: NumberText(s, pad, plus, digits, pad') && DecimalValue(digits) == n
  }

  lemma Unsigned(pad: string, plus: string, digits: string, pad': string)
    requires AllSpace(pad) && AllSpace(pad') && (plus == "" || plus == "+") && digits != "" && AllDigits(digits)
    ensures Trim(pad + (plus + digits) + pad') == plus + digits
    ensures plus == "+" ==> (plus + digits)[0] == '+' && (plus + digits)[1..] == digits
    ensures plus == "" ==> plus + digits == digits && IsDigit(digits[0])
  {
    var core := plus + digits;
    assert core[0] == (if plus == "" then digits[0] else '+') && core[|core| - 1] == digits[|digits| - 1];
    assert pad + core + pad' == pad + (core + pad');
    TrimStartPadded(pad, core + pad');
    TrimEndPadded(core, pad');
  }

  lemma TrimParts(s: string) returns (pad: string, pad': string)
    ensures s == pad + Trim(s) + pad' && AllSpace(pad) && AllSpace(pad')
  {
    var start := TrimStart(s);
    pad, pad' := s[..LeadingSpaces(s)], start[TrimmedLength(start)..];
    assert s == pad + start && start == Trim(s) + pad';
    Regroup(pad, Trim(s), pad');
  }

  lemma NumberShape(s: string, n: nat)
    requires ParseU32(s) == Some(n)
    ensures Denotes(s, n)
  {
    var pad, pad' := TrimParts(s);
    var t := Trim(s);
    var plus := if t[0] == '+' then "+" else "";
    assert t == plus + t[|plus|..];
    hide Trim, DecimalValue, AllSpace;
    assert NumberText(s, pad, plus, t[|plus|..], pad');
  }

  lemma Numbers(s: string, n: nat)
    ensures ParseU32(s) == Some(n) <==> Denotes(s, n)
  {
    if ParseU32(s) == Some(n) {
      NumberShape(s, n);
    }
    hide Trim, DecimalValue, AllDigits, AllSpace;
    if pad, plus, digits, pad' :| NumberText(s, pad, plus, digits, pad') && DecimalValue(digits) == n {
      Unsigned(pad, plus, digits, pad');
    }
  }

  /** Any text in the place of the two numbers: the line is read exactly if both are numbers, with or without a content. */
  lemma AnyNumbers(path: string, a: string, b: string, content: string, line: nat, column: nat)
    requires forall i | 0 <= i < |path| && path[i] == ':' :: OfDriveLetter(path, i)
    requires ':' !in a && ':' !in b && a != "" && !IsSlash(a[0])
    ensures SplitRgFields(path + ":" + (a + ":" + (b + ":" + content))) == Some(Fields(path, line, column, content))
       <==> Denotes(a, line) && Denotes(b, column)
    ensures SplitRgFields(path + ":" + (a + ":" + b)) == Some(Fields(path, line, column, ""))
       <==> Denotes(a, line) && Denotes(b, column)
  {
    Numbers(a, line);
    Numbers(b, column);
    ScannedColons(path);
    PathFound(path, a + ":" + (b + ":" + content));
    PathFound(path, a + ":" + b);
    ColonAfter(a, b + ":" + content);
    Halves(a, b + ":" + content);
    ColonAfter(b, content);
    Halves(b, content);
    ColonAfter(a, b);
    Halves(a, b);
    hide Denotes, ParseU32, SplitRgFields, Colon;
  }

  /** The path ends at the first colon behind its drive letter. */
  lemma PathFound(path: string, tail: string)
    requires ':' !in path[ScanFrom(path)..] && tail != "" && !IsSlash(tail[0])
    ensures SplitRgFields(path + ":" + tail)
         == match SplitNumbers(tail) case None => None case Some(n) => Some(Fields(path, n.0, n.1, n.2))
  {
    var s, from := path + ":" + tail, ScanFrom(path);
    assert forall i | 0 <= i < |path| :: s[i] == path[i];
    assert s[|path|] == ':' && s[|path| + 1] == tail[0];
    assert |path| >= 4 ==> s[..4] == path[..4];
    assert ScanFrom(s) == from;
    hide ScanFrom, SplitNumbers, Colon;
    assert s[from..] == path[from..] + ":" + tail;
    ColonAfter(path[from..], tail);
    Halves(path, tail);
  }

  /** The numbers, which count from one, become positions, which count from zero, in the document of the path, if it has one. */
  lemma LocationRoundTrip(path: string, line: nat, column: nat, content: string, uriOf: string -> Option<string>)
    requires line <= 0xFFFF_FFFF && column <= 0xFFFF_FFFF
    requires forall i | 0 <= i < |path| && path[i] == ':' :: OfDriveLetter(path, i)
    ensures ParseRgLine(Print(path, line, column, content), uriOf) == match uriOf(path)
      case None => None
      case Some(uri) => Some(Location(uri, if line == 0 then 0 else line - 1, if column == 0 then 0 else column - 1))
  {
    hide Print, SplitRgFields, ScanFrom, OfDriveLetter;
    LineRoundTrip(path, line, column, content);
  }
}
