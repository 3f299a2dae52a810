/**
 Message framing between the client and the server (contrib/kotlin-cli.py, `_encode` and
 `_reader_thread`), after the "Base Protocol" of LSP 3.17.  A character stands for a byte; UTF-8
 decoding of header lines and the verdict of the JSON parser on a body are parameters.
 */
module Framing {
  import opened Text

  datatype Verdict = IsJson | NotJson | NotText  // the last one raises something other than JSONDecodeError

  datatype Parsers = Parsers(decode: string -> Option<string>, json: string -> Verdict)

  predicate Ascii(s: string) {
    forall i | 0 <= i < |s| :: s[i] < 128 as char
  }

  /** UTF-8 leaves ASCII text alone. */
  ghost predicate Utf8(p: Parsers) {
    forall s | Ascii(s) :: p.decode(s) == Some(s)
  }

  // ----- writing

  function Encode(body: string): string {
    "Content-Length: " + Decimal(|body|) + "\r\n\r\n" + body
  }

  // ----- reading

  /** The length of the line `readline` returns: up to and including the first line feed. */
  function LineLength(s: string): (n: nat)
    ensures n <= |s| && (n == 0 <==> s == "")
  {
    if s == "" then 0 else if s[0] == '\n' then 1 else 1 + LineLength(s[1..])
  }

  /** The part before the first colon. */
  function BeforeColon(s: string): string {
    if s == "" || s[0] == ':' then "" else [s[0]] + BeforeColon(s[1..])
  }

  /** The part after the first colon, empty if there is none. */
  function AfterColon(s: string): string {
    if s == "" then "" else if s[0] == ':' then s[1..] else AfterColon(s[1..])
  }

  /** Digits, single underscores allowed between them. */
  function ParseDigits(s: string): Option<nat> {
    if s == "" || !IsDigit(s[|s| - 1]) then None
    else if |s| == 1 then Some(DigitValue(s[0]))
    else
      var front := if s[|s| - 2] == '_' then s[..|s| - 2] else s[..|s| - 1];
      match ParseDigits(front)
      case None => None
      case Some(v) => Some(10 * v + DigitValue(s[|s| - 1]))
  }

  function ParseSigned(t: string): Option<int> {
    if t != "" && (t[0] == '-' || t[0] == '+') then
      var v := ParseDigits(t[1..]);
      if v.None? then None else Some(if t[0] == '-' then -(v.value as int) else v.value as int)
    else
      var v := ParseDigits(t);
      if v.None? then None else Some(v.value)
  }

  /** Python's `int(s)`; `None` is ValueError. */
  function ParseInt(s: string): Option<int> {
    ParseSigned(Trim(s))
  }

  type Headers = map<string, string>

  function AddHeader(headers: Headers, line: string): Headers {
    headers[LowerAll(Trim(BeforeColon(line))) := Trim(AfterColon(line))]
  }

  datatype HeaderBlock = Complete(headers: Headers, rest: string) | EndOfStream | Raised

  function ReadHeaders(p: Parsers, s: string, headers: Headers): (r: HeaderBlock)
    ensures r.Complete? ==> |r.rest| < |s|
    decreases |s|
  {
    if s == "" then EndOfStream
    else
      var n := LineLength(s);
      match p.decode(s[..n])
      case None => Raised
      case Some(text) =>
        var line := Trim(text);
        if line == "" then Complete(headers, s[n..]) else ReadHeaders(p, s[n..], AddHeader(headers, line))
  }

  function ContentLength(headers: Headers): Option<int> {
    if "content-length" in headers then ParseInt(headers["content-length"]) else Some(0)
  }

  datatype Body = Body(bytes: string, rest: string) | NoBody | BadLength

  /** `read(length)`: short at the end of the stream, everything for -1. */
  function ReadBody(headers: Headers, s: string): (r: Body)
    ensures r.Body? ==> |r.rest| <= |s|
  {
    match ContentLength(headers)
    case None => BadLength
    case Some(length) =>
      if length == 0 then NoBody
      else if length < -1 then BadLength
      else
        var n := if length == -1 then |s| else Min(length, |s|);
        Body(s[..n], s[n..])
  }

  /** What the thread has put into the queue when it ends, what it left unread, and why it ended. */
  datatype Reading = Reading(queue: seq<string>, unread: string, raised: bool)

  function Deliver(p: Parsers, body: string): seq<string> {
    if p.json(body) == IsJson then [body] else []
  }

  function Read(p: Parsers, s: string): Reading
    decreases |s|
  {
    match ReadHeaders(p, s, map[])
    case EndOfStream => Reading([], "", false)
    case Raised => Reading([], s, true)
    case Complete(headers, rest) =>
      match ReadBody(headers, rest)
      case BadLength => Reading([], rest, true)
      case NoBody => Read(p, rest)
      case Body(body, rest') =>
        if p.json(body) == NotText then Reading([], rest', true)
        else
          var more := Read(p, rest');
          more.(queue := Deliver(p, body) + more.queue)
  }

  /** The reader thread: its loop consumes the stream frame by frame. */
  method ReaderThread(p: Parsers, stream: string) returns (queue: seq<string>, unread: string, raised: bool)
    ensures Reading(queue, unread, raised) == Read(p, stream)
  {
    queue, unread := [], stream;
    while true
      invariant Read(p, stream) == Read(p, unread).(queue := queue + Read(p, unread).queue)
      decreases |unread|
    {
      var block := ReadHeaderLines(p, unread);
      match block
      case EndOfStream =>
        return queue, "", false;
      case Raised =>
        return queue, unread, true;
      case Complete(headers, rest) =>
        match ReadBody(headers, rest)
        case BadLength =>
          return queue, rest, true;
        case NoBody =>
          unread := rest;
        case Body(body, rest') =>
          if p.json(body) == NotText {
            return queue, rest', true;
          }
          Regroup(queue, Deliver(p, body), Read(p, rest').queue);
          assert queue + [] == queue;
          if p.json(body) == IsJson {
            queue := queue + [body];
          }
          unread := rest';
    }
  }

  /** The inner loop over the header lines of one frame. */
  method ReadHeaderLines(p: Parsers, s: string) returns (block: HeaderBlock)
    ensures block == ReadHeaders(p, s, map[])
  {
    var headers: Headers, rest := map[], s;
    while rest != ""
      invariant ReadHeaders(p, s, map[]) == ReadHeaders(p, rest, headers)
      decreases |rest|
    {
      var n := LineLength(rest);
      var text := p.decode(rest[..n]);
      if text.None? {
        return Raised;
      }
      var line := Trim(text.value);
      rest := rest[n..];
      if line == "" {
        return Complete(headers, rest);
      }
      headers := AddHeader(headers, line);
    }
    return EndOfStream;
  }

  // ----- one header line

  /** A header field as it may stand in a frame. */
  predicate HeaderLine(line: string) {
    && Ascii(line) && (forall i | 0 <= i < |line| :: line[i] != '\n')
    && line != "" && !IsSpace(line[0]) && !IsSpace(line[|line| - 1])
  }

  lemma {:induction false} LineLengthIs(line: string, rest: string)
    requires forall i | 0 <= i < |line| :: line[i] != '\n'
    ensures LineLength(line + "\n" + rest) == |line| + 1
  {
    if line == "" {
      assert line + "\n" + rest == "\n" + rest;
    } else {
      LineLengthIs(line[1..], rest);
      assert (line + "\n" + rest)[1..] == line[1..] + "\n" + rest;
    }
  }

  lemma ReadLine(p: Parsers, line: string, rest: string, headers: Headers)
    requires Utf8(p) && (HeaderLine(line) || line == "")
    ensures ReadHeaders(p, line + "\r\n" + rest, headers)
         == if line == "" then Complete(headers, rest) else ReadHeaders(p, rest, AddHeader(headers, line))
  {
    var s, n := line + "\r\n" + rest, |line| + 2;
    LineLengthIs(line + "\r", rest);
    assert s == (line + "\r") + "\n" + rest;
    assert s[..n] == line + "\r\n" && s[n..] == rest;
    assert Ascii(line + "\r\n");
    if line == "" {
      TrimStartPadded("\r\n", "");
      assert "\r\n" + "" == "\r\n";
    } else {
      TrimStartPadded("", line + "\r\n");
      TrimEndPadded(line, "\r\n");
      assert "" + (line + "\r\n") == line + "\r\n";
    }
  }

  // ----- whole frames

  /** Header lines, the length of the body among them, and the body. */
  datatype Frame = Frame(before: seq<string>, after: seq<string>, body: string)

  function LengthLine(body: string): string {
    "Content-Length: " + Decimal(|body|)
  }

  function HeaderText(lines: seq<string>): string {
    if lines == [] then "" else lines[0] + "\r\n" + HeaderText(lines[1..])
  }

  function FrameText(f: Frame): string {
    HeaderText(f.before + [LengthLine(f.body)] + f.after) + "\r\n" + f.body
  }

  function StreamOf(frames: seq<Frame>): string {
    if frames == [] then "" else FrameText(frames[0]) + StreamOf(frames[1..])
  }

  function FieldName(line: string): string {
    LowerAll(Trim(BeforeColon(line)))
  }

  /** Other header fields may surround the length; the last field of a name counts. */
  predicate FrameOk(f: Frame) {
    && (forall l | l in f.before + f.after :: HeaderLine(l))
    && (forall l | l in f.after :: FieldName(l) != "content-length")
  }

  function AddHeaders(headers: Headers, lines: seq<string>): Headers
    decreases |lines|
  {
    if lines == [] then headers else AddHeaders(AddHeader(headers, lines[0]), lines[1..])
  }

  lemma {:induction false} ReadLines(p: Parsers, lines: seq<string>, rest: string, headers: Headers)
    requires Utf8(p) && forall l | l in lines :: HeaderLine(l)
    ensures ReadHeaders(p, HeaderText(lines) + rest, headers) == ReadHeaders(p, rest, AddHeaders(headers, lines))
    decreases |lines|
  {
    if lines == [] {
      assert HeaderText(lines) + rest == rest;
    } else {
      var tail := HeaderText(lines[1..]) + rest;
      assert HeaderText(lines) + rest == lines[0] + "\r\n" + tail;
      assert lines[0] in lines;
      ReadLine(p, lines[0], tail, headers);
      ReadLines(p, lines[1..], rest, AddHeader(headers, lines[0]));
    }
  }

  lemma ReadBlock(p: Parsers, lines: seq<string>, rest: string, headers: Headers)
    requires Utf8(p) && forall l | l in lines :: HeaderLine(l)
    ensures ReadHeaders(p, HeaderText(lines) + "\r\n" + rest, headers) == Complete(AddHeaders(headers, lines), rest)
  {
    ReadLines(p, lines, "\r\n" + rest, headers);
    Regroup(HeaderText(lines), "\r\n", rest);
    ReadLine(p, "", rest, AddHeaders(headers, lines));
    assert "" + "\r\n" + rest == "\r\n" + rest;
  }

  lemma {:induction false} AddHeadersAppend(headers: Headers, a: seq<string>, b: seq<string>)
    ensures AddHeaders(headers, a + b) == AddHeaders(AddHeaders(headers, a), b)
    decreases |a|
  {
    hide AddHeader;
    if a == [] {
      assert a + b == b;
    } else {
      AddHeadersAppend(AddHeader(headers, a[0]), a[1..], b);
      assert (a + b)[1..] == a[1..] + b;
    }
  }

  lemma {:induction false} ForeignHeaders(headers: Headers, lines: seq<string>)
    requires "content-length" in headers && forall l | l in lines :: FieldName(l) != "content-length"
    ensures "content-length" in AddHeaders(headers, lines)
    ensures AddHeaders(headers, lines)["content-length"] == headers["content-length"]
    decreases |lines|
  {
    if lines != [] {
      assert lines[0] in lines;
      ForeignHeaders(AddHeader(headers, lines[0]), lines[1..]);
    }
  }

  /** The length field is read back as the number that was written. */
  lemma LengthField(headers: Headers, body: string)
    ensures AddHeader(headers, LengthLine(body)) == headers["content-length" := Decimal(|body|)]
    ensures ContentLength(AddHeader(headers, LengthLine(body))) == Some(|body|)
  {
    hide Trim, LowerAll, BeforeColon, AfterColon, Decimal, ParseInt;
    var d := Decimal(|body|);
    SplitLengthLine(d);
    TrimDigits(" ", d);
    ParseIntDecimal(|body|);
  }

  lemma ParseIntDecimal(n: nat)
    ensures ParseInt(Decimal(n)) == Some(n)
  {
    hide Trim, Decimal, ParseDigits;
    var d := Decimal(n);
    TrimDigits("", d);
    assert "" + d == d;
    ParseDecimal(n);
  }

  lemma TrimDigits(pad: string, d: string)
    requires AllSpace(pad) && d != "" && AllDigits(d)
    ensures Trim(pad + d) == d
  {
    TrimStartPadded(pad, d);
    TrimEndPadded(d, "");
    assert d + "" == d;
  }

  lemma LengthLineOk(body: string)
    ensures HeaderLine(LengthLine(body))
  {
    var name, d := "Content-Length: ", Decimal(|body|);
    var line := name + d;
    assert line[0] == 'C' && line[|line| - 1] == d[|d| - 1];
    assert forall i | 0 <= i < |line| :: line[i] == if i < |name| then name[i] else d[i - |name|];
  }

  lemma SplitLengthLine(d: string)
    ensures FieldName("Content-Length: " + d) == "content-length"
    ensures AfterColon("Content-Length: " + d) == " " + d
  {
    var name := "Content-Length";
    assert "Content-Length: " + d == name + ":" + (" " + d);
    SplitAtColon(name, " " + d);
    TrimStartPadded("", name);
    assert "" + name == name;
    TrimEndPadded(name, "");
    assert name + "" == name;
    LowerName();
  }

  lemma {:induction false} SplitAtColon(name: string, rest: string)
    requires forall i | 0 <= i < |name| :: name[i] != ':'
    ensures BeforeColon(name + ":" + rest) == name && AfterColon(name + ":" + rest) == rest
  {
    var s := name + ":" + rest;
    if name == "" {
      assert s == ":" + rest;
    } else {
      SplitAtColon(name[1..], rest);
      assert s[1..] == name[1..] + ":" + rest;
    }
  }

  lemma LowerName()
    ensures LowerAll("Content-Length") == "content-length"
  {
  }

  lemma {:induction false} ParseDecimal(n: nat)
    ensures ParseDigits(Decimal(n)) == Some(n)
  {
    if n >= 10 {
      var s := Decimal(n);
      ParseDecimal(n / 10);
      assert s[..|s| - 1] == Decimal(n / 10);
    }
  }

  // ----- lengths that are not what the writer writes

  function NotUnderscore(): char -> bool {
    (c: char) => c != '_'
  }

  /** Digits, with single underscores between them. */
  predicate Grouped(u: string) {
    && u != "" && IsDigit(u[0]) && IsDigit(u[|u| - 1])
    && (forall i | 0 <= i < |u| :: IsDigit(u[i]) || u[i] == '_')
    && forall i | 0 < i < |u| && u[i] == '_' :: u[i - 1] != '_'
  }

  /** The number that the digits of `u` denote is `v`. */
  predicate Denotes(u: string, v: nat) {
    Grouped(u) && AllDigits(Filter(u, NotUnderscore())) && DecimalValue(Filter(u, NotUnderscore())) == v
  }

  /** A whole number as Python writes it: a sign or none, and grouped digits. */
  predicate IsInt(t: string, n: int) {
    if t != "" && t[0] == '-' then n <= 0 && Denotes(t[1..], -n)
    else if t != "" && t[0] == '+' then n >= 0 && Denotes(t[1..], n)
    else n >= 0 && Denotes(t, n)
  }

  lemma DigitBehind(front: string, gap: string, c: char)
    requires IsDigit(c) && (gap == "" || gap == "_")
    ensures Filter(front + gap + [c], NotUnderscore()) == Filter(front, NotUnderscore()) + [c]
  {
    FilterAppend(front + gap, [c], NotUnderscore());
    FilterAppend(front, gap, NotUnderscore());
    assert Filter([c], NotUnderscore()) == [c] && Filter(gap, NotUnderscore()) == [];
  }

  lemma ValueBehind(digits: string, c: char)
    requires AllDigits(digits) && IsDigit(c)
    ensures AllDigits(digits + [c]) && DecimalValue(digits + [c]) == 10 * DecimalValue(digits) + DigitValue(c)
  {
    assert (digits + [c])[..|digits|] == digits;
  }

  lemma GroupedFront(u: string)
    requires |u| >= 2 && IsDigit(u[|u| - 1])
    ensures var front := if u[|u| - 2] == '_' then u[..|u| - 2] else u[..|u| - 1]; Grouped(u) <==> Grouped(front)
  {
  }

  lemma OneDigit(c: char)
    requires IsDigit(c)
    ensures Denotes([c], DigitValue(c))
  {
    assert Filter([c], NotUnderscore()) == [c];
    assert [c][..0] == "";
  }

  lemma NextDigit(front: string, gap: string, c: char, v: nat)
    requires Denotes(front, v) && IsDigit(c) && (gap == "" || gap == "_") && Grouped(front + gap + [c])
    ensures Denotes(front + gap + [c], 10 * v + DigitValue(c))
  {
    DigitBehind(front, gap, c);
    ValueBehind(Filter(front, NotUnderscore()), c);
    hide Filter, DecimalValue, Grouped, DigitValue;
  }

  lemma {:induction false} DigitsDenote(u: string)
    ensures match ParseDigits(u) case None => !Grouped(u) case Some(v) => Denotes(u, v)
  {
    if u != "" && IsDigit(u[|u| - 1]) {
      var c := u[|u| - 1];
      if |u| == 1 {
        assert u == [c];
        OneDigit(c);
      } else {
        var gap := if u[|u| - 2] == '_' then "_" else "";
        var front := if u[|u| - 2] == '_' then u[..|u| - 2] else u[..|u| - 1];
        GroupedFront(u);
        assert u == front + gap + [c];
        DigitsDenote(front);
        assert Denotes(front, if ParseDigits(front).Some? then ParseDigits(front).value else 0) ==> Grouped(front);
        hide Grouped, Denotes, DigitValue;
        if ParseDigits(front).Some? {
          NextDigit(front, gap, c, ParseDigits(front).value);
        }
      }
    }
  }

  lemma ParsedDigits(u: string, v: nat)
    ensures ParseDigits(u) == Some(v) <==> Denotes(u, v)
  {
    hide ParseDigits, Grouped;
    DigitsDenote(u);
  }

  /** `int` accepts exactly the whole numbers. */
  lemma IntLiterals(t: string, n: int)
    ensures ParseSigned(t) == Some(n) <==> IsInt(t, n)
  {
    hide ParseDigits, Denotes;
    ParsedDigits(if t != "" && (t[0] == '-' || t[0] == '+') then t[1..] else t, if n >= 0 then n else -n);
  }

  /** How the thread goes on behind the headers of a frame of length `n`: what `read(n)` gives is the body. */
  function GoOn(p: Parsers, n: int, data: string): Reading {
    if n == 0 then Read(p, data)
    else if n < -1 then Reading([], data, true)
    else
      var size := if n == -1 || n > |data| then |data| else n;
      var body, rest := data[..size], data[size..];
      if p.json(body) == NotText then Reading([], rest, true)
      else
        var more := Read(p, rest);
        more.(queue := (if p.json(body) == IsJson then [body] else []) + more.queue)
  }

  function HeadersAnd(lines: seq<string>, data: string): string {
    HeaderText(lines) + "\r\n" + data
  }

  /** A length field, in whatever case and with whatever white space, and any value. */
  predicate LengthValue(line: string, value: string) {
    && HeaderLine(line) && (value == "" || !IsSpace(value[0]))
    && exists i, j | 0 <= i < j <= |line| ::
      LowerAll(line[..i]) == "content-length" && line[i] == ':' && AllSpace(line[i + 1..j]) && line[j..] == value
  }

  /**
   A frame whose last length field has any value: the reader goes on with the number, if it is one.  A value that is no
   number ends the thread, and so does a number below -1.
   */
  lemma AnyLength(p: Parsers, before: seq<string>, line: string, value: string, after: seq<string>, data: string)
    requires Utf8(p) && (forall l | l in before + [line] + after :: HeaderLine(l)) && LengthValue(line, value)
    requires forall l | l in after :: FieldName(l) != "content-length"
    ensures forall n | IsInt(value, n) :: Read(p, HeadersAnd(before + [line] + after, data)) == GoOn(p, n, data)
    ensures (forall n :: !IsInt(value, n)) ==> Read(p, HeadersAnd(before + [line] + after, data)) == Reading([], data, true)
  {
    var lines := before + [line] + after;
    ReadBlock(p, lines, data, map[]);
    assert HeadersAnd(lines, data) == HeaderText(lines) + "\r\n" + data;
    hide *;
    LengthIs(before, line, value, after);
    WentOn(p, HeadersAnd(lines, data), AddHeaders(map[], lines), data);
    forall n ensures ParseSigned(value) == Some(n) <==> IsInt(value, n) {
      IntLiterals(value, n);
    }
  }

  lemma WentOn(p: Parsers, stream: string, headers: Headers, data: string)
    requires ReadHeaders(p, stream, map[]) == Complete(headers, data)
    ensures Read(p, stream) == match ContentLength(headers) case None => Reading([], data, true) case Some(n) => GoOn(p, n, data)
  {
    hide ContentLength, ReadHeaders;
  }

  lemma LengthIs(before: seq<string>, line: string, value: string, after: seq<string>)
    requires LengthValue(line, value) && forall l | l in after :: FieldName(l) != "content-length"
    ensures ContentLength(AddHeaders(map[], before + [line] + after)) == ParseSigned(value)
  {
    var first := AddHeaders(map[], before);
    var second := AddHeader(first, line);
    assert AddHeaders(first, [line]) == second;
    LengthLineRead(first, line, value);
    hide AddHeader, ParseSigned, Trim, FieldName, LengthValue;
    AddHeadersAppend(map[], before + [line], after);
    AddHeadersAppend(map[], before, [line]);
    ForeignHeaders(second, after);
  }

  lemma TrimPadded(pad: string, s: string)
    requires AllSpace(pad) && (s == "" || (!IsSpace(s[0]) && !IsSpace(s[|s| - 1])))
    ensures Trim(pad + s) == s && Trim(s) == s
  {
    TrimStartPadded(pad, s);
    TrimStartPadded("", s);
    TrimEndPadded(s, "");
    assert "" + s == s && s + "" == s;
  }

  lemma LengthLineRead(headers: Headers, line: string, value: string)
    requires LengthValue(line, value)
    ensures AddHeader(headers, line) == headers["content-length" := value] && Trim(value) == value
  {
    var i, j :| 0 <= i < j <= |line| && LowerAll(line[..i]) == "content-length" && line[i] == ':'
      && AllSpace(line[i + 1..j]) && line[j..] == value;
    var name, pad := line[..i], line[i + 1..j];
    assert line == name + ":" + (pad + value);
    assert value != "" ==> value[|value| - 1] == line[|line| - 1];
    hide *;
    FieldRead(headers, name, pad, value);
  }

  lemma FieldRead(headers: Headers, name: string, pad: string, value: string)
    requires LowerAll(name) == "content-length" && AllSpace(pad)
    requires value == "" || (!IsSpace(value[0]) && !IsSpace(value[|value| - 1]))
    ensures AddHeader(headers, name + ":" + (pad + value)) == headers["content-length" := value] && Trim(value) == value
  {
    var line := name + ":" + (pad + value);
    assert AllSpace("") && AddHeader(headers, line) == headers[LowerAll(Trim(BeforeColon(line))) := Trim(AfterColon(line))];
    hide *;
    LengthName(name);
    SplitAtColon(name, pad + value);
    TrimPadded("", name);
    TrimPadded(pad, value);
  }

  lemma LengthName(name: string)
    requires LowerAll(name) == "content-length"
    ensures name != "" && forall i | 0 <= i < |name| :: name[i] != ':' && !IsSpace(name[i])
  {
    forall i | 0 <= i < |name| ensures name[i] != ':' && !IsSpace(name[i]) {
      assert ToLower(name[i]) == "content-length"[i];
    }
  }

  lemma {:induction false} NoLengthField(headers: Headers, lines: seq<string>)
    requires "content-length" !in headers && forall l | l in lines :: FieldName(l) != "content-length"
    ensures "content-length" !in AddHeaders(headers, lines)
    decreases |lines|
  {
    if lines != [] {
      assert lines[0] in lines;
      NoLengthField(AddHeader(headers, lines[0]), lines[1..]);
    }
  }

  /** Headers without a length: the body is empty. */
  lemma NoLength(p: Parsers, lines: seq<string>, data: string)
    requires Utf8(p) && forall l | l in lines :: HeaderLine(l) && FieldName(l) != "content-length"
    ensures Read(p, HeadersAnd(lines, data)) == Read(p, data)
  {
    ReadBlock(p, lines, data, map[]);
    NoLengthField(map[], lines);
  }

  /** A stream that ends among the headers ends the thread quietly; a header line that is not text ends it with an exception. */
  lemma BrokenHeaders(p: Parsers, lines: seq<string>, bad: string, rest: string)
    requires Utf8(p) && forall l | l in lines :: HeaderLine(l)
    ensures Read(p, HeaderText(lines)) == Reading([], "", false)
    ensures p.decode(bad + "\n") == None && (forall i | 0 <= i < |bad| :: bad[i] != '\n') ==>
      var r := Read(p, HeaderText(lines) + (bad + "\n" + rest)); r.queue == [] && r.raised
  {
    ReadLines(p, lines, "", map[]);
    assert HeaderText(lines) + "" == HeaderText(lines);
    ReadLines(p, lines, bad + "\n" + rest, map[]);
    if forall i | 0 <= i < |bad| :: bad[i] != '\n' {
      LineLengthIs(bad, rest);
      assert (bad + "\n" + rest)[..|bad| + 1] == bad + "\n";
    }
    hide LineLength;
  }

  // ----- the main results

  /** One frame at the front of the stream. */
  lemma ReadFrame(p: Parsers, f: Frame, rest: string)
    requires Utf8(p) && FrameOk(f)
    ensures Read(p, FrameText(f) + rest)
         == if f.body == "" then Read(p, rest)
            else if p.json(f.body) == NotText then Reading([], rest, true)
            else Read(p, rest).(queue := Deliver(p, f.body) + Read(p, rest).queue)
  {
    var lines := f.before + [LengthLine(f.body)] + f.after;
    var headers := HeadersOf(f);
    ReadBlock(p, lines, f.body + rest, map[]);
    Regroup(HeaderText(lines) + "\r\n", f.body, rest);
    BodyIsBack(headers, f.body, rest);
  }

  lemma BodyIsBack(headers: Headers, body: string, rest: string)
    requires ContentLength(headers) == Some(|body|)
    ensures ReadBody(headers, body + rest) == if body == "" then NoBody else Body(body, rest)
    ensures body == "" ==> body + rest == rest
  {
    assert (body + rest)[..|body|] == body && (body + rest)[|body|..] == rest;
  }

  lemma HeadersOf(f: Frame) returns (headers: Headers)
    requires FrameOk(f)
    ensures forall l | l in f.before + [LengthLine(f.body)] + f.after :: HeaderLine(l)
    ensures headers == AddHeaders(map[], f.before + [LengthLine(f.body)] + f.after)
    ensures ContentLength(headers) == Some(|f.body|)
  {
    var first := AddHeaders(map[], f.before);
    LengthField(first, f.body);
    LengthLineOk(f.body);
    AddHeadersAppend(map[], f.before + [LengthLine(f.body)], f.after);
    AddHeadersAppend(map[], f.before, [LengthLine(f.body)]);
    var second := AddHeader(first, LengthLine(f.body));
    assert AddHeaders(first, [LengthLine(f.body)]) == second;
    ForeignHeaders(second, f.after);
    headers := AddHeaders(second, f.after);
  }

  /** The bodies that reach the queue: the JSON ones, up to the first that is not text at all. */
  function Delivered(p: Parsers, frames: seq<Frame>): seq<string> {
    if frames == [] then []
    else
      var body := frames[0].body;
      if body == "" then Delivered(p, frames[1..])
      else if p.json(body) == NotText then []
      else Deliver(p, body) + Delivered(p, frames[1..])
  }

  /**
   Whatever bytes the bodies contain, the reader recovers the frames one by one: the queue gets
   the JSON bodies in order, and the reader runs to the end of the stream if and only if no
   (non-empty) body fails to be text.
   */
  lemma {:induction false} FramesRoundTrip(p: Parsers, frames: seq<Frame>)
    requires Utf8(p) && forall f | f in frames :: FrameOk(f)
    ensures var r := Read(p, StreamOf(frames));
      && r.queue == Delivered(p, frames)
      && (!r.raised <==> forall f | f in frames :: f.body == "" || p.json(f.body) != NotText)
      && (!r.raised ==> r.unread == "")
  {
    if frames != [] {
      assert frames[0] in frames;
      ReadFrame(p, frames[0], StreamOf(frames[1..]));
      FramesRoundTrip(p, frames[1..]);
      assert forall f :: f in frames <==> f == frames[0] || f in frames[1..];
    }
  }

  function EncodeAll(bodies: seq<string>): string {
    if bodies == [] then "" else Encode(bodies[0]) + EncodeAll(bodies[1..])
  }

  lemma EncodeIsFrame(body: string)
    ensures Encode(body) == FrameText(Frame([], [], body))
  {
    var line := LengthLine(body);
    assert [] + [line] + [] == [line] && [line][1..] == [];
    assert HeaderText([line]) == line + "\r\n" + HeaderText([]);
    assert (line + "\r\n" + "") + "\r\n" == line + "\r\n\r\n";
  }

  /** Any sequence of non-empty JSON bodies written with `_encode` comes out unchanged, and nothing is left over. */
  lemma {:induction false} EncodeRoundTrip(p: Parsers, bodies: seq<string>)
    requires Utf8(p) && forall b | b in bodies :: b != "" && p.json(b) == IsJson
    ensures Read(p, EncodeAll(bodies)) == Reading(bodies, "", false)
  {
    if bodies == [] {
    } else {
      hide Read, Encode;
      assert bodies[0] in bodies && forall b | b in bodies[1..] :: b in bodies;
      EncodeRoundTrip(p, bodies[1..]);
      ReadEncoded(p, bodies[0], EncodeAll(bodies[1..]), bodies[1..]);
      assert bodies == [bodies[0]] + bodies[1..];
    }
  }

  lemma ReadEncoded(p: Parsers, body: string, rest: string, queue: seq<string>)
    requires Utf8(p) && body != "" && p.json(body) == IsJson && Read(p, rest) == Reading(queue, "", false)
    ensures Read(p, Encode(body) + rest) == Reading([body] + queue, "", false)
  {
    hide Read, Encode, FrameText;
    EncodeIsFrame(body);
    ReadFrame(p, Frame([], [], body), rest);
  }
}
