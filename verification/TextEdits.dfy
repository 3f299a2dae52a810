/**
 Applying a list of LSP text edits to a file (contrib/kotlin-cli.py, `_apply_text_edits`): the
 edits are sorted by descending start and each one overwrites a slice of the list of lines.
 The reference is the simultaneous splice of LSP 3.17 "TextEdit[]": all positions refer to the
 original document, and no order among the edits is involved.
 */
module TextEdits {
  import opened Text

  datatype Position = Position(line: nat, character: nat)

  datatype Edit = Edit(start: Position, end: Position, newText: string)

  // ----- the algorithm

  /** The lines of a document, each with its terminator; the last one has none and may be empty. */
  function LspLines(text: string): (lines: seq<string>)
    ensures |lines| > 0
  {
    if text == "" then [""]
    else
      var rest := LspLines(text[1..]);
      if text[0] == '\n' then ["\n"] + rest else [[text[0]] + rest[0]] + rest[1..]
  }

  /** Python's `readlines`: an empty last line is not reported. */
  function ReadLines(text: string): seq<string> {
    var lines := LspLines(text);
    if lines[|lines| - 1] == "" then lines[..|lines| - 1] else lines
  }

  predicate PosLe(a: Position, b: Position) {
    a.line < b.line || (a.line == b.line && a.character <= b.character)
  }

  /** Python's slices clamp to the length of the string. */
  function Take(s: string, n: nat): string {
    s[..Min(n, |s|)]
  }

  function Drop(s: string, n: nat): string {
    s[Min(n, |s|)..]
  }

  /** One iteration of the edit loop; `None` is Python's IndexError. */
  function ApplyOne(lines: seq<string>, e: Edit): Option<seq<string>> {
    if e.start.line >= |lines| || e.end.line >= |lines| then None
    else
      var before := Take(lines[e.start.line], e.start.character);
      var after := Drop(lines[e.end.line], e.end.character);
      Some(lines[..e.start.line] + [before + e.newText + after] + lines[Max(e.start.line, e.end.line + 1)..])
  }

  function ApplyAll(lines: seq<string>, edits: seq<Edit>): Option<seq<string>>
    decreases |edits|
  {
    if edits == [] then Some(lines)
    else
      match ApplyOne(lines, edits[0])
      case None => None
      case Some(next) => ApplyAll(next, edits[1..])
  }

  /** Insertion into a descending list, before the edits that start at the same position. */
  function InsertDescending(e: Edit, edits: seq<Edit>): seq<Edit> {
    if edits == [] || PosLe(edits[0].start, e.start) then [e] + edits
    else [edits[0]] + InsertDescending(e, edits[1..])
  }

  /** Python's stable `sorted(edits, key=start, reverse=True)`. */
  function SortDescending(edits: seq<Edit>): seq<Edit> {
    if edits == [] then [] else InsertDescending(edits[0], SortDescending(edits[1..]))
  }

  function EditedText(text: string, edits: seq<Edit>): Option<string> {
    match ApplyAll(ReadLines(text), SortDescending(edits))
    case None => None
    case Some(lines) => Some(Concat(lines))
  }

  /** The new content of the file, or `None` when an index is out of range and nothing is written. */
  method ApplyTextEdits(text: string, edits: seq<Edit>) returns (r: Option<string>)
    ensures r == EditedText(text, edits)
  {
    var lines := ReadLines(text);
    var sorted := SortDescending(edits);
    var k := 0;
    while k < |sorted|
      invariant 0 <= k <= |sorted|
      invariant ApplyAll(lines, sorted[k..]) == ApplyAll(ReadLines(text), sorted)
    {
      var e := sorted[k];
      assert sorted[k..][0] == e && sorted[k..][1..] == sorted[k + 1..];
      if e.start.line >= |lines| || e.end.line >= |lines| {
        return None;
      }
      var before := Take(lines[e.start.line], e.start.character);
      var after := Drop(lines[e.end.line], e.end.character);
      lines := lines[..e.start.line] + [before + e.newText + after] + lines[Max(e.start.line, e.end.line + 1)..];
      k := k + 1;
    }
    r := Some(Concat(lines));
  }

  // ----- the reference: simultaneous splice

  /** What an edit does to the document: the end of the replaced range, and its replacement. */
  datatype Patch = Patch(hi: nat, newText: string)

  function Offset(lines: seq<string>, p: Position): nat
    requires p.line <= |lines|
  {
    |Concat(lines[..p.line])| + p.character
  }

  /** A position of the document: in a line, and before that line's terminator. */
  predicate ValidPosition(lines: seq<string>, p: Position) {
    p.line < |lines| && if p.line == |lines| - 1 then p.character <= |lines[p.line]| else p.character < |lines[p.line]|
  }

  /** The edits a server may send: in bounds, pairwise disjoint, distinct starts. */
  ghost predicate WellFormed(lines: seq<string>, edits: seq<Edit>) {
    && (forall i | 0 <= i < |edits| :: InBounds(lines, edits[i]))
    && (forall i, j | 0 <= i < j < |edits| ::
          && edits[i].start != edits[j].start
          && (PosLe(edits[i].end, edits[j].start) || PosLe(edits[j].end, edits[i].start)))
  }

  ghost predicate InBounds(lines: seq<string>, e: Edit) {
    ValidPosition(lines, e.start) && ValidPosition(lines, e.end) && PosLe(e.start, e.end)
  }

  ghost function PatchOf(lines: seq<string>, e: Edit): Patch
    requires InBounds(lines, e)
  {
    Patch(Offset(lines, e.end), e.newText)
  }

  /** The edits by the offset at which they start. */
  ghost function Patches(lines: seq<string>, edits: seq<Edit>): map<nat, Patch>
    requires forall i | 0 <= i < |edits| :: InBounds(lines, edits[i])
  {
    if edits == [] then map[]
    else
      var e := edits[|edits| - 1];
      assert InBounds(lines, e);
      Patches(lines, edits[..|edits| - 1])[Offset(lines, e.start) := PatchOf(lines, e)]
  }

  /** Some edit replaces the character at offset `o`. */
  ghost predicate Covered(patches: map<nat, Patch>, o: nat) {
    exists lo | lo in patches :: lo <= o < patches[lo].hi
  }

  /**
   The document from offset `o` on, with every edit performed at once: at each offset comes the
   text of the edit that starts there, then the character itself unless some edit replaces it.
   */
  ghost function Splice(text: string, patches: map<nat, Patch>, o: nat): string
    requires o <= |text|
    decreases |text| - o, 1
  {
    var rest := SpliceKept(text, patches, o);
    if o in patches then patches[o].newText + rest else rest
  }

  ghost function SpliceKept(text: string, patches: map<nat, Patch>, o: nat): string
    requires o <= |text|
    decreases |text| - o, 0
  {
    if o == |text| then ""
    else
      var rest := Splice(text, patches, o + 1);
      if Covered(patches, o) then rest else [text[o]] + rest
  }

  // ----- lines and offsets

  lemma {:induction false} LspLinesConcat(text: string)
    ensures Concat(LspLines(text)) == text
  {
    if text != "" {
      var rest := LspLines(text[1..]);
      LspLinesConcat(text[1..]);
      if text[0] == '\n' {
        assert LspLines(text)[1..] == rest;
      } else {
        assert LspLines(text)[1..] == rest[1..];
      }
    }
  }

  lemma ReadLinesConcat(text: string)
    ensures Concat(ReadLines(text)) == text
  {
    var lines := LspLines(text);
    LspLinesConcat(text);
    var n := |lines| - 1;
    assert lines == lines[..n] + [lines[n]];
    ConcatSplit(lines[..n], [lines[n]]);
  }

  /** The text before and after a position. */
  lemma SplitAt(lines: seq<string>, p: Position)
    requires p.line < |lines| && p.character <= |lines[p.line]|
    ensures Offset(lines, p) <= |Concat(lines)|
    ensures Concat(lines)[..Offset(lines, p)] == Concat(lines[..p.line]) + lines[p.line][..p.character]
    ensures Concat(lines)[Offset(lines, p)..] == lines[p.line][p.character..] + Concat(lines[p.line + 1..])
  {
    var l, c := p.line, p.character;
    assert lines == lines[..l] + ([lines[l]] + lines[l + 1..]);
    ConcatSplit(lines[..l], [lines[l]] + lines[l + 1..]);
    assert Concat([lines[l]] + lines[l + 1..]) == lines[l] + Concat(lines[l + 1..]);
    assert lines[l] == lines[l][..c] + lines[l][c..];
  }

  /** Positions of the document are ordered like their offsets. */
  lemma OffsetOrder(lines: seq<string>, a: Position, b: Position)
    requires ValidPosition(lines, a) && ValidPosition(lines, b)
    ensures PosLe(a, b) <==> Offset(lines, a) <= Offset(lines, b)
    ensures Offset(lines, a) == Offset(lines, b) ==> a == b
  {
    if a.line < b.line {
      LineStep(lines, a, b.line);
    } else if b.line < a.line {
      LineStep(lines, b, a.line);
    }
  }

  lemma LineStep(lines: seq<string>, a: Position, l: nat)
    requires ValidPosition(lines, a) && a.line < l < |lines|
    ensures Offset(lines, a) < |Concat(lines[..l])|
  {
    var head := lines[..a.line + 1];
    assert lines[..l] == head + lines[a.line + 1..l];
    ConcatSplit(head, lines[a.line + 1..l]);
    assert head == lines[..a.line] + [lines[a.line]];
    ConcatSplit(lines[..a.line], [lines[a.line]]);
  }

  // ----- what the lines and positions of a document are

  /** The line ends in a line break, the only one it holds. */
  predicate Terminated(line: string) {
    line != "" && forall i | 0 <= i < |line| :: line[i] == '\n' <==> i == |line| - 1
  }

  /** Every line but the last is terminated, and the last one holds no line break. */
  lemma {:induction false} LineBreaks(text: string)
    ensures var lines := LspLines(text);
      (forall l | 0 <= l < |lines| - 1 :: Terminated(lines[l])) && '\n' !in lines[|lines| - 1]
  {
    if text != "" {
      LineBreaks(text[1..]);
      var rest := LspLines(text[1..]);
      if text[0] == '\n' {
        assert Terminated("\n");
      }
    }
  }

  /** The point before which the document has `o` characters: so many line breaks, and so many characters since the last. */
  predicate PointsAt(text: string, p: Position, o: nat) {
    && o <= |text| && multiset(text[..o])['\n'] == p.line
    && p.character <= o && '\n' !in text[o - p.character..o]
    && (p.character < o ==> text[o - p.character - 1] == '\n')
  }

  lemma BreaksOf(before: string, line: string)
    requires Terminated(line)
    ensures multiset(before + line)['\n'] == multiset(before)['\n'] + 1
    ensures before + line != "" && (before + line)[|before + line| - 1] == '\n'
  {
    assert line == line[..|line| - 1] + ['\n'];
    assert multiset(line[..|line| - 1])['\n'] == 0;
  }

  lemma {:induction false} BreaksBefore(lines: seq<string>, l: nat)
    requires l <= |lines| && forall i | 0 <= i < l :: Terminated(lines[i])
    ensures multiset(Concat(lines[..l]))['\n'] == l
    ensures l > 0 ==> var before := Concat(lines[..l]); before != "" && before[|before| - 1] == '\n'
  {
    if l > 0 {
      BreaksBefore(lines, l - 1);
      assert lines[..l] == lines[..l - 1] + [lines[l - 1]];
      ConcatSplit(lines[..l - 1], [lines[l - 1]]);
      assert Concat([lines[l - 1]]) == lines[l - 1];
      BreaksOf(Concat(lines[..l - 1]), lines[l - 1]);
    }
  }

  lemma PositionPoints(text: string, p: Position)
    requires ValidPosition(LspLines(text), p)
    ensures PointsAt(text, p, Offset(LspLines(text), p))
  {
    var lines := LspLines(text);
    var before, start := Concat(lines[..p.line]), lines[p.line][..p.character];
    LineBreaks(text);
    assert '\n' !in start by {
      var line := lines[p.line];
      assert p.line < |lines| - 1 ==> start == line[..|line| - 1][..p.character];
    }
    LspLinesConcat(text);
    SplitAt(lines, p);
    BreaksBefore(lines, p.line);
    assert Offset(lines, p) == |before| + p.character;
    hide *;
    PointBehind(text, before, start, p);
  }

  lemma PointBehind(text: string, before: string, start: string, p: Position)
    requires before + start <= text && '\n' !in start && |start| == p.character
    requires multiset(before)['\n'] == p.line && (before != "" ==> before[|before| - 1] == '\n')
    ensures PointsAt(text, p, |before| + p.character)
  {
    assert text[..|before| + p.character] == before + start;
    assert text[|before|..|before| + p.character] == start;
    assert multiset(start)['\n'] == 0;
  }

  lemma PointIsOne(text: string, p: Position, q: Position, o: nat)
    requires PointsAt(text, p, o) && PointsAt(text, q, o)
    ensures p.character <= q.character
  {
  }

  lemma {:induction false} PositionAt(lines: seq<string>, o: nat) returns (p: Position)
    requires lines != [] && o <= |Concat(lines)|
    ensures ValidPosition(lines, p) && Offset(lines, p) == o
  {
    if |lines| == 1 || o < |lines[0]| {
      p := Position(0, o);
    } else {
      p := PositionAt(lines[1..], o - |lines[0]|);
      assert lines[..p.line + 1] == [lines[0]] + lines[1..][..p.line];
      p := Position(p.line + 1, p.character);
    }
  }

  /**
   Positions and offsets.  The valid positions of a document are exactly the points between its characters, one for each:
   the line is the number of line breaks before the point, the character the distance from the last of them.
   */
  lemma Coordinates(text: string, p: Position, o: nat)
    ensures ValidPosition(LspLines(text), p) && Offset(LspLines(text), p) == o <==> PointsAt(text, p, o)
  {
    if ValidPosition(LspLines(text), p) && Offset(LspLines(text), p) == o {
      PositionPoints(text, p);
    }
    if PointsAt(text, p, o) {
      LspLinesConcat(text);
      var q := PositionAt(LspLines(text), o);
      PositionPoints(text, q);
      PointIsOne(text, p, q, o);
      PointIsOne(text, q, p, o);
    }
  }

  /** The point behind a final line break: a line of its own in LSP 3.17, but none that `readlines` reports. */
  predicate OnEmptyLastLine(text: string, o: nat) {
    o == |text| && (text == "" || text[|text| - 1] == '\n')
  }

  lemma Unreported(text: string, p: Position)
    requires ValidPosition(LspLines(text), p)
    ensures p.line >= |ReadLines(text)| <==> OnEmptyLastLine(text, Offset(LspLines(text), p))
  {
    var lines := LspLines(text);
    var o := Offset(lines, p);
    EmptyLastLine(text);
    assert p.line == |lines| - 1 && lines[p.line] == "" ==> p == Position(|lines| - 1, 0);
    if OnEmptyLastLine(text, o) {
      AtTheEnd(text, p);
    }
    hide Offset, LspLines;
  }

  lemma PointBehindBreak(text: string, p: Position, o: nat)
    requires PointsAt(text, p, o) && (o == 0 || text[o - 1] == '\n')
    ensures p.character == 0
  {
  }

  lemma AtTheEnd(text: string, p: Position)
    requires ValidPosition(LspLines(text), p) && OnEmptyLastLine(text, Offset(LspLines(text), p))
    ensures p.line == |LspLines(text)| - 1 && LspLines(text)[p.line] == ""
  {
    var lines := LspLines(text);
    PositionPoints(text, p);
    PointBehindBreak(text, p, |text|);
    LspLinesConcat(text);
    SplitAt(lines, p);
    assert lines[p.line][p.character..] == lines[p.line];
    assert text[|text|..] == "";
    LineBreaks(text);
    assert !Terminated("");
    hide Concat, LspLines, Offset, Terminated, PointsAt;
  }

  lemma EmptyLastLine(text: string)
    ensures var lines := LspLines(text); lines[|lines| - 1] == "" ==>
      Offset(lines, Position(|lines| - 1, 0)) == |text| && (text == "" || text[|text| - 1] == '\n')
  {
    var lines := LspLines(text);
    var n := |lines| - 1;
    if lines[n] == "" {
      LineBreaks(text);
      ReadLinesConcat(text);
      assert ReadLines(text) == lines[..n];
      hide LspLines, ReadLines, Terminated;
      BreaksBefore(lines, n);
    }
  }

  // ----- one edit

  /** The current lines still equal the original ones before position `p`. */
  ghost predicate Agrees(cur: seq<string>, lines: seq<string>, p: Position) {
    && p.line < |cur| && p.line < |lines|
    && p.character <= |cur[p.line]| && p.character <= |lines[p.line]|
    && cur[..p.line] == lines[..p.line]
    && cur[p.line][..p.character] == lines[p.line][..p.character]
  }

  lemma AgreesBefore(cur: seq<string>, lines: seq<string>, p: Position, q: Position)
    requires Agrees(cur, lines, p) && PosLe(q, p) && q.line < |lines| && q.character <= |lines[q.line]|
    ensures Agrees(cur, lines, q)
  {
    assert cur[..q.line] == cur[..p.line][..q.line];
    assert lines[..q.line] == lines[..p.line][..q.line];
    if q.line < p.line {
      assert cur[q.line] == cur[..p.line][q.line] == lines[..p.line][q.line];
    } else {
      assert cur[q.line][..q.character] == cur[p.line][..p.character][..q.character];
      assert lines[q.line][..q.character] == lines[p.line][..p.character][..q.character];
    }
  }

  lemma OneEditAgrees(cur: seq<string>, lines: seq<string>, e: Edit)
    requires PosLe(e.start, e.end) && Agrees(cur, lines, e.start) && Agrees(cur, lines, e.end)
    ensures ApplyOne(cur, e).Some? && Agrees(ApplyOne(cur, e).value, lines, e.start)
  {
    var sl, c := e.start.line, e.start.character;
    var next := ApplyOne(cur, e).value;
    assert next[..sl] == cur[..sl];
    assert next[sl][..c] == cur[sl][..c];
  }

  lemma OneEditText(cur: seq<string>, lines: seq<string>, e: Edit)
    requires PosLe(e.start, e.end) && Agrees(cur, lines, e.start) && Agrees(cur, lines, e.end)
    ensures Offset(lines, e.start) <= |Concat(cur)| && Offset(lines, e.end) <= |Concat(cur)|
    ensures ApplyOne(cur, e).Some?
    ensures Concat(ApplyOne(cur, e).value)
         == Concat(cur)[..Offset(lines, e.start)] + e.newText + Concat(cur)[Offset(lines, e.end)..]
  {
    var before := cur[e.start.line][..e.start.character];
    var after := cur[e.end.line][e.end.character..];
    assert ApplyOne(cur, e) == Some(cur[..e.start.line] + [before + e.newText + after] + cur[e.end.line + 1..]);
    ConcatReplaced(cur, e.start.line, e.end.line + 1, before + e.newText + after);
    Reassociate(Concat(cur[..e.start.line]), before, e.newText, after, Concat(cur[e.end.line + 1..]));
    assert Offset(cur, e.start) == Offset(lines, e.start);
    assert Offset(cur, e.end) == Offset(lines, e.end);
    SplitAt(cur, e.start);
    SplitAt(cur, e.end);
  }

  lemma Reassociate(a: string, b: string, c: string, d: string, e: string)
    ensures a + (b + c + d) + e == (a + b) + c + (d + e)
  {
  }

  lemma ConcatReplaced(cur: seq<string>, lo: nat, hi: nat, s: string)
    requires lo <= hi <= |cur|
    ensures Concat(cur[..lo] + [s] + cur[hi..]) == Concat(cur[..lo]) + s + Concat(cur[hi..])
  {
    ConcatSplit(cur[..lo] + [s], cur[hi..]);
    ConcatSplit(cur[..lo], [s]);
  }

  // ----- the splice, one edit at a time

  /** Before the first edit the document is unchanged. */
  lemma {:induction false} SpliceBefore(text: string, patches: map<nat, Patch>, o: nat, h: nat)
    requires o <= h <= |text| && forall lo | lo in patches :: h <= lo
    ensures Splice(text, patches, o) == text[o..h] + Splice(text, patches, h)
    decreases h - o
  {
    if o < h {
      SpliceBefore(text, patches, o + 1, h);
    }
  }

  /** After an edit's own range, it no longer matters. */
  lemma {:induction false} SpliceAfter(text: string, patches: map<nat, Patch>, lo: nat, p: Patch, o: nat)
    requires lo < o && p.hi <= o <= |text| && lo !in patches
    ensures Splice(text, patches[lo := p], o) == Splice(text, patches, o)
    decreases |text| - o
  {
    if o < |text| {
      CoveredAfter(patches, lo, p, o);
      SpliceAfter(text, patches, lo, p, o + 1);
    }
  }

  lemma CoveredAfter(patches: map<nat, Patch>, lo: nat, p: Patch, o: nat)
    requires p.hi <= o && lo !in patches
    ensures Covered(patches[lo := p], o) <==> Covered(patches, o)
  {
    if l :| l in patches && l <= o < patches[l].hi {
      assert l in patches[lo := p];
    }
  }

  /** Inside an edit's range, the original characters are dropped. */
  lemma {:induction false} SpliceInside(text: string, patches: map<nat, Patch>, lo: nat, p: Patch, o: nat)
    requires lo < o <= p.hi <= |text| && forall l | l in patches :: lo < l && p.hi <= l
    ensures Splice(text, patches[lo := p], o) == Splice(text, patches, p.hi)
    decreases p.hi - o
  {
    if o == p.hi {
      SpliceAfter(text, patches, lo, p, o);
    } else {
      assert lo in patches[lo := p] && Covered(patches[lo := p], o);
      SpliceInside(text, patches, lo, p, o + 1);
    }
  }

  /** At its start an edit inserts its text and skips to its end. */
  lemma SpliceStart(text: string, patches: map<nat, Patch>, lo: nat, p: Patch)
    requires lo <= p.hi <= |text| && forall l | l in patches :: lo < l && p.hi <= l
    ensures Splice(text, patches[lo := p], lo) == p.newText + Splice(text, patches, p.hi)
  {
    if lo < p.hi {
      assert lo in patches[lo := p] && Covered(patches[lo := p], lo);
      SpliceInside(text, patches, lo, p, lo + 1);
    } else if lo < |text| {
      CoveredAfter(patches, lo, p, lo);
      SpliceAfter(text, patches, lo, p, lo + 1);
    }
  }

  lemma SpliceAdd(text: string, patches: map<nat, Patch>, lo: nat, p: Patch)
    requires lo <= p.hi <= |text| && forall l | l in patches :: lo < l && p.hi <= l
    ensures var before := Splice(text, patches, 0);
      && p.hi <= |before|
      && Splice(text, patches[lo := p], 0) == before[..lo] + p.newText + before[p.hi..]
  {
    SpliceBefore(text, patches[lo := p], 0, lo);
    SpliceStart(text, patches, lo, p);
    SpliceBefore(text, patches, 0, p.hi);
    HeadAndTail(text[0..p.hi], Splice(text, patches, p.hi), lo);
    assert text[0..p.hi][..lo] == text[0..lo];
  }

  lemma HeadAndTail(head: string, tail: string, n: nat)
    requires n <= |head|
    ensures (head + tail)[..n] == head[..n] && (head + tail)[|head|..] == tail
  {
  }

  lemma {:induction false} SpliceNothing(text: string, o: nat)
    requires o <= |text|
    ensures Splice(text, map[], o) == text[o..]
    decreases |text| - o
  {
    if o < |text| {
      SpliceNothing(text, o + 1);
      assert text[o..] == [text[o]] + text[o + 1..];
    }
  }

  // ----- sorting

  ghost predicate Descending(edits: seq<Edit>) {
    forall i, j | 0 <= i < j < |edits| :: PosLe(edits[j].start, edits[i].start)
  }

  lemma {:induction false} InsertDescendingKeeps(e: Edit, edits: seq<Edit>)
    ensures multiset(InsertDescending(e, edits)) == multiset(edits) + multiset{e}
  {
    if edits == [] || PosLe(edits[0].start, e.start) {
    } else {
      InsertDescendingKeeps(e, edits[1..]);
      assert edits == [edits[0]] + edits[1..];
    }
  }

  lemma {:induction false} InsertDescendingSorts(e: Edit, edits: seq<Edit>)
    requires Descending(edits)
    ensures Descending(InsertDescending(e, edits))
  {
    if edits == [] || PosLe(edits[0].start, e.start) {
    } else {
      var t := InsertDescending(e, edits[1..]);
      InsertDescendingSorts(e, edits[1..]);
      InsertDescendingKeeps(e, edits[1..]);
      forall j | 0 <= j < |t| ensures PosLe(t[j].start, edits[0].start) {
        assert t[j] in multiset(t);
      }
    }
  }

  lemma {:induction false} SortDescendingSorts(edits: seq<Edit>)
    ensures multiset(SortDescending(edits)) == multiset(edits) && Descending(SortDescending(edits))
  {
    if edits != [] {
      SortDescendingSorts(edits[1..]);
      InsertDescendingKeeps(edits[0], SortDescending(edits[1..]));
      InsertDescendingSorts(edits[0], SortDescending(edits[1..]));
      assert edits == [edits[0]] + edits[1..];
    }
  }

  // ----- the main results

  /** What holds in the loop over the sorted edits once `done` have been applied. */
  ghost predicate Progress(text: string, done: seq<Edit>, cur: seq<string>)
    requires forall i | 0 <= i < |done| :: InBounds(LspLines(text), done[i])
  {
    && (if done == [] then cur == ReadLines(text) else Agrees(cur, LspLines(text), done[|done| - 1].start))
    && Concat(cur) == Splice(text, Patches(LspLines(text), done), 0)
  }

  lemma {:induction false} ApplyRest(text: string, all: seq<Edit>, k: nat, cur: seq<string>)
    requires k <= |all| && WellFormed(LspLines(text), all) && Descending(all)
    requires forall d | d in all[..k] :: InBounds(LspLines(text), d)
    requires Progress(text, all[..k], cur)
    requires forall e | e in all :: e.end.line < |ReadLines(text)|
    ensures ApplyAll(cur, all[k..]).Some?
    ensures Concat(ApplyAll(cur, all[k..]).value) == Splice(text, Patches(LspLines(text), all), 0)
    decreases |all| - k
  {
    hide Splice, Patches, Agrees, ApplyOne, ValidPosition, Descending, Concat;
    if k == |all| {
      assert all[..k] == all;
    } else {
      EarlierStarts(LspLines(text), all, k);
      var next := StepOne(text, all[..k], all[k], cur);
      assert all[k..][1..] == all[k + 1..] && all[..k + 1] == all[..k] + [all[k]];
      ApplyRest(text, all, k + 1, next);
    }
  }

  lemma StepOne(text: string, done: seq<Edit>, e: Edit, cur: seq<string>) returns (next: seq<string>)
    requires InBounds(LspLines(text), e) && e.end.line < |ReadLines(text)|
    requires forall d | d in done :: InBounds(LspLines(text), d) && PosLe(e.end, d.start) && d.start != e.start
    requires Progress(text, done, cur)
    ensures ApplyOne(cur, e) == Some(next) && Progress(text, done + [e], next)
  {
    var lines := LspLines(text);
    AgreesAhead(text, lines, done, cur, e);
    OneEditAgrees(cur, lines, e);
    next := ApplyOne(cur, e).value;
    OneEditText(cur, lines, e);
    PatchesBehind(text, done, e);
    SpliceAdd(text, Patches(lines, done), Offset(lines, e.start), PatchOf(lines, e));
    assert (done + [e])[..|done|] == done;
  }

  /** The edits done before `all[k]` begin behind its end. */
  lemma EarlierStarts(lines: seq<string>, all: seq<Edit>, k: nat)
    requires k < |all| && WellFormed(lines, all) && Descending(all)
    ensures InBounds(lines, all[k])
    ensures forall d | d in all[..k] :: InBounds(lines, d) && PosLe(all[k].end, d.start) && d.start != all[k].start
  {
    assert all[k] in all;
    forall d | d in all[..k] ensures InBounds(lines, d) && PosLe(all[k].end, d.start) && d.start != all[k].start {
      var i :| 0 <= i < k && all[i] == d;
      assert d in all;
    }
  }

  /** The lines that edit `e` touches are still those of the original document. */
  lemma AgreesAhead(text: string, lines: seq<string>, done: seq<Edit>, cur: seq<string>, e: Edit)
    requires lines == LspLines(text) && InBounds(lines, e) && e.end.line < |ReadLines(text)|
    requires forall d | d in done :: PosLe(e.end, d.start)
    requires if done == [] then cur == ReadLines(text) else Agrees(cur, lines, done[|done| - 1].start)
    ensures Agrees(cur, lines, e.start) && Agrees(cur, lines, e.end)
  {
    if done == [] {
      assert Agrees(cur, lines, e.end);
    } else {
      var d := done[|done| - 1];
      assert d in done;
      AgreesBefore(cur, lines, d.start, e.end);
    }
    AgreesBefore(cur, lines, e.end, e.start);
  }

  /** The edits done before edit `e` lie behind it in the document. */
  lemma PatchesBehind(text: string, done: seq<Edit>, e: Edit)
    requires InBounds(LspLines(text), e)
    requires forall d | d in done :: InBounds(LspLines(text), d) && PosLe(e.end, d.start) && d.start != e.start
    ensures Offset(LspLines(text), e.start) <= Offset(LspLines(text), e.end) <= |text|
    ensures forall l | l in Patches(LspLines(text), done) ::
      Offset(LspLines(text), e.start) < l && Offset(LspLines(text), e.end) <= l
  {
    var lines := LspLines(text);
    LspLinesConcat(text);
    SplitAt(lines, e.end);
    OffsetOrder(lines, e.start, e.end);
    if done != [] {
      var d := done[|done| - 1];
      assert d in done;
      OffsetOrder(lines, e.end, d.start);
      OffsetOrder(lines, e.start, d.start);
      PatchesBehind(text, done[..|done| - 1], e);
    }
  }

  lemma WellFormedOrder(lines: seq<string>, a: seq<Edit>, b: seq<Edit>)
    requires WellFormed(lines, a) && multiset(a) == multiset(b)
    ensures WellFormed(lines, b) && forall e :: e in a <==> e in b
  {
    assert forall e :: e in a <==> e in multiset(a);
    assert forall e :: e in b <==> e in multiset(b);
    assert forall i | 0 <= i < |b| :: b[i] in a;
    forall i, j | 0 <= i < j < |b|
      ensures b[i].start != b[j].start && (PosLe(b[i].end, b[j].start) || PosLe(b[j].end, b[i].start))
    {
      if b[i] == b[j] {
        TwoOccurrences(b, i, j);
        var k, l := Occurrences(a, b[i]);
        assert false;
      }
    }
  }

  /** The edits by offset do not depend on the order in which they are listed. */
  lemma PatchesOrder(lines: seq<string>, a: seq<Edit>, b: seq<Edit>)
    requires WellFormed(lines, a) && WellFormed(lines, b) && forall e :: e in a <==> e in b
    ensures Patches(lines, a) == Patches(lines, b)
  {
    PatchesHold(lines, a);
    PatchesHold(lines, b);
  }

  lemma {:induction false} PatchesHold(lines: seq<string>, edits: seq<Edit>)
    requires WellFormed(lines, edits)
    ensures forall e | e in edits :: Offset(lines, e.start) in Patches(lines, edits)
    ensures forall e | e in edits :: Patches(lines, edits)[Offset(lines, e.start)] == PatchOf(lines, e)
    ensures forall lo | lo in Patches(lines, edits) :: exists e | e in edits :: Offset(lines, e.start) == lo
  {
    if edits != [] {
      var front, e := edits[..|edits| - 1], edits[|edits| - 1];
      assert edits == front + [e];
      PatchesHold(lines, front);
      StartsApart(lines, edits);
      hide Offset, PatchOf, ValidPosition, PosLe;
    }
  }

  lemma StartsApart(lines: seq<string>, edits: seq<Edit>)
    requires WellFormed(lines, edits) && edits != []
    ensures forall f | f in edits[..|edits| - 1] :: Offset(lines, f.start) != Offset(lines, edits[|edits| - 1].start)
  {
    assert forall i | 0 <= i < |edits| :: edits[i].start.line <= |lines|;
    hide Offset, ValidPosition, PosLe;
    forall f | f in edits[..|edits| - 1] ensures Offset(lines, f.start) != Offset(lines, edits[|edits| - 1].start) {
      var i :| 0 <= i < |edits| - 1 && edits[i] == f;
      OffsetOrder(lines, edits[i].start, edits[|edits| - 1].start);
    }
  }

  lemma TwoOccurrences(s: seq<Edit>, i: nat, j: nat)
    requires i < j < |s| && s[i] == s[j]
    ensures multiset(s)[s[i]] >= 2
  {
    assert s == s[..j] + [s[j]] + s[j + 1..];
    assert s[..j][i] == s[j];
    assert s[j] in multiset(s[..j]);
  }

  lemma {:induction false} Occurrences(s: seq<Edit>, e: Edit) returns (k: nat, l: nat)
    requires multiset(s)[e] >= 2
    ensures k < l < |s| && s[k] == e && s[l] == e
  {
    assert s == [s[0]] + s[1..];
    if s[0] == e {
      assert e in multiset(s[1..]);
      k := 0;
      l :| 1 <= l < |s| && s[l] == e;
    } else {
      k, l := Occurrences(s[1..], e);
      k, l := k + 1, l + 1;
    }
  }

  /**
   For every list of in-bounds, pairwise disjoint edits with distinct starts, in whatever order
   they are listed, the bottom-to-top slice updates give the simultaneous splice, provided no edit
   reaches the empty line after a final line break; if one does, the code fails.
   */
  lemma EditsSplice(text: string, edits: seq<Edit>)
    requires WellFormed(LspLines(text), edits)
    ensures EditedText(text, edits)
         == if exists e | e in edits :: OnEmptyLastLine(text, Offset(LspLines(text), e.end))
            then None else Some(Splice(text, Patches(LspLines(text), edits), 0))
  {
    var sorted := SortDescending(edits);
    SortDescendingSorts(edits);
    WellFormedOrder(LspLines(text), edits, sorted);
    forall e | e in edits
      ensures e.end.line >= |ReadLines(text)| <==> OnEmptyLastLine(text, Offset(LspLines(text), e.end))
    {
      assert InBounds(LspLines(text), e);
      Unreported(text, e.end);
    }
    if forall e | e in edits :: e.end.line < |ReadLines(text)| {
      SortedSplice(text, sorted);
      PatchesOrder(LspLines(text), edits, sorted);
    } else {
      var e :| e in sorted && e.end.line >= |ReadLines(text)|;
      LastLineFails(text, sorted, e);
    }
  }

  lemma SortedSplice(text: string, sorted: seq<Edit>)
    requires WellFormed(LspLines(text), sorted) && Descending(sorted)
    requires forall e | e in sorted :: e.end.line < |ReadLines(text)|
    ensures ApplyAll(ReadLines(text), sorted).Some?
    ensures Concat(ApplyAll(ReadLines(text), sorted).value) == Splice(text, Patches(LspLines(text), sorted), 0)
  {
    ReadLinesConcat(text);
    SpliceNothing(text, 0);
    assert sorted[..0] == [] && sorted[0..] == sorted;
    ApplyRest(text, sorted, 0, ReadLines(text));
  }

  /** An edit that ends on the empty last line makes the very first slice access fail. */
  lemma LastLineFails(text: string, sorted: seq<Edit>, e: Edit)
    requires WellFormed(LspLines(text), sorted) && Descending(sorted)
    requires e in sorted && e.end.line >= |ReadLines(text)|
    ensures ApplyAll(ReadLines(text), sorted) == None
  {
    var first := sorted[0];
    var i :| 0 <= i < |sorted| && sorted[i] == e;
    assert first in sorted;
    assert ApplyOne(ReadLines(text), first) == None;
  }

  /**
   Two insertions at one position, which LSP 3.17 wants in the order of the list, come out in the
   opposite order; so the result is the wanted one exactly if the two texts commute.
   */
  lemma SameStartReversed(text: string, p: Position, a: string, b: string)
    requires ValidPosition(LspLines(text), p)
    ensures Offset(LspLines(text), p) <= |text|
    ensures var o, edited := Offset(LspLines(text), p), EditedText(text, [Edit(p, p, a), Edit(p, p, b)]);
      if OnEmptyLastLine(text, o) then edited == None
      else
        && edited == Some(text[..o] + b + a + text[o..])
        && (edited == Some(text[..o] + a + b + text[o..]) <==> a + b == b + a)
  {
    LspLinesConcat(text);
    SplitAt(LspLines(text), p);
    Unreported(text, p);
    hide *;
    if p.line < |ReadLines(text)| {
      TwoInsertions(text, p, a, b);
    } else {
      SecondFails(text, Edit(p, p, a), Edit(p, p, b));
    }
  }

  lemma TwoInsertions(text: string, p: Position, a: string, b: string)
    requires ValidPosition(LspLines(text), p) && p.line < |ReadLines(text)| && Offset(LspLines(text), p) <= |text|
    ensures var o, edited := Offset(LspLines(text), p), EditedText(text, [Edit(p, p, a), Edit(p, p, b)]);
      && edited == Some(text[..o] + b + a + text[o..])
      && (edited == Some(text[..o] + a + b + text[o..]) <==> a + b == b + a)
  {
    var lines, cur, o := LspLines(text), ReadLines(text), Offset(LspLines(text), p);
    ReadLinesConcat(text);
    assert Agrees(cur, lines, p);
    SortTwo(Edit(p, p, a), Edit(p, p, b));
    var mid := InsertOne(cur, lines, p, a);
    var end := InsertOne(mid, lines, p, b);
    HeadAndTail(text[..o], a + text[o..], o);
    Regroup(text[..o], a, text[o..]);
    Regroup(text[..o] + b, a, text[o..]);
    ApplyTwo(cur, mid, end, Edit(p, p, a), Edit(p, p, b));
    MiddleCommutes(text[..o], a, b, text[o..]);
  }

  lemma ApplyTwo(cur: seq<string>, mid: seq<string>, end: seq<string>, first: Edit, second: Edit)
    requires ApplyOne(cur, first) == Some(mid) && ApplyOne(mid, second) == Some(end)
    ensures ApplyAll(cur, [first, second]) == Some(end)
  {
    assert [first, second][1..] == [second] && [second][1..] == [];
    assert ApplyAll(end, []) == Some(end);
    assert ApplyAll(mid, [second]) == Some(end);
  }

  /** Edits with the same start keep their order, although the sort is descending. */
  lemma SortTwo(e: Edit, f: Edit)
    requires e.start == f.start
    ensures SortDescending([e, f]) == [e, f]
  {
    assert [e, f][1..] == [f];
    assert SortDescending([f]) == [f];
  }

  lemma InsertOne(cur: seq<string>, lines: seq<string>, p: Position, s: string) returns (next: seq<string>)
    requires Agrees(cur, lines, p)
    ensures Offset(lines, p) <= |Concat(cur)| && Agrees(next, lines, p)
    ensures ApplyOne(cur, Edit(p, p, s)) == Some(next)
    ensures Concat(next) == Concat(cur)[..Offset(lines, p)] + s + Concat(cur)[Offset(lines, p)..]
  {
    OneEditAgrees(cur, lines, Edit(p, p, s));
    OneEditText(cur, lines, Edit(p, p, s));
    next := ApplyOne(cur, Edit(p, p, s)).value;
  }

  lemma MiddleCommutes(head: string, a: string, b: string, tail: string)
    ensures head + b + a + tail == head + a + b + tail <==> a + b == b + a
  {
    MiddleAt(head, b, a, tail);
    MiddleAt(head, a, b, tail);
  }

  lemma MiddleAt(head: string, a: string, b: string, tail: string)
    ensures head + a + b + tail == head + (a + b) + tail
    ensures (head + a + b + tail)[|head|..|head| + |a| + |b|] == a + b
  {
  }

  /**
   A character beyond the end `p` of a line, which LSP 3.17 takes for that end, is taken for the point behind the line
   break; so an insertion there comes out as wanted exactly if its text commutes with the line break.
   */
  lemma BeyondLineEnd(text: string, p: Position, o: nat, c: nat, a: string)
    requires PointsAt(text, p, o) && o < |text| && text[o] == '\n' && p.character < c
    ensures var at := Position(p.line, c); var edited := EditedText(text, [Edit(at, at, a)]);
      && edited == Some(text[..o] + "\n" + a + text[o + 1..])
      && (edited == Some(text[..o] + a + "\n" + text[o + 1..]) <==> "\n" + a == a + "\n")
  {
    var at := Position(p.line, c);
    Coordinates(text, p, o);
    ReadLinesConcat(text);
    LineEnd(text, p, o);
    hide LspLines, ReadLines;
    var next := InsertBehind(ReadLines(text), LspLines(text), p, c, a);
    assert SortDescending([Edit(at, at, a)]) == [Edit(at, at, a)];
    assert [Edit(at, at, a)][1..] == [] && ApplyAll(next, []) == Some(next);
    assert text[..o + 1] == text[..o] + "\n";
    MiddleCommutes(text[..o], "\n", a, text[o + 1..]);
  }

  /** A line ends at its line break. */
  lemma LineEnd(text: string, p: Position, o: nat)
    requires ValidPosition(LspLines(text), p) && Offset(LspLines(text), p) == o < |text| && text[o] == '\n'
    ensures var cur := ReadLines(text);
      p.line < |cur| && Agrees(cur, LspLines(text), Position(p.line, p.character + 1)) && |cur[p.line]| == p.character + 1
  {
    Unreported(text, p);
    LineBreaks(text);
    CharAt(text, p);
    assert LspLines(text)[p.line][p.character] in LspLines(text)[p.line];
    hide LspLines, Concat, Offset;
  }

  lemma CharAt(text: string, p: Position)
    requires ValidPosition(LspLines(text), p)
    ensures var line, o := LspLines(text)[p.line], Offset(LspLines(text), p);
      o < |text| ==> p.character < |line| && line[p.character] == text[o]
  {
    var lines := LspLines(text);
    LspLinesConcat(text);
    SplitAt(lines, p);
    hide LspLines, Offset;
    assert p.line == |lines| - 1 ==> Concat(lines[p.line + 1..]) == "";
  }

  lemma InsertBehind(cur: seq<string>, lines: seq<string>, p: Position, c: nat, a: string) returns (next: seq<string>)
    requires p.line < |cur| && Agrees(cur, lines, Position(p.line, p.character + 1))
    requires p.character < c && |cur[p.line]| == p.character + 1
    ensures Offset(lines, p) + 1 <= |Concat(cur)|
    ensures ApplyOne(cur, Edit(Position(p.line, c), Position(p.line, c), a)) == Some(next)
    ensures Concat(next) == Concat(cur)[..Offset(lines, p) + 1] + a + Concat(cur)[Offset(lines, p) + 1..]
  {
    next := InsertOne(cur, lines, Position(p.line, p.character + 1), a);
    assert Take(cur[p.line], c) == Take(cur[p.line], p.character + 1);
    assert Drop(cur[p.line], c) == Drop(cur[p.line], p.character + 1);
  }

  /** What LSP 3.17 wants of an insertion of `a` at `o` followed by a replacement of `text[o..h]` by `b`. */
  function InsertedThenReplaced(text: string, o: nat, h: nat, a: string, b: string): string
    requires o <= h <= |text|
  {
    text[..o] + (a + (b + text[h..]))
  }

  /** What is left of the insertion and the text behind it. */
  function Eaten(text: string, o: nat, h: nat, inLine: bool, a: string): string
    requires o <= h <= |text|
  {
    if inLine then (a + text[o..])[h - o..] else text[h..]
  }

  /**
   What comes out: on one line, the replacement takes as many characters as are between the positions from what now
   follows the first, inserted text included; from a later line on, it swallows the insertion altogether.
   */
  function InsertionEaten(text: string, o: nat, h: nat, inLine: bool, a: string, b: string): string
    requires o <= h <= |text|
  {
    text[..o] + (b + Eaten(text, o, h, inLine, a))
  }

  /** That makes no difference. */
  predicate NothingEaten(text: string, o: nat, h: nat, inLine: bool, a: string, b: string)
    requires o <= h <= |text|
  {
    if inLine then b + Eaten(text, o, h, true, a) == a + (b + text[h..]) else a == ""
  }

  /**
   An insertion at `p` and a replacement of the text from `p` to `q`, in this order: the replacement comes second and
   eats into the insertion, so the result is the wanted one exactly if that makes no difference.
   */
  lemma InsertionReplaced(text: string, p: Position, q: Position, a: string, b: string)
    requires InBounds(LspLines(text), Edit(p, q, b)) && p != q
    ensures Offset(LspLines(text), p) < Offset(LspLines(text), q) <= |text|
    ensures var o, h := Offset(LspLines(text), p), Offset(LspLines(text), q);
      var edited := EditedText(text, [Edit(p, p, a), Edit(p, q, b)]);
      if OnEmptyLastLine(text, h) then edited == None
      else
        && edited == Some(InsertionEaten(text, o, h, p.line == q.line, a, b))
        && (edited == Some(InsertedThenReplaced(text, o, h, a, b)) <==> NothingEaten(text, o, h, p.line == q.line, a, b))
  {
    PositionsInOrder(text, p, q);
    Unreported(text, q);
    hide Offset, EditedText, ReadLines, LspLines, InsertionEaten, InsertedThenReplaced, NothingEaten;
    if q.line < |ReadLines(text)| {
      ReplacementEats(text, p, q, a, b);
    } else {
      SecondFails(text, Edit(p, p, a), Edit(p, q, b));
    }
  }

  lemma ReplacementEats(text: string, p: Position, q: Position, a: string, b: string)
    requires InBounds(LspLines(text), Edit(p, q, b)) && p != q && q.line < |ReadLines(text)|
    requires Offset(LspLines(text), p) < Offset(LspLines(text), q) <= |text|
    ensures var o, h := Offset(LspLines(text), p), Offset(LspLines(text), q);
      var edited := EditedText(text, [Edit(p, p, a), Edit(p, q, b)]);
      && edited == Some(InsertionEaten(text, o, h, p.line == q.line, a, b))
      && (edited == Some(InsertedThenReplaced(text, o, h, a, b)) <==> NothingEaten(text, o, h, p.line == q.line, a, b))
  {
    var lines, cur := LspLines(text), ReadLines(text);
    assert Agrees(cur, lines, p) && Agrees(cur, lines, q) && q.line < |cur| && p.character <= |cur[p.line]|;
    assert p.line < q.line || (p.line == q.line && p.character < q.character);
    ReadLinesConcat(text);
    hide *;
    EatenIsWanted(text, Offset(lines, p), Offset(lines, q), p.line == q.line, a, b);
    var mid, end := ReplaceAfterInsert(cur, lines, p, q, a, b);
    EditedTwo(text, mid, end, Edit(p, p, a), Edit(p, q, b));
  }

  lemma EatenIsWanted(text: string, o: nat, h: nat, inLine: bool, a: string, b: string)
    requires o <= h <= |text|
    ensures InsertionEaten(text, o, h, inLine, a, b) == InsertedThenReplaced(text, o, h, a, b)
       <==> NothingEaten(text, o, h, inLine, a, b)
  {
    SameHead(text[..o], b + Eaten(text, o, h, inLine, a), a + (b + text[h..]));
    if !inLine {
      assert a == "" ==> a + (b + text[h..]) == b + text[h..];
    }
  }

  lemma PositionsInOrder(text: string, p: Position, q: Position)
    requires var lines := LspLines(text); ValidPosition(lines, p) && ValidPosition(lines, q) && PosLe(p, q) && p != q
    ensures Offset(LspLines(text), p) < Offset(LspLines(text), q) <= |text|
  {
    var lines := LspLines(text);
    LspLinesConcat(text);
    OffsetOrder(lines, p, q);
    OffsetOrder(lines, q, p);
    SplitAt(lines, q);
  }

  /** The first of two insertions leaves as many lines as there were. */
  lemma SecondFails(text: string, e: Edit, f: Edit)
    requires e.start == e.end == f.start && PosLe(f.start, f.end) && f.end.line >= |ReadLines(text)|
    ensures EditedText(text, [e, f]) == None
  {
    var cur := ReadLines(text);
    SortTwo(e, f);
    assert [e, f][0] == e && [e, f][1..] == [f];
    assert ApplyOne(cur, e).Some? ==> |ApplyOne(cur, e).value| == |cur|;
    assert forall mid | |mid| == |cur| :: ApplyOne(mid, f) == None && ApplyAll(mid, [f]) == None;
    hide ReadLines, SortDescending, ApplyOne;
  }

  lemma EditedTwo(text: string, mid: seq<string>, end: seq<string>, e: Edit, f: Edit)
    requires e.start == f.start && ApplyOne(ReadLines(text), e) == Some(mid) && ApplyOne(mid, f) == Some(end)
    ensures EditedText(text, [e, f]) == Some(Concat(end))
  {
    SortTwo(e, f);
    ApplyTwo(ReadLines(text), mid, end, e, f);
    hide ApplyOne, ReadLines, SortDescending, ApplyAll;
  }

  lemma EatenText(text: string, o: nat, h: nat, inLine: bool, a: string, b: string)
    requires o <= h <= |text|
    ensures InsertionEaten(text, o, h, inLine, a, b) == text[..o] + b + if inLine then (a + text[o..])[h - o..] else text[h..]
  {
    Regroup(text[..o], b, Eaten(text, o, h, inLine, a));
  }

  /** The two edits, one after the other. */
  lemma ReplaceAfterInsert(cur: seq<string>, lines: seq<string>, p: Position, q: Position, a: string, b: string)
    returns (mid: seq<string>, end: seq<string>)
    requires Agrees(cur, lines, p) && Agrees(cur, lines, q) && q.line < |cur| && p.character <= |cur[p.line]|
    requires p.line < q.line || (p.line == q.line && p.character < q.character)
    requires Offset(lines, p) < Offset(lines, q) <= |Concat(cur)|
    ensures ApplyOne(cur, Edit(p, p, a)) == Some(mid) && ApplyOne(mid, Edit(p, q, b)) == Some(end)
    ensures Concat(end) == InsertionEaten(Concat(cur), Offset(lines, p), Offset(lines, q), p.line == q.line, a, b)
  {
    assert PosLe(p, q);
    hide *;
    mid := InsertOne(cur, lines, p, a);
    if p.line == q.line {
      end := ReplaceInLine(cur, lines, mid, p, q, a, b);
    } else {
      ReplaceLater(cur, mid, p, q, a, b);
      OneEditText(cur, lines, Edit(p, q, b));
      end := ApplyOne(cur, Edit(p, q, b)).value;
    }
    EatenText(Concat(cur), Offset(lines, p), Offset(lines, q), p.line == q.line, a, b);
  }

  lemma SameHead(head: string, s: string, t: string)
    ensures head + s == head + t <==> s == t
  {
    assert (head + s)[|head|..] == s && (head + t)[|head|..] == t;
  }

  lemma ReplaceInLine(
    cur: seq<string>, lines: seq<string>, mid: seq<string>, p: Position, q: Position, a: string, b: string)
    returns (end: seq<string>)
    requires Agrees(cur, lines, p) && Agrees(cur, lines, q) && p.line == q.line && p.character < q.character
    requires ApplyOne(cur, Edit(p, p, a)) == Some(mid)
    requires var o := Offset(lines, p); o <= |Concat(cur)| && Concat(mid) == Concat(cur)[..o] + a + Concat(cur)[o..]
    ensures var o, h := Offset(lines, p), Offset(lines, q);
      && o < h <= |Concat(cur)| && ApplyOne(mid, Edit(p, q, b)) == Some(end)
      && Concat(end) == Concat(cur)[..o] + b + (a + Concat(cur)[o..])[h - o..]
  {
    var o, h := Offset(lines, p), Offset(lines, q);
    InsertedInLine(cur, lines, mid, p, q, a);
    assert PosLe(p, q);
    hide *;
    end := ReplaceBehind(mid, p, q, b, Concat(cur)[..o], a, Concat(cur)[o..]);
  }

  lemma ReplaceBehind(mid: seq<string>, p: Position, q: Position, b: string, head: string, a: string, tail: string)
    returns (end: seq<string>)
    requires Agrees(mid, mid, p) && Agrees(mid, mid, q) && PosLe(p, q) && Concat(mid) == head + a + tail
    requires Offset(mid, p) == |head| <= Offset(mid, q) <= |head + a + tail|
    ensures ApplyOne(mid, Edit(p, q, b)) == Some(end)
    ensures Concat(end) == head + b + (a + tail)[Offset(mid, q) - |head|..]
  {
    var n := Offset(mid, q) - |head|;
    hide *;
    OneEditText(mid, mid, Edit(p, q, b));
    end := ApplyOne(mid, Edit(p, q, b)).value;
    TailOfMiddle(Concat(mid), head, a, tail, n, b);
  }

  lemma InsertedInLine(cur: seq<string>, lines: seq<string>, mid: seq<string>, p: Position, q: Position, a: string)
    requires Agrees(cur, lines, p) && Agrees(cur, lines, q) && p.line == q.line
    requires ApplyOne(cur, Edit(p, p, a)) == Some(mid)
    ensures Agrees(mid, mid, p) && Agrees(mid, mid, q)
    ensures Offset(mid, p) == Offset(lines, p) && Offset(mid, q) == Offset(lines, q) <= |Concat(cur)|
    ensures Offset(lines, q) - Offset(lines, p) == q.character - p.character
  {
    SplitAt(cur, q);
    assert mid[..p.line] == cur[..p.line] && |mid[p.line]| >= |cur[p.line]|;
    hide Concat;
  }

  lemma TailOfMiddle(text: string, head: string, a: string, tail: string, n: nat, b: string)
    requires text == head + a + tail && n <= |a + tail|
    ensures |head| + n <= |text| && text[..|head|] + b + text[|head| + n..] == head + b + (a + tail)[n..]
  {
    Regroup(head, a, tail);
    assert text[..|head|] == head && text[|head| + n..] == (a + tail)[n..];
  }

  lemma ReplaceLater(cur: seq<string>, mid: seq<string>, p: Position, q: Position, a: string, b: string)
    requires p.line < q.line < |cur| && p.character <= |cur[p.line]|
    requires ApplyOne(cur, Edit(p, p, a)) == Some(mid)
    ensures ApplyOne(mid, Edit(p, q, b)) == ApplyOne(cur, Edit(p, q, b))
  {
    assert mid[..p.line] == cur[..p.line] && |mid| == |cur|;
    assert mid[p.line + 1..] == cur[p.line + 1..];
    assert mid[q.line + 1..] == mid[p.line + 1..][q.line - p.line..] == cur[q.line + 1..];
    assert mid[q.line] == mid[p.line + 1..][q.line - p.line - 1] == cur[q.line];
    assert Take(mid[p.line], p.character) == Take(cur[p.line], p.character);
  }
}
