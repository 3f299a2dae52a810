/**
 Collecting syntax errors (src/parser.rs, `collect_syntax_errors`): a walk with an explicit stack
 that does not enter subtrees without errors, reports each start position once and stops after
 twenty reports.  The result is that of the walk that enters every subtree.
 */
module SyntaxErrors {
  import opened Text
  import opened SyntaxTree

  const MAX_SYNTAX_ERRORS := 20

  datatype SyntaxError = SyntaxError(start: Point, end: Point, message: string)

  /** tree-sitter's `has_error`: the subtree contains an ERROR or MISSING node. */
  predicate HasError(t: Node) {
    t.isError || t.isMissing || exists c | c in t.children :: HasError(c)
  }

  predicate HasPrefix(s: string, prefix: string) {
    prefix <= s
  }

  /** The part of `s` after its last line break. */
  function LastLine(s: string): string {
    if s == "" || s[|s| - 1] == '\n' then "" else LastLine(s[..|s| - 1]) + [s[|s| - 1]]
  }

  /** The part of `s` before its first line break. */
  function FirstLine(s: string): string {
    if s == "" || s[0] == '\n' || (|s| > 1 && s[0] == '\r' && s[1] == '\n') then "" else [s[0]] + FirstLine(s[1..])
  }

  /** A lone comma inside `@file:[...]`, which the grammar mistakes for an error. */
  predicate FileAnnotationComma(source: string, t: Node) {
    t.isError && Trim(t.text) == "," && 5 <= t.startByte <= |source| && InBrackets(source[..t.startByte])
  }

  predicate InBrackets(before: string) {
    var line := TrimStart(LastLine(before));
    HasPrefix(line, "@file:") && HasPrefix(TrimStart(line[|"@file:"|..]), "[")
  }

  function ErrorMessage(t: Node): string {
    var line := FirstLine(t.text[..Min(30, |t.text|)]);
    if t.isMissing then "missing `" + t.kind + "`"
    else if line == "" then "syntax error"
    else "unexpected `" + line + "`"
  }

  function Report(t: Node): SyntaxError {
    SyntaxError(t.start, t.end, ErrorMessage(t))
  }

  // ----- which commas are suppressed, and what a report says

  /** The text is a comma, but for white space. */
  ghost predicate LoneComma(text: string) {
    exists pad, pad' :: text == pad + ("," + pad') && AllSpace(pad) && AllSpace(pad')
  }

  /** The last line of the text is `line`: nothing or a line break comes before it. */
  predicate EndsInLine(before: string, head: string, line: string) {
    before == head + line && (head == "" || head[|head| - 1] == '\n') && forall i | 0 <= i < |line| :: line[i] != '\n'
  }

  function FileLine(pad: string, gap: string, rest: string): string {
    pad + ("@file:" + (gap + ("[" + rest)))
  }

  /** The last line has `@file:` and `[`, with nothing but white space before and between them. */
  ghost predicate BehindFileBracket(before: string) {
    exists head, pad, gap, rest :: EndsInLine(before, head, FileLine(pad, gap, rest)) && AllSpace(pad) && AllSpace(gap)
  }

  lemma CommaTrimmed(text: string)
    ensures Trim(text) == "," <==> LoneComma(text)
  {
    if Trim(text) == "," {
      var start := TrimStart(text);
      var pad, pad' := text[..LeadingSpaces(text)], start[TrimmedLength(start)..];
      assert text == pad + start && start == "," + pad';
      assert AllSpace(pad) && AllSpace(pad');
    }
    if pad, pad' :| text == pad + ("," + pad') && AllSpace(pad) && AllSpace(pad') {
      TrimStartPadded(pad, "," + pad');
      TrimEndPadded(",", pad');
    }
  }

  lemma {:induction false} LastLineIs(before: string, head: string, line: string)
    requires EndsInLine(before, head, line)
    ensures LastLine(before) == line
  {
    if line != "" {
      var front := line[..|line| - 1];
      assert before[..|before| - 1] == head + front;
      LastLineIs(before[..|before| - 1], head, front);
    }
  }

  lemma {:induction false} LastLineAt(before: string) returns (head: string)
    ensures EndsInLine(before, head, LastLine(before))
  {
    if before == "" || before[|before| - 1] == '\n' {
      head := before;
      assert before + "" == before;
    } else {
      head := LastLineAt(before[..|before| - 1]);
      assert before == before[..|before| - 1] + [before[|before| - 1]];
    }
  }

  lemma BracketsAre(before: string)
    ensures InBrackets(before) <==> BehindFileBracket(before)
  {
    if InBrackets(before) {
      var head := LastLineAt(before);
      var pad, gap, rest := Brackets(LastLine(before));
      assert EndsInLine(before, head, FileLine(pad, gap, rest));
    }
    if head, pad, gap, rest :| EndsInLine(before, head, FileLine(pad, gap, rest)) && AllSpace(pad) && AllSpace(gap) {
      LastLineIs(before, head, FileLine(pad, gap, rest));
      BracketsTrimmed(pad, gap, rest);
    }
  }

  lemma Brackets(line: string) returns (pad: string, gap: string, rest: string)
    requires var t := TrimStart(line); HasPrefix(t, "@file:") && HasPrefix(TrimStart(t[|"@file:"|..]), "[")
    ensures line == FileLine(pad, gap, rest) && AllSpace(pad) && AllSpace(gap)
  {
    var t := TrimStart(line);
    var after := t[6..];
    pad, gap, rest := line[..LeadingSpaces(line)], after[..LeadingSpaces(after)], TrimStart(after)[1..];
    assert line == pad + t && t == "@file:" + after && after == gap + TrimStart(after);
    assert TrimStart(after) == "[" + rest;
  }

  lemma BracketsTrimmed(pad: string, gap: string, rest: string)
    requires AllSpace(pad) && AllSpace(gap)
    ensures var t := TrimStart(FileLine(pad, gap, rest)); HasPrefix(t, "@file:") && HasPrefix(TrimStart(t[|"@file:"|..]), "[")
  {
    var after := gap + ("[" + rest);
    TrimStartPadded(pad, "@file:" + after);
    TrimStartPadded(gap, "[" + rest);
    hide TrimStart;
    assert ("@file:" + after)[6..] == after;
  }

  /** The suppressed nodes: lone commas that the grammar rejects behind `@file:[` on the same line. */
  lemma SuppressedCommas(source: string, t: Node)
    ensures FileAnnotationComma(source, t) <==>
      t.isError && LoneComma(t.text) && t.startByte <= |source| && BehindFileBracket(source[..t.startByte])
  {
    CommaTrimmed(t.text);
    if t.startByte <= |source| {
      BracketsAre(source[..t.startByte]);
      assert BehindFileBracket(source[..t.startByte]) ==> 5 <= t.startByte;
    }
  }

  /** The text up to its first line break, which may be `\r\n`. */
  predicate IsFirstLine(line: string, text: string) {
    && (forall i | 0 <= i < |line| :: line[i] != '\n')
    && (line == text || line + "\r\n" <= text
        || (line + "\n" <= text && (line == "" || line[|line| - 1] != '\r')))
  }

  lemma {:induction false} FirstLineIs(text: string, line: string)
    ensures IsFirstLine(line, text) <==> line == FirstLine(text)
  {
    if text != "" && text[0] != '\n' && !("\r\n" <= text) {
      if line != "" {
        FirstLineIs(text[1..], line[1..]);
        assert line == [line[0]] + line[1..];
      }
    }
  }

  // ----- the reference: every subtree is entered, nothing is left out

  /** Whether the walk reports this node itself, were there no other with the same start. */
  predicate Reportable(source: string, t: Node) {
    t.isMissing || (t.isError && !FileAnnotationComma(source, t))
  }

  /** Below a MISSING node or a suppressed comma the walk does not look. */
  predicate Enters(source: string, t: Node) {
    !t.isMissing && !FileAnnotationComma(source, t)
  }

  /** All reports of a subtree, in the order in which a stack yields the nodes: last child first. */
  ghost function Reports(source: string, t: Node): seq<SyntaxError> {
    (if Reportable(source, t) then [Report(t)] else [])
    + (if Enters(source, t) then ReportsOf(source, t.children) else [])
  }

  ghost function ReportsOf(source: string, ts: seq<Node>): seq<SyntaxError> {
    if ts == [] then [] else Reports(source, ts[|ts| - 1]) + ReportsOf(source, ts[..|ts| - 1])
  }

  predicate StartSeen(errors: seq<SyntaxError>, start: Point) {
    exists e | e in errors :: e.start == start
  }

  /** The first report for each start position. */
  ghost function FirstByStart(errors: seq<SyntaxError>): seq<SyntaxError> {
    if errors == [] then []
    else
      var front, e := FirstByStart(errors[..|errors| - 1]), errors[|errors| - 1];
      if StartSeen(front, e.start) then front else front + [e]
  }

  ghost function Capped(errors: seq<SyntaxError>): seq<SyntaxError> {
    errors[..Min(MAX_SYNTAX_ERRORS, |errors|)]
  }

  /** `n` is `t`, or lies below it with no MISSING node or suppressed comma in between. */
  ghost predicate Visible(source: string, t: Node, n: Node) {
    n == t || (Enters(source, t) && exists c | c in t.children :: Visible(source, c, n))
  }

  // ----- why pruning loses nothing

  lemma {:induction false} CleanReports(source: string, t: Node)
    requires !HasError(t)
    ensures Reports(source, t) == []
    decreases t, 1
  {
    CleanReportsOf(source, t.children);
  }

  lemma {:induction false} CleanReportsOf(source: string, ts: seq<Node>)
    requires forall t | t in ts :: !HasError(t)
    ensures ReportsOf(source, ts) == []
    decreases ts, 0
  {
    if ts != [] {
      CleanReports(source, ts[|ts| - 1]);
      CleanReportsOf(source, ts[..|ts| - 1]);
    }
  }

  lemma {:induction false} ReportsOfAppend(source: string, a: seq<Node>, b: seq<Node>)
    ensures ReportsOf(source, a + b) == ReportsOf(source, b) + ReportsOf(source, a)
  {
    if b == [] {
      assert a + b == a;
    } else {
      var front := b[..|b| - 1];
      ReportsOfAppend(source, a, front);
      assert (a + b)[..|a + b| - 1] == a + front;
      Regroup(Reports(source, b[|b| - 1]), ReportsOf(source, front), ReportsOf(source, a));
    }
  }

  lemma {:induction false} SizeAllAppend(a: seq<Node>, b: seq<Node>)
    ensures SizeAll(a + b) == SizeAll(a) + SizeAll(b)
  {
    if a == [] {
      assert a + b == b;
    } else {
      SizeAllAppend(a[1..], b);
      assert (a + b)[1..] == a[1..] + b;
    }
  }

  lemma {:induction false} FirstByStartPrefix(a: seq<SyntaxError>, b: seq<SyntaxError>)
    ensures FirstByStart(a) <= FirstByStart(a + b)
  {
    if b == [] {
      assert a + b == a;
    } else {
      FirstByStartPrefix(a, b[..|b| - 1]);
      assert (a + b)[..|a + b| - 1] == a + b[..|b| - 1];
    }
  }

  // ----- the walk

  function Own(source: string, t: Node): seq<SyntaxError> {
    if Reportable(source, t) then [Report(t)] else []
  }

  /** The nodes the pruned walk pushes after `t`. */
  function Pushed(source: string, t: Node): seq<Node> {
    if Enters(source, t) && HasError(t) then t.children else []
  }

  lemma PopStack(source: string, rest: seq<Node>, t: Node)
    ensures SizeAll(rest + [t]) == SizeAll(rest) + Size(t)
    ensures ReportsOf(source, rest + [t]) == Reports(source, t) + ReportsOf(source, rest)
  {
    assert (rest + [t])[..|rest|] == rest;
    SizeAllAppend(rest, [t]);
  }

  /** Reported so far and still to come, when the top of the stack has been handled. */
  lemma StackStep(source: string, done: seq<SyntaxError>, rest: seq<Node>, t: Node)
    ensures SizeAll(rest + Pushed(source, t)) < SizeAll(rest + [t])
    ensures (done + Own(source, t)) + ReportsOf(source, rest + Pushed(source, t)) == done + ReportsOf(source, rest + [t])
  {
    PopStack(source, rest, t);
    assert Reports(source, t) == Own(source, t) + ReportsOf(source, Pushed(source, t)) by {
      if !HasError(t) {
        CleanReports(source, t);
      }
    }
    SizeAllAppend(rest, Pushed(source, t));
    ReportsOfAppend(source, rest, Pushed(source, t));
    Shuffle(done, Own(source, t), ReportsOf(source, Pushed(source, t)), ReportsOf(source, rest));
  }

  /** What the walk does with a node, case by case. */
  lemma NodeCases(source: string, done: seq<SyntaxError>, rest: seq<Node>, t: Node)
    ensures var reports := t.isMissing || (t.isError && !FileAnnotationComma(source, t));
      done + Own(source, t) == if reports then done + [Report(t)] else done
    ensures var enters := !t.isMissing && (if t.isError then !FileAnnotationComma(source, t) else HasError(t));
      rest + Pushed(source, t) == if enters then rest + t.children else rest
  {
    assert done + [] == done && rest + [] == rest;
  }

  /** One round of the walk: the sum of what is reported and what is to come stays, and the stack shrinks. */
  lemma PopStep(source: string, done: seq<SyntaxError>, stack: seq<Node>)
    requires stack != []
    ensures var rest, t := stack[..|stack| - 1], stack[|stack| - 1];
      var done' := if t.isMissing || (t.isError && !FileAnnotationComma(source, t)) then done + [Report(t)] else done;
      var enters := !t.isMissing && (if t.isError then !FileAnnotationComma(source, t) else HasError(t));
      var stack' := if enters then rest + t.children else rest;
      done' + ReportsOf(source, stack') == done + ReportsOf(source, stack) && SizeAll(stack') < SizeAll(stack)
  {
    hide *;
    var rest, t := stack[..|stack| - 1], stack[|stack| - 1];
    StackStep(source, done, rest, t);
    NodeCases(source, done, rest, t);
    assert stack == rest + [t];
  }

  lemma Shuffle(a: seq<SyntaxError>, b: seq<SyntaxError>, c: seq<SyntaxError>, d: seq<SyntaxError>)
    ensures (a + b) + (c + d) == a + ((b + c) + d)
  {
  }

  method CollectSyntaxErrors(source: string, root: Node) returns (errors: seq<SyntaxError>)
    ensures errors == Capped(FirstByStart(Reports(source, root)))
  {
    if !HasError(root) {
      CleanReports(source, root);
      return [];
    }
    errors := [];
    var seen: set<Point> := {};
    var stack := [root];
    ghost var done: seq<SyntaxError> := [];
    assert FirstByStart(done) == [] && Starts(errors) == {};
    ghost var all := Reports(source, root);
    assert ReportsOf(source, stack) == all && ReportsOf(source, []) == [];
    hide *;
    while stack != []
      invariant errors == FirstByStart(done) && |errors| <= MAX_SYNTAX_ERRORS
      invariant seen == Starts(errors)
      invariant done + ReportsOf(source, stack) == all
      decreases SizeAll(stack)
    {
      var node := stack[|stack| - 1];
      if |errors| >= MAX_SYNTAX_ERRORS {
        FirstByStartPrefix(done, ReportsOf(source, stack));
        assert Capped(FirstByStart(all)) == errors;
        return;
      }
      PopStep(source, done, stack);
      stack := stack[..|stack| - 1];
      if node.isMissing {
        errors, seen, done := Push(errors, seen, done, node);
      } else if node.isError {
        if FileAnnotationComma(source, node) {
          continue;
        }
        errors, seen, done := Push(errors, seen, done, node);
        stack := stack + node.children;
      } else if HasError(node) {
        stack := stack + node.children;
      }
    }
    assert done + [] == done;
    assert Capped(FirstByStart(all)) == errors;
  }

  function Starts(errors: seq<SyntaxError>): set<Point> {
    set e | e in errors :: e.start
  }

  /** `if seen.insert(key) { errors.push(...) }` */
  method Push(errors: seq<SyntaxError>, seen: set<Point>, ghost done: seq<SyntaxError>, node: Node)
    returns (errors': seq<SyntaxError>, seen': set<Point>, ghost done': seq<SyntaxError>)
    requires errors == FirstByStart(done) && |errors| < MAX_SYNTAX_ERRORS
    requires seen == Starts(errors)
    ensures done' == done + [Report(node)]
    ensures errors' == FirstByStart(done') && |errors'| <= MAX_SYNTAX_ERRORS
    ensures seen' == Starts(errors')
  {
    errors', seen', done' := errors, seen, done + [Report(node)];
    assert done'[..|done|] == done;
    if node.start !in seen {
      seen' := seen + {node.start};
      errors' := errors + [Report(node)];
    }
  }

  // ----- what the result says

  lemma {:induction false} FirstByStartDistinct(errors: seq<SyntaxError>)
    ensures var r := FirstByStart(errors);
      && (forall i, j | 0 <= i < j < |r| :: r[i].start != r[j].start)
      && (forall p :: StartSeen(r, p) <==> StartSeen(errors, p))
  {
    if errors != [] {
      var front, e := errors[..|errors| - 1], errors[|errors| - 1];
      FirstByStartDistinct(front);
      var f := FirstByStart(front);
      assert errors == front + [e];
      forall p ensures StartSeen(FirstByStart(errors), p) <==> StartSeen(errors, p) {
        assert StartSeen(errors, p) <==> StartSeen(front, p) || p == e.start;
        assert StartSeen(f + [e], p) <==> StartSeen(f, p) || p == e.start;
      }
    }
  }

  /** A node that is visible below `t` and whose report starts at `p`. */
  ghost predicate Explains(source: string, t: Node, n: Node, p: Point) {
    Visible(source, t, n) && Reportable(source, n) && n.start == p
  }

  lemma {:induction false} ReportsAreVisible(source: string, t: Node, p: Point)
    ensures StartSeen(Reports(source, t), p) <==> exists n :: Explains(source, t, n, p)
    decreases t, 1
  {
    var own := if Reportable(source, t) then [Report(t)] else [];
    var below := if Enters(source, t) then ReportsOf(source, t.children) else [];
    assert StartSeen(own + below, p) <==> StartSeen(own, p) || StartSeen(below, p);
    ReportsOfAreVisible(source, t.children, p);
    if StartSeen(own, p) {
      assert Explains(source, t, t, p);
    } else if StartSeen(below, p) {
      var c, n :| c in t.children && Explains(source, c, n, p);
      assert Explains(source, t, n, p);
    } else if n :| Explains(source, t, n, p) {
      if n != t {
        var c :| c in t.children && Visible(source, c, n);
        assert Explains(source, c, n, p);
      }
    }
  }

  lemma {:induction false} ReportsOfAreVisible(source: string, ts: seq<Node>, p: Point)
    ensures StartSeen(ReportsOf(source, ts), p)
       <==> exists c, n :: c in ts && Explains(source, c, n, p)
    decreases ts, 0
  {
    if ts != [] {
      var front, last := ts[..|ts| - 1], ts[|ts| - 1];
      ReportsAreVisible(source, last, p);
      ReportsOfAreVisible(source, front, p);
      var a, b := Reports(source, last), ReportsOf(source, front);
      assert StartSeen(a + b, p) <==> StartSeen(a, p) || StartSeen(b, p);
      assert forall c :: c in ts <==> c in front || c == last;
    }
  }

  /** What a report says of its node. */
  ghost predicate Says(n: Node, e: SyntaxError) {
    && e.start == n.start && e.end == n.end
    && if n.isMissing then e.message == "missing `" + n.kind + "`"
       else exists line | IsFirstLine(line, n.text[..Min(30, |n.text|)]) ::
              e.message == if line == "" then "syntax error" else "unexpected `" + line + "`"
  }

  lemma ReportSays(n: Node)
    ensures Says(n, Report(n))
  {
    var text := n.text[..Min(30, |n.text|)];
    FirstLineIs(text, FirstLine(text));
  }

  /** Error `e` is the report of a visible node. */
  ghost predicate Reported(source: string, t: Node, e: SyntaxError) {
    exists n :: Explains(source, t, n, e.start) && Says(n, e)
  }

  lemma {:induction false} ReportsSay(source: string, t: Node, e: SyntaxError)
    requires e in Reports(source, t)
    ensures Reported(source, t, e)
    decreases t, 1
  {
    if Reportable(source, t) && e == Report(t) {
      ReportSays(t);
      assert Explains(source, t, t, e.start);
    } else {
      ReportsOfSay(source, t.children, e);
      var c, n :| c in t.children && Explains(source, c, n, e.start) && Says(n, e);
      assert Explains(source, t, n, e.start);
      hide Says, Explains, Visible;
    }
  }

  lemma {:induction false} ReportsOfSay(source: string, ts: seq<Node>, e: SyntaxError)
    requires e in ReportsOf(source, ts)
    ensures exists c, n :: c in ts && Explains(source, c, n, e.start) && Says(n, e)
    decreases ts, 0
  {
    var front, last := ts[..|ts| - 1], ts[|ts| - 1];
    if e in Reports(source, last) {
      ReportsSay(source, last, e);
    } else {
      ReportsOfSay(source, front, e);
    }
  }

  lemma {:induction false} FirstByStartSome(errors: seq<SyntaxError>)
    ensures forall e | e in FirstByStart(errors) :: e in errors
  {
    if errors != [] {
      FirstByStartSome(errors[..|errors| - 1]);
    }
  }

  /** Every error that is reported is what the walk says of a node that explains it. */
  lemma ReportedNodes(source: string, root: Node, e: SyntaxError)
    requires e in Capped(FirstByStart(Reports(source, root)))
    ensures Reported(source, root, e)
  {
    FirstByStartSome(Reports(source, root));
    ReportsSay(source, root, e);
  }

  /**
   At most twenty errors are reported, at distinct positions; when there are fewer, the positions
   are exactly the starts of the ERROR and MISSING nodes that are not suppressed or hidden.
   */
  lemma ReportedPositions(source: string, root: Node)
    ensures var errors := Capped(FirstByStart(Reports(source, root)));
      && |errors| <= 20
      && (forall i, j | 0 <= i < j < |errors| :: errors[i].start != errors[j].start)
      && (|errors| < 20 ==>
            forall p :: StartSeen(errors, p) <==> exists n :: Explains(source, root, n, p))
  {
    var reports := Reports(source, root);
    FirstByStartDistinct(reports);
    assert |FirstByStart(reports)| <= MAX_SYNTAX_ERRORS ==> Capped(FirstByStart(reports)) == FirstByStart(reports);
    forall p ensures StartSeen(FirstByStart(reports), p)
                <==> exists n :: Explains(source, root, n, p) {
      ReportsAreVisible(source, root, p);
    }
  }
}
