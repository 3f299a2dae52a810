/**
 The inlay-hint walk (src/inlay_hints.rs, `cst_hints`): a cursor moves through the syntax tree in
 document order, skips subtrees that end before the requested lines and stops at the first node
 that starts after them.  The result is that of visiting every node.
 */
module HintWalk {
  import opened Text
  import opened SyntaxTree

  /** The requested lines, both included. */
  datatype LineRange = LineRange(first: nat, last: nat)

  datatype Hint = Hint(row: nat, column: nat, typeName: string)

  /** What the walk asks of the index, which is not part of this model. */
  datatype Index = Index(
    contextual: (string, Point) -> Option<string>,  // type of `it`, `this` or a lambda parameter
    infer: Node -> Option<string>,                  // type of an expression
    subst: (string, nat) -> string,                 // class type parameters at a line
    column: Point -> nat)                           // byte column to UTF-16 column

  predicate InRange(row: nat, range: LineRange) {
    range.first <= row <= range.last
  }

  function HintAt(ix: Index, at: Point, typeName: string): Hint {
    Hint(at.row, ix.column(at), typeName)
  }

  // ----- the hints of one node

  predicate HasKind(ts: seq<Node>, kind: string) {
    exists t | t in ts :: t.kind == kind
  }

  function FirstOfKind(ts: seq<Node>, kind: string): (r: Option<Node>)
    ensures r.Some? ==> r.value in ts
  {
    if ts == [] then None else if ts[0].kind == kind then Some(ts[0]) else FirstOfKind(ts[1..], kind)
  }

  function LastOfKind(ts: seq<Node>, kind: string): (r: Option<Node>)
    ensures r.Some? ==> r.value in ts
  {
    if ts == [] then None
    else if ts[|ts| - 1].kind == kind then Some(ts[|ts| - 1])
    else LastOfKind(ts[..|ts| - 1], kind)
  }

  /** The first node behind an `=` that is not itself an `=`. */
  function Initializer(ts: seq<Node>, pastEq: bool): Option<Node> {
    if ts == [] then None
    else if ts[0].kind == "=" then Initializer(ts[1..], true)
    else if pastEq then Some(ts[0])
    else Initializer(ts[1..], false)
  }

  /** The name declared without a type annotation, if there is one. */
  function UntypedName(decl: Node): (r: Option<Node>)
    ensures r.Some? ==> r.value in decl.children
  {
    if HasKind(decl.children, ":") then None else FirstOfKind(decl.children, "simple_identifier")
  }

  predicate StartsWithLowercase(s: string) {
    s != "" && IsLower(s[0])
  }

  /** The hint for `it` or `this`. */
  function ReceiverHint(ix: Index, node: Node, name: string, range: LineRange): seq<Hint> {
    if !InRange(node.start.row, range) then []
    else
      match ix.contextual(name, node.start)
      case None => []
      case Some(ty) => [HintAt(ix, node.end, ix.subst(ty, node.start.row))]
  }

  /** The hint for one child of a lambda's parameter list. */
  function ParamHint(ix: Index, param: Node, range: LineRange): seq<Hint> {
    if param.kind != "variable_declaration" then []
    else
      match UntypedName(param)
      case None => []
      case Some(n) =>
        var name := Trim(n.text);
        if name == "" || name == "_" || !StartsWithLowercase(name) || !InRange(n.start.row, range) then []
        else
          match ix.contextual(name, n.start)
          case None => []
          case Some(ty) => [HintAt(ix, n.end, ix.subst(ty, n.start.row))]
  }

  function ParamHints(ix: Index, params: seq<Node>, range: LineRange): seq<Hint> {
    if params == [] then [] else ParamHint(ix, params[0], range) + ParamHints(ix, params[1..], range)
  }

  function LambdaHints(ix: Index, node: Node, range: LineRange): seq<Hint> {
    match FirstOfKind(node.children, "lambda_parameters")
    case None => []
    case Some(list) => ParamHints(ix, list.children, range)
  }

  function PropertyHints(ix: Index, node: Node, range: LineRange): seq<Hint> {
    match FirstOfKind(node.children, "variable_declaration")
    case None => []
    case Some(decl) =>
      match (UntypedName(decl), Initializer(node.children, false))
      case (Some(n), Some(init)) =>
        if Trim(n.text) == "" || !InRange(n.end.row, range) then []
        else (
          match ix.infer(init)
          case None => []
          case Some(ty) => [HintAt(ix, n.end, ix.subst(ty, n.end.row))])
      case _ => []
  }

  function FunctionHints(ix: Index, node: Node, range: LineRange): seq<Hint> {
    if HasKind(node.children, ":") then []
    else
      match (LastOfKind(node.children, "function_body"), LastOfKind(node.children, "function_value_parameters"))
      case (Some(body), Some(params)) =>
        if |body.children| < 2 || body.children[0].kind != "=" || !InRange(params.end.row, range) then []
        else (
          match ix.infer(body.children[1])
          case None => []
          case Some(ty) => [HintAt(ix, params.end, ty)])
      case _ => []
  }

  function NodeHints(ix: Index, node: Node, range: LineRange): seq<Hint> {
    if node.kind == "lambda_literal" then LambdaHints(ix, node, range)
    else if node.kind == "simple_identifier" && node.text == "it" then ReceiverHint(ix, node, "it", range)
    else if node.kind == "this_expression" then ReceiverHint(ix, node, "this", range)
    else if node.kind == "property_declaration" then PropertyHints(ix, node, range)
    else if node.kind == "function_declaration" then FunctionHints(ix, node, range)
    else []
  }

  // ----- what these hints are, by the children of the node alone

  /** Child `i` is the first of its kind. */
  predicate First(ts: seq<Node>, kind: string, i: int) {
    0 <= i < |ts| && ts[i].kind == kind && forall c | 0 <= c < i :: ts[c].kind != kind
  }

  /** Child `i` is the last of its kind. */
  predicate Last(ts: seq<Node>, kind: string, i: int) {
    0 <= i < |ts| && ts[i].kind == kind && forall c | i < c < |ts| :: ts[c].kind != kind
  }

  /** Child `k` comes behind an `=`, with nothing but other `=` in between. */
  predicate BehindEq(ts: seq<Node>, k: int) {
    && 0 <= k < |ts| && ts[k].kind != "=" && (exists e | 0 <= e < k :: ts[e].kind == "=")
    && forall e, c | 0 <= e < c < k && ts[e].kind == "=" :: ts[c].kind == "="
  }

  /** Child `j` is the name that the declaration gives no type. */
  predicate Untyped(decl: Node, j: int) {
    First(decl.children, "simple_identifier", j) && forall c | c in decl.children :: c.kind != ":"
  }

  /** `name = init` without a type, with the end of the name in the range: the type inferred for `init`, behind the name. */
  predicate PropertyShows(ix: Index, node: Node, range: LineRange, i: int, j: int, k: int, h: Hint) {
    && First(node.children, "variable_declaration", i) && Untyped(node.children[i], j) && BehindEq(node.children, k)
    && var name := node.children[i].children[j];
    && Trim(name.text) != "" && range.first <= name.end.row <= range.last && ix.infer(node.children[k]).Some?
    && h == Hint(name.end.row, ix.column(name.end), ix.subst(ix.infer(node.children[k]).value, name.end.row))
  }

  /** A lambda parameter without a type, named in lower case, with the start of the name in the range. */
  predicate ParamShows(ix: Index, param: Node, range: LineRange, j: int, h: Hint) {
    && param.kind == "variable_declaration" && Untyped(param, j)
    && var n := param.children[j];
    && var name := Trim(n.text);
    && name != "" && 'a' <= name[0] <= 'z' && range.first <= n.start.row <= range.last && ix.contextual(name, n.start).Some?
    && h == Hint(n.end.row, ix.column(n.end), ix.subst(ix.contextual(name, n.start).value, n.start.row))
  }

  /** `fun f(...) = expr` without a type, with the end of the parameters in the range: the type of `expr`, behind them. */
  predicate FunctionShows(ix: Index, node: Node, range: LineRange, b: int, i: int, h: Hint) {
    && Last(node.children, "function_body", b) && Last(node.children, "function_value_parameters", i)
    && (forall c | c in node.children :: c.kind != ":")
    && var body, params := node.children[b], node.children[i];
    && |body.children| >= 2 && body.children[0].kind == "=" && range.first <= params.end.row <= range.last
    && ix.infer(body.children[1]).Some?
    && h == Hint(params.end.row, ix.column(params.end), ix.infer(body.children[1]).value)
  }

  /** An implicit receiver whose start is in the range: its type, behind it. */
  predicate ReceiverShows(ix: Index, node: Node, range: LineRange, h: Hint) {
    && var name := if node.kind == "this_expression" then "this" else "it";
    && range.first <= node.start.row <= range.last && ix.contextual(name, node.start).Some?
    && h == Hint(node.end.row, ix.column(node.end), ix.subst(ix.contextual(name, node.start).value, node.start.row))
  }

  lemma {:induction false} FirstIndex(ts: seq<Node>, kind: string) returns (i: int)
    ensures match FirstOfKind(ts, kind)
      case None => forall i :: !First(ts, kind, i)
      case Some(t) => First(ts, kind, i) && ts[i] == t
  {
    i := 0;
    if ts != [] && ts[0].kind != kind {
      i := FirstIndex(ts[1..], kind);
      forall c ensures First(ts, kind, c) <==> First(ts[1..], kind, c - 1) {
        if First(ts, kind, c) {
          assert forall d | 0 <= d < c - 1 :: ts[1..][d] == ts[d + 1];
        }
      }
      i := i + 1;
    }
  }

  lemma {:induction false} LastIndex(ts: seq<Node>, kind: string) returns (i: int)
    ensures match LastOfKind(ts, kind)
      case None => forall i :: !Last(ts, kind, i)
      case Some(t) => Last(ts, kind, i) && ts[i] == t
  {
    i := |ts| - 1;
    if ts != [] && ts[|ts| - 1].kind != kind {
      i := LastIndex(ts[..|ts| - 1], kind);
      forall c ensures Last(ts, kind, c) <==> Last(ts[..|ts| - 1], kind, c) {
      }
    }
  }

  /** Child `k` is the first that is not an `=`. */
  predicate FirstOther(ts: seq<Node>, k: int) {
    0 <= k < |ts| && ts[k].kind != "=" && forall c | 0 <= c < k :: ts[c].kind == "="
  }

  lemma {:induction false} OtherIndex(ts: seq<Node>) returns (k: int)
    ensures match Initializer(ts, true)
      case None => forall k :: !FirstOther(ts, k)
      case Some(t) => FirstOther(ts, k) && ts[k] == t
  {
    k := 0;
    if ts != [] && ts[0].kind == "=" {
      k := OtherIndex(ts[1..]);
      forall c ensures FirstOther(ts, c) <==> FirstOther(ts[1..], c - 1) {
        if FirstOther(ts, c) {
          assert forall d | 0 <= d < c - 1 :: ts[1..][d] == ts[d + 1];
        }
      }
      k := k + 1;
    }
  }

  lemma {:induction false} InitializerIndex(ts: seq<Node>) returns (k: int)
    ensures match Initializer(ts, false)
      case None => forall k :: !BehindEq(ts, k)
      case Some(t) => BehindEq(ts, k) && ts[k] == t
  {
    k := 0;
    if ts != [] {
      if ts[0].kind == "=" {
        k := OtherIndex(ts[1..]);
        forall c ensures BehindEq(ts, c) <==> FirstOther(ts[1..], c - 1) {
          BehindFirst(ts, c);
        }
      } else {
        k := InitializerIndex(ts[1..]);
        forall c ensures BehindEq(ts, c) <==> BehindEq(ts[1..], c - 1) {
          BehindOther(ts, c);
        }
      }
      k := k + 1;
    }
  }

  lemma BehindFirst(ts: seq<Node>, k: int)
    requires ts != [] && ts[0].kind == "="
    ensures BehindEq(ts, k) <==> FirstOther(ts[1..], k - 1)
  {
    if BehindEq(ts, k) {
      assert forall c | 0 <= c < k - 1 :: ts[1..][c] == ts[c + 1];
    }
  }

  lemma BehindOther(ts: seq<Node>, k: int)
    requires ts != [] && ts[0].kind != "="
    ensures BehindEq(ts, k) <==> BehindEq(ts[1..], k - 1)
  {
    if BehindEq(ts, k) {
      var e :| 0 <= e < k && ts[e].kind == "=";
      assert ts[1..][e - 1] == ts[e];
    }
  }

  /** A property shows the type of its initializer behind its name, at most once, unless it has a type. */
  lemma PropertyHint(ix: Index, node: Node, range: LineRange)
    requires node.kind == "property_declaration"
    ensures |NodeHints(ix, node, range)| <= 1
    ensures forall h :: h in NodeHints(ix, node, range) <==> exists i, j, k :: PropertyShows(ix, node, range, i, j, k, h)
  {
    var i := FirstIndex(node.children, "variable_declaration");
    var k := InitializerIndex(node.children);
    if FirstOfKind(node.children, "variable_declaration").Some? {
      var j := FirstIndex(node.children[i].children, "simple_identifier");
      forall h ensures h in NodeHints(ix, node, range) <==> exists i, j, k :: PropertyShows(ix, node, range, i, j, k, h) {
        assert h in NodeHints(ix, node, range) <==> PropertyShows(ix, node, range, i, j, k, h);
        forall i', j', k' | PropertyShows(ix, node, range, i', j', k', h) ensures i' == i && j' == j && k' == k {
        }
      }
    }
  }

  /** A function with an expression body shows the type of that expression behind its parameters, unless it has a type. */
  lemma FunctionHint(ix: Index, node: Node, range: LineRange)
    requires node.kind == "function_declaration"
    ensures |NodeHints(ix, node, range)| <= 1
    ensures forall h :: h in NodeHints(ix, node, range) <==> exists b, i :: FunctionShows(ix, node, range, b, i, h)
  {
    var b := LastIndex(node.children, "function_body");
    var i := LastIndex(node.children, "function_value_parameters");
    forall h ensures h in NodeHints(ix, node, range) <==> exists b, i :: FunctionShows(ix, node, range, b, i, h) {
      assert h in NodeHints(ix, node, range) <==> FunctionShows(ix, node, range, b, i, h);
      forall b', i' | FunctionShows(ix, node, range, b', i', h) ensures b' == b && i' == i {
      }
    }
  }

  /** `it` and `this` show their type behind them. */
  lemma ReceiverHints(ix: Index, node: Node, range: LineRange)
    requires node.kind == "this_expression" || (node.kind == "simple_identifier" && node.text == "it")
    ensures |NodeHints(ix, node, range)| <= 1
    ensures forall h :: h in NodeHints(ix, node, range) <==> ReceiverShows(ix, node, range, h)
  {
  }

  /** `hints` is what one lambda parameter shows, at most one hint. */
  ghost predicate Shown(ix: Index, param: Node, range: LineRange, hints: seq<Hint>) {
    |hints| <= 1 && forall h :: h in hints <==> exists j :: ParamShows(ix, param, range, j, h)
  }

  lemma ParamShown(ix: Index, param: Node, range: LineRange)
    ensures Shown(ix, param, range, ParamHint(ix, param, range))
  {
    var j := FirstIndex(param.children, "simple_identifier");
    forall h ensures h in ParamHint(ix, param, range) <==> exists j :: ParamShows(ix, param, range, j, h) {
      assert h in ParamHint(ix, param, range) <==> ParamShows(ix, param, range, j, h);
      forall j' | ParamShows(ix, param, range, j', h) ensures j' == j {
      }
    }
  }

  /** Hints of all the parameters, in order. */
  ghost predicate AllShown(ix: Index, params: seq<Node>, range: LineRange, hints: seq<Hint>) {
    exists parts: seq<seq<Hint>> :: |parts| == |params| && hints == Concat(parts)
      && forall m | 0 <= m < |params| :: Shown(ix, params[m], range, parts[m])
  }

  lemma {:induction false} ParamsShown(ix: Index, params: seq<Node>, range: LineRange)
    ensures AllShown(ix, params, range, ParamHints(ix, params, range))
  {
    hide Shown, ParamHint;
    if params == [] {
      assert Concat<Hint>([]) == [];
    } else {
      ParamShown(ix, params[0], range);
      ParamsShown(ix, params[1..], range);
      var rest: seq<seq<Hint>> :| |rest| == |params[1..]| && ParamHints(ix, params[1..], range) == Concat(rest)
        && forall m | 0 <= m < |params[1..]| :: Shown(ix, params[1..][m], range, rest[m]);
      var parts := [ParamHint(ix, params[0], range)] + rest;
      assert parts[1..] == rest;
      forall m | 0 <= m < |params| ensures Shown(ix, params[m], range, parts[m]) {
        assert m > 0 ==> params[m] == params[1..][m - 1];
      }
    }
  }

  /** A lambda shows the types of its parameters, in order. */
  lemma LambdaHint(ix: Index, node: Node, range: LineRange, i: int)
    requires node.kind == "lambda_literal"
    ensures First(node.children, "lambda_parameters", i) ==>
      AllShown(ix, node.children[i].children, range, NodeHints(ix, node, range))
    ensures (forall c | c in node.children :: c.kind != "lambda_parameters") ==> NodeHints(ix, node, range) == []
  {
    hide AllShown;
    var first := FirstIndex(node.children, "lambda_parameters");
    if First(node.children, "lambda_parameters", i) {
      ParamsShown(ix, node.children[i].children, range);
    }
  }

  /** Nodes of any other kind show nothing. */
  lemma OtherNodes(ix: Index, node: Node, range: LineRange)
    requires node.kind != "lambda_literal" && node.kind != "this_expression" && node.kind != "property_declaration"
    requires node.kind != "function_declaration" && (node.kind == "simple_identifier" ==> node.text != "it")
    ensures NodeHints(ix, node, range) == []
  {
  }

  // ----- the reference: every node, in document order

  ghost function AllHints(ix: Index, t: Node, range: LineRange): seq<Hint> {
    NodeHints(ix, t, range) + AllHintsOf(ix, t.children, range)
  }

  ghost function AllHintsOf(ix: Index, ts: seq<Node>, range: LineRange): seq<Hint> {
    if ts == [] then [] else AllHints(ix, ts[0], range) + AllHintsOf(ix, ts[1..], range)
  }

  /** The hints of the nodes after the subtree of the current node. */
  ghost function HintsAfter(ix: Index, cursor: Cursor, range: LineRange): seq<Hint> {
    if cursor == [] then []
    else
      var last := cursor[|cursor| - 1];
      (if last.index < |last.siblings| then AllHintsOf(ix, last.siblings[last.index + 1..], range) else [])
      + HintsAfter(ix, cursor[..|cursor| - 1], range)
  }

  /** The hints of the current node's subtree and everything behind it. */
  ghost function HintsFrom(ix: Index, cursor: Cursor, range: LineRange): seq<Hint>
    requires Positioned(cursor)
  {
    AllHints(ix, Current(cursor), range) + HintsAfter(ix, cursor, range)
  }

  // ----- why pruning loses nothing

  /** Every guard line lies in the lines its node spans. */
  lemma NodeOutside(ix: Index, t: Node, range: LineRange)
    requires WellFormed(t) && (t.end.row < range.first || range.last < t.start.row)
    ensures NodeHints(ix, t, range) == []
  {
    if t.kind == "lambda_literal" {
      var list := FirstOfKind(t.children, "lambda_parameters");
      if list.Some? {
        ParamsOutside(ix, t, list.value.children, range);
      }
    } else if t.kind == "property_declaration" {
      assert PropertyHints(ix, t, range) == [] by {
        var decl := FirstOfKind(t.children, "variable_declaration");
        if decl.Some? && UntypedName(decl.value).Some? {
          assert WellFormed(decl.value) && Within(UntypedName(decl.value).value, decl.value);
        }
      }
    }
  }

  lemma {:induction false} ParamsOutside(ix: Index, t: Node, params: seq<Node>, range: LineRange)
    requires t.end.row < range.first || range.last < t.start.row
    requires forall p | p in params :: WellFormed(p) && PointLe(t.start, p.start) && PointLe(p.end, t.end)
    ensures ParamHints(ix, params, range) == []
  {
    if params != [] {
      assert params[0] in params;
      if UntypedName(params[0]).Some? {
        var n := UntypedName(params[0]).value;
        assert Within(n, params[0]) && WellFormed(n);
      }
      ParamsOutside(ix, t, params[1..], range);
    }
  }

  /** A subtree that lies wholly before or after the requested lines yields nothing. */
  lemma {:induction false} SubtreeOutside(ix: Index, t: Node, range: LineRange)
    requires WellFormed(t) && (t.end.row < range.first || range.last < t.start.row)
    ensures AllHints(ix, t, range) == []
    decreases t, 1
  {
    NodeOutside(ix, t, range);
    ListOutside(ix, t.children, range);
  }

  lemma {:induction false} ListOutside(ix: Index, ts: seq<Node>, range: LineRange)
    requires forall t | t in ts :: WellFormed(t) && (t.end.row < range.first || range.last < t.start.row)
    ensures AllHintsOf(ix, ts, range) == []
    decreases ts, 0
  {
    if ts != [] {
      SubtreeOutside(ix, ts[0], range);
      ListOutside(ix, ts[1..], range);
    }
  }

  /** Rows never decrease in document order: behind a node that starts late, all nodes start late. */
  lemma {:induction false} RestOutside(ix: Index, root: Node, cursor: Cursor, range: LineRange)
    requires WellFormed(root) && CursorOk(root, cursor) && range.last < Current(cursor).end.row
    ensures HintsAfter(ix, cursor, range) == []
    decreases |cursor|
  {
    var last := cursor[|cursor| - 1];
    var rest := last.siblings[last.index + 1..];
    SiblingsLate(root, cursor, rest);
    ListOutside(ix, rest, range);
    if |cursor| > 1 {
      CursorMoves(root, cursor);
      CursorWellFormed(root, Parent(cursor));
      assert Within(Current(cursor), Current(Parent(cursor)));
      RestOutside(ix, root, Parent(cursor), range);
    }
  }

  lemma SiblingsLate(root: Node, cursor: Cursor, rest: seq<Node>)
    requires WellFormed(root) && CursorOk(root, cursor)
    requires var last := cursor[|cursor| - 1]; rest == last.siblings[last.index + 1..]
    ensures forall t | t in rest :: WellFormed(t) && Current(cursor).end.row <= t.start.row
  {
    CursorWellFormed(root, cursor);
    var last := cursor[|cursor| - 1];
    forall i | 0 <= i < |rest| ensures WellFormed(rest[i]) && Current(cursor).end.row <= rest[i].start.row {
      assert rest[i] == last.siblings[last.index + 1 + i];
      assert Follows(last.siblings[last.index], last.siblings[last.index + 1 + i]);
    }
  }

  /** Nothing is lost by stopping at a node that starts after the requested lines. */
  lemma StopIsSafe(ix: Index, root: Node, cursor: Cursor, range: LineRange)
    requires WellFormed(root) && CursorOk(root, cursor) && range.last < Current(cursor).start.row
    ensures HintsFrom(ix, cursor, range) == []
  {
    CursorWellFormed(root, cursor);
    SubtreeOutside(ix, Current(cursor), range);
    RestOutside(ix, root, cursor, range);
  }

  /** Nothing is lost by skipping a subtree that ends before the requested lines. */
  lemma SkipIsSafe(ix: Index, root: Node, cursor: Cursor, range: LineRange)
    requires WellFormed(root) && CursorOk(root, cursor) && Current(cursor).end.row < range.first
    ensures HintsFrom(ix, cursor, range) == HintsAfter(ix, cursor, range)
  {
    CursorWellFormed(root, cursor);
    SubtreeOutside(ix, Current(cursor), range);
  }

  lemma Shift(n: seq<Hint>, a: seq<Hint>, b: seq<Hint>, c: seq<Hint>)
    ensures (n + (a + b)) + c == n + (a + (b + c))
  {
  }

  lemma HintsDown(ix: Index, cursor: Cursor, range: LineRange)
    requires Positioned(cursor) && HasFirstChild(cursor)
    ensures HintsFrom(ix, cursor, range) == NodeHints(ix, Current(cursor), range) + HintsFrom(ix, FirstChild(cursor), range)
  {
    var node, child := Current(cursor), FirstChild(cursor);
    assert child[..|cursor|] == cursor;
    assert child[|child| - 1] == Frame(node.children, 0) && child[..|child| - 1] == cursor;
    assert HintsAfter(ix, child, range) == AllHintsOf(ix, node.children[1..], range) + HintsAfter(ix, cursor, range);
    assert AllHintsOf(ix, node.children, range)
        == AllHints(ix, node.children[0], range) + AllHintsOf(ix, node.children[1..], range);
    Shift(NodeHints(ix, node, range), AllHints(ix, node.children[0], range), AllHintsOf(ix, node.children[1..], range),
          HintsAfter(ix, cursor, range));
  }

  lemma HintsBeside(ix: Index, cursor: Cursor, range: LineRange)
    requires Positioned(cursor) && HasNextSibling(cursor)
    ensures HintsFrom(ix, NextSibling(cursor), range) == HintsAfter(ix, cursor, range)
  {
    var last, next := cursor[|cursor| - 1], NextSibling(cursor);
    var rest := last.siblings[last.index + 1..];
    assert next[..|cursor| - 1] == cursor[..|cursor| - 1];
    assert rest[1..] == last.siblings[last.index + 2..];
    Regroup(AllHints(ix, rest[0], range), AllHintsOf(ix, rest[1..], range), HintsAfter(ix, cursor[..|cursor| - 1], range));
  }

  lemma HintsUp(ix: Index, cursor: Cursor, range: LineRange)
    requires Positioned(cursor) && !HasNextSibling(cursor)
    ensures HintsAfter(ix, cursor, range) == if HasParent(cursor) then HintsAfter(ix, Parent(cursor), range) else []
  {
    var last := cursor[|cursor| - 1];
    assert last.siblings[last.index + 1..] == [];
    if !HasParent(cursor) {
      assert cursor[..|cursor| - 1] == [];
    }
  }

  // ----- the walk

  /** The hints for the lines in `range`; the cursor visits only what it must. */
  method CstHints(ix: Index, root: Node, range: LineRange) returns (hints: seq<Hint>)
    requires WellFormed(root)
    ensures hints == AllHints(ix, root, range)
  {
    hints := [];
    var cursor := [Frame([root], 0)];
    ghost var all := AllHints(ix, root, range);
    assert HintsFrom(ix, [Frame([root], 0)], range) == AllHints(ix, root, range) by {
      var cursor := [Frame([root], 0)];
      assert cursor[..0] == [] && [root][1..] == [];
      assert HintsAfter(ix, cursor, range) == [];
    }
    label walk:
    while true
      invariant CursorOk(root, cursor)
      invariant hints + HintsFrom(ix, cursor, range) == all
      decreases Size(Current(cursor)) + SizeAfter(cursor)
    {
      var node := Current(cursor);
      if node.start.row > range.last {
        StopIsSafe(ix, root, cursor, range);
        break;
      }
      if node.end.row < range.first {
        SkipIsSafe(ix, root, cursor, range);
        var found, next := LeaveSubtree(ix, root, cursor, range);
        if !found {
          break;
        }
        cursor := next;
        continue walk;
      }
      Regroup(hints, NodeHints(ix, node, range), Remaining(ix, cursor, range));
      hints := VisitNode(ix, node, range, hints);
      SizeMoves(root, cursor);
      if HasFirstChild(cursor) {
        CursorMoves(root, cursor);
        HintsDown(ix, cursor, range);
        cursor := FirstChild(cursor);
        continue walk;
      }
      assert HintsFrom(ix, cursor, range) == NodeHints(ix, Current(cursor), range) + HintsAfter(ix, cursor, range) by {
        assert AllHints(ix, Current(cursor), range) == NodeHints(ix, Current(cursor), range);
      }
      var found, next := LeaveSubtree(ix, root, cursor, range);
      if !found {
        break;
      }
      cursor := next;
    }
  }

  /** What is left once the current node itself has been dealt with. */
  ghost function Remaining(ix: Index, cursor: Cursor, range: LineRange): seq<Hint>
    requires Positioned(cursor)
  {
    if HasFirstChild(cursor) then HintsFrom(ix, FirstChild(cursor), range) else HintsAfter(ix, cursor, range)
  }

  /** The inner loops of the walk: the next sibling of the current node or of its nearest ancestor with one. */
  method LeaveSubtree(ghost ix: Index, ghost root: Node, start: Cursor, ghost range: LineRange)
    returns (found: bool, next: Cursor)
    requires CursorOk(root, start)
    ensures found ==> CursorOk(root, next) && HintsFrom(ix, next, range) == HintsAfter(ix, start, range)
    ensures found ==> Size(Current(next)) + SizeAfter(next) == SizeAfter(start)
    ensures !found ==> HintsAfter(ix, start, range) == []
  {
    next := start;
    while true
      invariant CursorOk(root, next)
      invariant HintsAfter(ix, next, range) == HintsAfter(ix, start, range) && SizeAfter(next) == SizeAfter(start)
      decreases |next|
    {
      CursorMoves(root, next);
      SizeMoves(root, next);
      if HasNextSibling(next) {
        HintsBeside(ix, next, range);
        next := NextSibling(next);
        return true, next;
      }
      HintsUp(ix, next, range);
      if !HasParent(next) {
        return false, next;
      }
      next := Parent(next);
    }
  }

  /** The `match` on the node's kind; lambda parameters are pushed one at a time. */
  method VisitNode(ix: Index, node: Node, range: LineRange, before: seq<Hint>) returns (hints: seq<Hint>)
    ensures hints == before + NodeHints(ix, node, range)
  {
    hints := before;
    if node.kind == "lambda_literal" {
      var list := FirstOfKind(node.children, "lambda_parameters");
      if list.Some? {
        var params := list.value.children;
        for i := 0 to |params|
          invariant hints + ParamHints(ix, params[i..], range) == before + ParamHints(ix, params, range)
        {
          assert params[i..][1..] == params[i + 1..];
          Regroup(hints, ParamHint(ix, params[i], range), ParamHints(ix, params[i + 1..], range));
          hints := hints + ParamHint(ix, params[i], range);
        }
      }
    } else {
      hints := hints + NodeHints(ix, node, range);
    }
  }
}
