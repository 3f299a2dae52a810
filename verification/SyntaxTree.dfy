/**
 Syntax trees as tree-sitter hands them out, seen from the walks in src/inlay_hints.rs,
 src/parser.rs and src/node_ext.rs: nodes with spans, nested in their parents, and siblings in
 order without overlap.
 */
module SyntaxTree {

  datatype Point = Point(row: nat, column: nat)

  predicate PointLe(a: Point, b: Point) {
    a.row < b.row || (a.row == b.row && a.column <= b.column)
  }

  datatype Node = Node(
    kind: string, start: Point, end: Point, startByte: nat, endByte: nat,
    text: string, isError: bool, isMissing: bool, children: seq<Node>)

  /** `b` does not begin before `a` ends. */
  predicate Follows(a: Node, b: Node) {
    PointLe(a.end, b.start) && a.endByte <= b.startByte
  }

  predicate Within(a: Node, b: Node) {
    PointLe(b.start, a.start) && PointLe(a.end, b.end) && b.startByte <= a.startByte && a.endByte <= b.endByte
  }

  ghost predicate WellFormed(t: Node) {
    && PointLe(t.start, t.end) && t.startByte <= t.endByte
    && (forall c | c in t.children :: WellFormed(c) && Within(c, t))
    && forall i, j | 0 <= i < j < |t.children| :: Follows(t.children[i], t.children[j])
  }

  function Size(t: Node): nat
    ensures Size(t) > 0
  {
    1 + SizeAll(t.children)
  }

  function SizeAll(ts: seq<Node>): nat {
    if ts == [] then 0 else Size(ts[0]) + SizeAll(ts[1..])
  }

  // ----- cursors

  /** A list of siblings and the position in it. */
  datatype Frame = Frame(siblings: seq<Node>, index: nat)

  /** tree-sitter's tree cursor: the path from the root to the current node, innermost level last. */
  type Cursor = seq<Frame>

  ghost predicate CursorOk(root: Node, cursor: Cursor) {
    && cursor != [] && cursor[0] == Frame([root], 0)
    && (forall k | 0 <= k < |cursor| :: cursor[k].index < |cursor[k].siblings|)
    && forall k | 0 < k < |cursor| :: cursor[k].siblings == cursor[k - 1].siblings[cursor[k - 1].index].children
  }

  predicate Positioned(cursor: Cursor) {
    cursor != [] && cursor[|cursor| - 1].index < |cursor[|cursor| - 1].siblings|
  }

  function Current(cursor: Cursor): Node
    requires Positioned(cursor)
  {
    cursor[|cursor| - 1].siblings[cursor[|cursor| - 1].index]
  }

  predicate HasFirstChild(cursor: Cursor)
    requires Positioned(cursor)
  {
    Current(cursor).children != []
  }

  function FirstChild(cursor: Cursor): Cursor
    requires Positioned(cursor) && HasFirstChild(cursor)
  {
    cursor + [Frame(Current(cursor).children, 0)]
  }

  predicate HasNextSibling(cursor: Cursor)
    requires Positioned(cursor)
  {
    cursor[|cursor| - 1].index + 1 < |cursor[|cursor| - 1].siblings|
  }

  function NextSibling(cursor: Cursor): Cursor
    requires Positioned(cursor) && HasNextSibling(cursor)
  {
    var last := cursor[|cursor| - 1];
    cursor[..|cursor| - 1] + [Frame(last.siblings, last.index + 1)]
  }

  predicate HasParent(cursor: Cursor) {
    |cursor| > 1
  }

  function Parent(cursor: Cursor): Cursor
    requires HasParent(cursor)
  {
    cursor[..|cursor| - 1]
  }

  /** How many nodes come after the subtree of the current node. */
  ghost function SizeAfter(cursor: Cursor): nat {
    if cursor == [] then 0
    else
      var last := cursor[|cursor| - 1];
      (if last.index < |last.siblings| then SizeAll(last.siblings[last.index + 1..]) else 0)
      + SizeAfter(cursor[..|cursor| - 1])
  }

  lemma CursorMoves(root: Node, cursor: Cursor)
    requires CursorOk(root, cursor)
    ensures Positioned(cursor)
    ensures HasFirstChild(cursor) ==> CursorOk(root, FirstChild(cursor))
    ensures HasNextSibling(cursor) ==> CursorOk(root, NextSibling(cursor))
    ensures HasParent(cursor) ==> CursorOk(root, Parent(cursor)) && Current(cursor) in Current(Parent(cursor)).children
  {
  }

  lemma SizeMoves(root: Node, cursor: Cursor)
    requires CursorOk(root, cursor)
    ensures HasFirstChild(cursor) ==>
      Size(Current(FirstChild(cursor))) + SizeAfter(FirstChild(cursor)) + 1 == Size(Current(cursor)) + SizeAfter(cursor)
    ensures HasNextSibling(cursor) ==>
      Size(Current(NextSibling(cursor))) + SizeAfter(NextSibling(cursor)) == SizeAfter(cursor)
    ensures !HasNextSibling(cursor) && HasParent(cursor) ==> SizeAfter(Parent(cursor)) == SizeAfter(cursor)
  {
    if HasFirstChild(cursor) {
      assert FirstChild(cursor)[..|cursor|] == cursor;
    }
    if HasNextSibling(cursor) {
      var last, next := cursor[|cursor| - 1], NextSibling(cursor);
      assert next[..|cursor| - 1] == cursor[..|cursor| - 1];
      assert last.siblings[last.index + 1..][1..] == last.siblings[last.index + 2..];
    }
  }

  /** The whole tree is well formed below the root of a cursor, at the current node and beside it. */
  lemma {:induction false} CursorWellFormed(root: Node, cursor: Cursor)
    requires WellFormed(root) && CursorOk(root, cursor)
    ensures WellFormed(Current(cursor))
    ensures var last := cursor[|cursor| - 1];
      && (forall s | s in last.siblings :: WellFormed(s))
      && forall i, j | 0 <= i < j < |last.siblings| :: Follows(last.siblings[i], last.siblings[j])
    decreases |cursor|
  {
    if |cursor| > 1 {
      CursorWellFormed(root, cursor[..|cursor| - 1]);
    }
  }
}
