/**
 The order of same-named definitions (src/indexer.rs, `workspace_def_candidates`): library entries
 are dropped, the others are sorted by URI and start with a sort that need not be stable, and the
 first 64 are kept.
 */
module Candidates {
  import opened Text

  const MAX_BY_NAME_DEFS := 64

  datatype Position = Position(line: nat, character: nat)

  datatype Range = Range(start: Position, end: Position)

  datatype SymbolLoc = SymbolLoc(file: nat, range: Range)

  datatype Location = Location(uri: string, range: Range)

  // ----- the key order

  /** Lexicographic order of strings. */
  predicate StringLe(a: string, b: string) {
    a == "" || (b != "" && (a[0] < b[0] || (a[0] == b[0] && StringLe(a[1..], b[1..]))))
  }

  lemma {:induction false} StringLeTotal(a: string, b: string)
    ensures StringLe(a, b) || StringLe(b, a)
  {
    if a != "" && b != "" {
      StringLeTotal(a[1..], b[1..]);
    }
  }

  lemma {:induction false} StringLeAntisymmetric(a: string, b: string)
    requires StringLe(a, b) && StringLe(b, a)
    ensures a == b
  {
    if a != "" {
      StringLeAntisymmetric(a[1..], b[1..]);
      assert a == [a[0]] + a[1..] && b == [b[0]] + b[1..];
    }
  }

  lemma {:induction false} StringLeTransitive(a: string, b: string, c: string)
    requires StringLe(a, b) && StringLe(b, c)
    ensures StringLe(a, c)
  {
    if a != "" && a[0] == b[0] == c[0] {
      StringLeTransitive(a[1..], b[1..], c[1..]);
    }
  }

  predicate SameKey(a: Location, b: Location) {
    a.uri == b.uri && a.range.start == b.range.start
  }

  /** By URI, then by start position. */
  predicate KeyLe(a: Location, b: Location) {
    if a.uri == b.uri then
      a.range.start.line < b.range.start.line
      || (a.range.start.line == b.range.start.line && a.range.start.character <= b.range.start.character)
    else StringLe(a.uri, b.uri)
  }

  /** `a` comes before `b` in the dictionary: it is the beginning of `b`, or has the smaller character where they part. */
  ghost predicate ComesBefore(a: string, b: string) {
    a < b || exists i | 0 <= i < |a| && i < |b| :: a[..i] == b[..i] && a[i] < b[i]
  }

  lemma {:induction false} StringOrder(a: string, b: string)
    ensures StringLe(a, b) <==> a == b || ComesBefore(a, b)
  {
    if a != "" && b != "" && a[0] == b[0] {
      StringOrder(a[1..], b[1..]);
      assert a == [a[0]] + a[1..] && b == [b[0]] + b[1..];
      if i :| 0 <= i < |a| && i < |b| && a[..i] == b[..i] && a[i] < b[i] {
        assert a[1..][..i - 1] == a[..i][1..] && b[1..][..i - 1] == b[..i][1..];
      }
      if i :| 0 <= i < |a[1..]| && i < |b[1..]| && a[1..][..i] == b[1..][..i] && a[1..][i] < b[1..][i] {
        assert a[..i + 1] == [a[0]] + a[1..][..i] && b[..i + 1] == [b[0]] + b[1..][..i];
      }
    } else if a != "" && b != "" {
      assert a[..0] == b[..0];
    }
  }

  /** The order of the candidates: by URI as in a dictionary, then by line, then by character. */
  lemma KeyOrder(a: Location, b: Location)
    ensures var p, q := a.range.start, b.range.start;
      KeyLe(a, b) <==> if a.uri == b.uri then p.line < q.line || (p.line == q.line && p.character <= q.character)
                       else ComesBefore(a.uri, b.uri)
  {
    StringOrder(a.uri, b.uri);
  }

  lemma KeyLeTransitive(a: Location, b: Location, c: Location)
    requires KeyLe(a, b) && KeyLe(b, c)
    ensures KeyLe(a, c)
  {
    if a.uri != b.uri && b.uri != c.uri {
      StringLeTransitive(a.uri, b.uri, c.uri);
      if a.uri == c.uri {
        StringLeAntisymmetric(a.uri, b.uri);
      }
    }
  }

  // ----- the candidates

  /** The URI of an interned file. */
  function UrlOf(table: seq<string>, file: nat): Option<string> {
    if file < |table| then Some(table[file]) else None
  }

  /** The entries outside the libraries, in stored order. */
  function Workspace(table: seq<string>, libraries: set<string>, locs: seq<SymbolLoc>): seq<Location> {
    if locs == [] then [] else Entry(table, libraries, locs[0]) + Workspace(table, libraries, locs[1..])
  }

  function Entry(table: seq<string>, libraries: set<string>, loc: SymbolLoc): seq<Location> {
    match UrlOf(table, loc.file)
    case None => []
    case Some(url) => if url in libraries then [] else [Location(url, loc.range)]
  }

  ghost predicate Sorted(s: seq<Location>) {
    forall i, j | 0 <= i < j < |s| :: KeyLe(s[i], s[j])
  }

  /** Any result a correct sort may give. */
  ghost predicate SortOf(s: seq<Location>, entries: seq<Location>) {
    Sorted(s) && multiset(s) == multiset(entries)
  }

  function FirstCandidates(s: seq<Location>): seq<Location> {
    s[..Min(MAX_BY_NAME_DEFS, |s|)]
  }

  /** A list that `workspace_def_candidates` may return for these entries. */
  ghost predicate IsCandidates(r: seq<Location>, entries: seq<Location>) {
    exists s :: SortOf(s, entries) && r == FirstCandidates(s)
  }

  method WorkspaceDefCandidates(table: seq<string>, libraries: set<string>, locs: seq<SymbolLoc>) returns (r: seq<Location>)
    ensures IsCandidates(r, Workspace(table, libraries, locs))
  {
    var entries := Workspace(table, libraries, locs);
    var sorted: seq<Location> := [];
    for i := 0 to |entries|
      invariant SortOf(sorted, entries[..i])
    {
      assert entries[..i + 1] == entries[..i] + [entries[i]];
      sorted := Insert(sorted, entries[i]);
    }
    assert entries[..|entries|] == entries;
    r := FirstCandidates(sorted);
  }

  method Insert(s: seq<Location>, e: Location) returns (r: seq<Location>)
    requires Sorted(s)
    ensures Sorted(r) && multiset(r) == multiset(s) + multiset{e}
  {
    var k := 0;
    while k < |s| && KeyLe(s[k], e)
      invariant 0 <= k <= |s| && forall j | 0 <= j < k :: KeyLe(s[j], e)
    {
      k := k + 1;
    }
    r := s[..k] + [e] + s[k..];
    Inserted(s, e, k);
    forall j | k <= j < |s| ensures KeyLe(e, s[j]) {
      assert KeyLe(s[k], e) || KeyLe(e, s[k]) by {
        StringLeTotal(s[k].uri, e.uri);
      }
      if j > k {
        KeyLeTransitive(e, s[k], s[j]);
      }
    }
  }

  lemma Inserted(s: seq<Location>, e: Location, k: nat)
    requires k <= |s|
    ensures multiset(s[..k] + [e] + s[k..]) == multiset(s) + multiset{e}
  {
    assert s == s[..k] + s[k..];
  }

  /** The entries are the definitions in known files outside the libraries. */
  lemma {:induction false} WorkspaceIs(table: seq<string>, libraries: set<string>, locs: seq<SymbolLoc>, l: Location)
    ensures l in Workspace(table, libraries, locs) <==>
      exists d | d in locs :: d.file < |table| && table[d.file] !in libraries && l == Location(table[d.file], d.range)
  {
    if locs != [] {
      WorkspaceIs(table, libraries, locs[1..], l);
      assert locs == [locs[0]] + locs[1..];
    }
  }

  lemma {:induction false} WorkspaceAppend(table: seq<string>, libraries: set<string>, a: seq<SymbolLoc>, b: seq<SymbolLoc>)
    ensures Workspace(table, libraries, a + b) == Workspace(table, libraries, a) + Workspace(table, libraries, b)
  {
    if a == [] {
      assert a + b == b;
    } else {
      hide Entry;
      WorkspaceAppend(table, libraries, a[1..], b);
      assert (a + b)[1..] == a[1..] + b;
      Regroup(Entry(table, libraries, a[0]), Workspace(table, libraries, a[1..]), Workspace(table, libraries, b));
    }
  }

  lemma RemoveOne(a: seq<SymbolLoc>, b: seq<SymbolLoc>, j: nat)
    requires multiset(a) == multiset(b) && a != [] && j < |b| && b[j] == a[0]
    ensures multiset(a[1..]) == multiset(b[..j] + b[j + 1..])
  {
    assert a == [a[0]] + a[1..] && b == b[..j] + [b[j]] + b[j + 1..];
    assert multiset(a[1..]) == multiset(a) - multiset{a[0]};
  }

  /** The order in which files were indexed does not change the set of entries. */
  lemma {:induction false} WorkspaceOrder(table: seq<string>, libraries: set<string>, a: seq<SymbolLoc>, b: seq<SymbolLoc>)
    requires multiset(a) == multiset(b)
    ensures multiset(Workspace(table, libraries, a)) == multiset(Workspace(table, libraries, b))
    decreases |a|
  {
    if a == [] {
      assert |multiset(b)| == |b|;
    } else {
      hide Workspace;
      assert a[0] in multiset(b);
      var j :| 0 <= j < |b| && b[j] == a[0];
      var front, back := b[..j], b[j + 1..];
      assert a == [a[0]] + a[1..] && b == front + [b[j]] + back;
      RemoveOne(a, b, j);
      WorkspaceOrder(table, libraries, a[1..], front + back);
      WorkspaceAppend(table, libraries, [a[0]], a[1..]);
      WorkspaceAppend(table, libraries, front, back);
      WorkspaceAppend(table, libraries, front + [b[j]], back);
      WorkspaceAppend(table, libraries, front, [b[j]]);
    }
  }

  // ----- the list is determined

  /** Entries with the same key are the same, at least when one of them is among the first `n`. */
  ghost predicate NoTies(s: seq<Location>, n: nat) {
    forall i, j | 0 <= i < j < |s| && i < n && SameKey(s[i], s[j]) :: s[i] == s[j]
  }

  /** Two sorted lists of the same entries begin alike, up to ties. */
  lemma {:induction false} SortedAlike(s: seq<Location>, t: seq<Location>, n: nat)
    requires Sorted(s) && Sorted(t) && multiset(s) == multiset(t) && NoTies(s, n)
    ensures |s| == |t| && s[..Min(n, |s|)] == t[..Min(n, |t|)]
    decreases n
  {
    assert |multiset(s)| == |s| && |multiset(t)| == |t|;
    if n > 0 && s != [] {
      hide KeyLe, SameKey;
      HeadsAlike(s, t);
      TailOf(s);
      TailOf(t);
      SortedAlike(s[1..], t[1..], n - 1);
      HeadAndTail(s, n);
      HeadAndTail(t, n);
    }
  }

  lemma TailOf(s: seq<Location>)
    requires s != [] && Sorted(s)
    ensures multiset(s[1..]) == multiset(s) - multiset{s[0]} && Sorted(s[1..])
  {
    assert s == [s[0]] + s[1..];
  }

  lemma HeadAndTail(s: seq<Location>, n: nat)
    requires s != [] && n > 0
    ensures s[..Min(n, |s|)] == [s[0]] + s[1..][..Min(n - 1, |s[1..]|)]
  {
  }

  lemma HeadsAlike(s: seq<Location>, t: seq<Location>)
    requires Sorted(s) && Sorted(t) && multiset(s) == multiset(t) && s != [] && t != []
    requires forall j | 0 < j < |s| && SameKey(s[0], s[j]) :: s[0] == s[j]
    ensures s[0] == t[0]
  {
    assert t[0] in multiset(s) && s[0] in multiset(t);
    var j :| 0 <= j < |s| && s[j] == t[0];
    var k :| 0 <= k < |t| && t[k] == s[0];
    if j > 0 && k > 0 {
      assert SameKey(s[0], t[0]) by {
        if s[0].uri != t[0].uri {
          StringLeAntisymmetric(s[0].uri, t[0].uri);
        }
      }
    }
  }

  /** A tie can be broken in two ways. */
  lemma TieIsOpen(s: seq<Location>, i: nat, j: nat)
    requires Sorted(s) && i < j < |s| && i < 64 && SameKey(s[i], s[j]) && s[i] != s[j]
    ensures exists t :: SortOf(t, s) && FirstCandidates(t) != FirstCandidates(s)
  {
    var t := s[i := s[j]][j := s[i]];
    forall a, b | 0 <= a < b < |t| ensures KeyLe(t[a], t[b]) {
      KeyLeSame(s[a], s[b], t[a], t[b]);
    }
    assert FirstCandidates(t)[i] != FirstCandidates(s)[i];
  }

  lemma KeyLeSame(a: Location, b: Location, c: Location, d: Location)
    requires KeyLe(a, b) && SameKey(a, c) && SameKey(b, d)
    ensures KeyLe(c, d)
  {
  }

  /**
   However the entries are stored, the same entries give the same list, whichever sort is used, if
   and only if no two different ones, the first of them among the first 64, share URI and start.
   */
  lemma CandidatesDetermined(stored: seq<Location>, sorted: seq<Location>)
    requires SortOf(sorted, stored)
    ensures (forall again, r | multiset(again) == multiset(stored) && IsCandidates(r, again) :: r == FirstCandidates(sorted))
       <==> NoTies(sorted, 64)
  {
    hide KeyLe;
    if NoTies(sorted, 64) {
      forall again, r | multiset(again) == multiset(stored) && IsCandidates(r, again) ensures r == FirstCandidates(sorted) {
        var s :| SortOf(s, again) && r == FirstCandidates(s);
        SortedAlike(sorted, s, 64);
      }
    } else {
      var i, j :| 0 <= i < j < |sorted| && i < 64 && SameKey(sorted[i], sorted[j]) && sorted[i] != sorted[j];
      TieIsOpen(sorted, i, j);
      var t :| SortOf(t, sorted) && FirstCandidates(t) != FirstCandidates(sorted);
      assert SortOf(t, stored) && IsCandidates(FirstCandidates(t), stored);
    }
  }

  /** For example two definitions that start at the same place: either may come first. */
  lemma TieExample()
    ensures var a := Location("file:///A.kt", Range(Position(0, 0), Position(0, 1)));
      var b := Location("file:///A.kt", Range(Position(0, 0), Position(0, 2)));
      a != b && IsCandidates([a, b], [a, b]) && IsCandidates([b, a], [a, b])
  {
    var a := Location("file:///A.kt", Range(Position(0, 0), Position(0, 1)));
    var b := Location("file:///A.kt", Range(Position(0, 0), Position(0, 2)));
    assert multiset([b, a]) == multiset([a, b]);
    assert SortOf([a, b], [a, b]) && FirstCandidates([a, b]) == [a, b];
    assert SortOf([b, a], [a, b]) && FirstCandidates([b, a]) == [b, a];
  }

  /** With distinct keys, every order of the stored definitions gives the same answer. */
  lemma SameAnswer(table: seq<string>, libraries: set<string>, a: seq<SymbolLoc>, b: seq<SymbolLoc>,
                   ra: seq<Location>, rb: seq<Location>)
    requires multiset(a) == multiset(b)
    requires forall x, y | x in Workspace(table, libraries, a) && y in Workspace(table, libraries, a) && SameKey(x, y) :: x == y
    requires IsCandidates(ra, Workspace(table, libraries, a)) && IsCandidates(rb, Workspace(table, libraries, b))
    ensures ra == rb
  {
    hide KeyLe, Workspace;
    var entries := Workspace(table, libraries, a);
    WorkspaceOrder(table, libraries, a, b);
    var s :| SortOf(s, entries) && ra == FirstCandidates(s);
    forall i, j | 0 <= i < j < |s| && i < 64 && SameKey(s[i], s[j]) ensures s[i] == s[j] {
      assert s[i] in multiset(entries) && s[j] in multiset(entries);
    }
    CandidatesDetermined(entries, s);
  }

  /** The list holds the least entries: everything left out comes after everything kept. */
  lemma CandidatesAreLeast(entries: seq<Location>, r: seq<Location>)
    requires IsCandidates(r, entries)
    ensures Sorted(r) && |r| == Min(64, |entries|) && multiset(r) <= multiset(entries)
    ensures forall kept, left | kept in r && left in multiset(entries) - multiset(r) :: KeyLe(kept, left)
  {
    hide KeyLe;
    var s :| SortOf(s, entries) && r == FirstCandidates(s);
    var rest := s[|r|..];
    assert |multiset(s)| == |s| && |multiset(entries)| == |entries|;
    LeftOut(s, r, rest, multiset(entries));
    forall kept, left | kept in r && left in rest ensures KeyLe(kept, left) {
    }
  }

  lemma LeftOut(s: seq<Location>, r: seq<Location>, rest: seq<Location>, all: multiset<Location>)
    requires s == r + rest && multiset(s) == all
    ensures multiset(r) <= all && forall e | e in all - multiset(r) :: e in rest
  {
    assert all - multiset(r) == multiset(rest);
  }
}
