/**
 Scoped reference search (src/rg.rs): candidate files are found by text search (hop 1), widened to
 files that call a producer of the class (hop 2, within two caps), and searched for the name.  The
 text search is a parameter: any function from pattern and file to hits.  Hop 2 never changes what
 is found in the other files.
 */
module ReferenceSearch {
  import opened Text

  const MAX_OWNER_PRODUCING_MEMBER_NAMES := 8
  const MAX_PRODUCER_CANDIDATE_FILES := 256

  type Uri = string

  /** The patterns handed to the search tool. */
  datatype Pattern =
    Word(name: string) | Mention(owner: string) | Calls(members: seq<string>) | ImportOf | Qualified | InPackage(package: string)

  /** One line of output: where, and the text of the line. */
  datatype Hit = Hit(uri: Uri, line: nat, column: nat, content: string)

  datatype Location = Location(uri: Uri, line: nat, column: nat)

  datatype Producer = Producer(fileUri: Uri, member: string)

  datatype Request = Request(
    name: string, parentClass: Option<string>, declaredPkg: Option<string>, ownerClass: string, fieldDeclLine: Option<nat>,
    includeDecl: bool, fromUri: Uri, declFiles: seq<string>, scoped: bool,
    indexFiles: seq<string>, indexQualifiedFiles: seq<string>, producers: seq<Producer>)

  /** The search tool, the file system, and the tests on single lines of text. */
  datatype Env = Env(
    files: Pattern -> seq<string>,       // files with a match, in the configured scope
    hits: (Pattern, string) -> seq<Hit>, // matches in one file
    everywhere: Pattern -> seq<Hit>,     // matches in the whole scope
    usable: string -> bool,              // not ignored by the workspace configuration
    inScope: string -> bool,             // below a source root
    uriOf: string -> Option<Uri>,
    skip: Hit -> bool,                   // should_skip_reference
    declares: Hit -> bool,               // is_declaration_of
    declaresAt: Hit -> bool,             // is_declaration_occurrence_at
    javaMethod: Hit -> bool,             // is_java_method_declaration_at
    javaField: Hit -> bool,              // is_java_field_declaration_at
    hintsOwner: Hit -> bool,             // qualifier_hints_owner
    wrongQualifier: Hit -> bool)         // has_wrong_qualifier_at_col

  /** Hits carry the URI of their file, and a file has one path. */
  ghost predicate Sound(env: Env) {
    && (forall p, f, h | h in env.hits(p, f) :: env.uriOf(f) == Some(h.uri))
    && (forall f, g | env.uriOf(f).Some? && env.uriOf(f) == env.uriOf(g) :: f == g)
  }

  // ----- lists of files

  /** `extend_unique_files` and `merge_decl_files` */
  function ExtendUnique(files: seq<string>, more: seq<string>): (r: seq<string>)
    ensures files <= r
    ensures forall f | f in r[|files|..] :: f in more && f !in files
    decreases |more|
  {
    if more == [] then files
    else ExtendUnique(if more[0] in files then files else files + [more[0]], more[1..])
  }

  method ExtendUniqueFiles(files: seq<string>, more: seq<string>) returns (r: seq<string>)
    ensures r == ExtendUnique(files, more)
  {
    r := files;
    for i := 0 to |more|
      invariant ExtendUnique(r, more[i..]) == ExtendUnique(files, more)
    {
      assert more[i..][1..] == more[i + 1..];
      if more[i] !in r {
        r := r + [more[i]];
      }
    }
  }

  function Uris(env: Env, files: seq<string>): set<Uri> {
    set f | f in files && env.uriOf(f).Some? :: env.uriOf(f).value
  }

  function HitsIn(env: Env, p: Pattern, files: seq<string>): seq<Hit> {
    if files == [] then [] else env.hits(p, files[0]) + HitsIn(env, p, files[1..])
  }

  // ----- hop 2

  datatype Expansion = NoProducerFound | SkippedTooBroad | Found(files: seq<string>)

  /** The distinct members that hop-1 files declare with the wanted type, in order. */
  function ProducerNames(producers: seq<Producer>, uris: set<Uri>, names: seq<string>): seq<string> {
    if producers == [] then names
    else
      var p := producers[0];
      ProducerNames(producers[1..], uris, if p.fileUri in uris && p.member !in names then names + [p.member] else names)
  }

  function NotIn(files: seq<string>): string -> bool {
    (f: string) => f !in files
  }

  /** `producer_scoped_candidate_files` */
  function Expand(env: Env, req: Request, hop1: seq<string>): Expansion {
    var names := ProducerNames(req.producers, Uris(env, hop1), []);
    if names == [] then NoProducerFound
    else if |names| > MAX_OWNER_PRODUCING_MEMBER_NAMES then SkippedTooBroad
    else
      var files := Filter(env.files(Calls(names)), env.usable);
      if |Filter(files, NotIn(hop1))| > MAX_PRODUCER_CANDIDATE_FILES then SkippedTooBroad else Found(files)
  }

  method ProducerScopedCandidateFiles(env: Env, req: Request, hop1: seq<string>) returns (r: Expansion)
    ensures r == Expand(env, req, hop1)
  {
    var uris := Uris(env, hop1);
    var names: seq<string> := [];
    for i := 0 to |req.producers|
      invariant ProducerNames(req.producers[i..], uris, names) == ProducerNames(req.producers, uris, [])
    {
      assert req.producers[i..][1..] == req.producers[i + 1..];
      var candidate := req.producers[i];
      if candidate.fileUri !in uris {
        continue;
      }
      if candidate.member !in names {
        names := names + [candidate.member];
      }
    }
    if names == [] {
      return NoProducerFound;
    }
    if |names| > MAX_OWNER_PRODUCING_MEMBER_NAMES {
      return SkippedTooBroad;
    }
    var files := Filter(env.files(Calls(names)), env.usable);
    if |Filter(files, NotIn(hop1))| > MAX_PRODUCER_CANDIDATE_FILES {
      return SkippedTooBroad;
    }
    return Found(files);
  }

  /** The files hop 2 adds to `hop1`, if it is enabled and within its caps. */
  function Added(env: Env, req: Request, hop1: seq<string>, hop2: bool): seq<string> {
    if !hop2 then []
    else
      match Expand(env, req, hop1)
      case Found(files) => Filter(files, NotIn(hop1))
      case _ => []
  }

  function Widened(env: Env, req: Request, hop1: seq<string>, hop2: bool): seq<string> {
    if !hop2 then hop1
    else
      match Expand(env, req, hop1)
      case Found(files) => ExtendUnique(hop1, files)
      case _ => hop1
  }

  function ScopedDecls(env: Env, req: Request): seq<string> {
    if req.scoped then Filter(req.declFiles, env.inScope) else req.declFiles
  }

  predicate IsTypeName(name: string) {
    name != "" && 'A' <= name[0] <= 'Z'
  }

  // ----- the three searches, with hop 2 enabled or disabled

  predicate OwnerKeeps(env: Env, req: Request, discovered: set<Uri>, h: Hit) {
    if env.skip(h) then false
    else if h.uri == req.fromUri then req.includeDecl && env.declares(h)
    else !env.declares(h) && (h.uri in discovered || env.hintsOwner(h))
  }

  function OwnerKept(env: Env, req: Request, discovered: set<Uri>): Hit -> bool {
    (h: Hit) => OwnerKeeps(env, req, discovered, h)
  }

  /** `owner_scoped_reference_locations` */
  function OwnerSearch(env: Env, req: Request, hop2: bool): seq<Hit> {
    var hop1 := OwnerFiles(env, req);
    var discovered := Uris(env, Added(env, req, hop1, hop2));
    Filter(HitsIn(env, Word(req.name), Widened(env, req, hop1, hop2)), OwnerKept(env, req, discovered))
  }

  function OwnerFiles(env: Env, req: Request): seq<string> {
    Filter(env.files(Mention(req.ownerClass)), env.usable)
  }

  predicate FieldKeeps(env: Env, req: Request, h: Hit) {
    if env.skip(h) then false
    else if h.uri == req.fromUri then !env.declares(h) || req.fieldDeclLine.None? || req.fieldDeclLine == Some(h.line)
    else !env.declares(h) && !(EndsWith(h.uri, ".java") && (env.javaMethod(h) || env.javaField(h)))
  }

  function FieldKept(env: Env, req: Request): Hit -> bool {
    (h: Hit) => FieldKeeps(env, req, h)
  }

  /** `field_scoped_reference_locations` */
  function FieldSearch(env: Env, req: Request, hop2: bool): seq<Hit> {
    var files := ExtendUnique(Widened(env, req, OwnerFiles(env, req), hop2), ScopedDecls(env, req));
    Filter(HitsIn(env, Word(req.name), files), FieldKept(env, req))
  }

  predicate AppendKeeps(env: Env, req: Request, discovered: set<Uri>, h: Hit) {
    && !env.skip(h)
    && !(h.uri != req.fromUri && h.uri in discovered && env.declaresAt(h))
    && !(EndsWith(h.uri, ".java") && h.uri != req.fromUri && env.javaMethod(h))
    && !(req.parentClass.Some? && IsTypeName(req.name) && env.wrongQualifier(h))
  }

  function At(h: Hit): Location {
    Location(h.uri, h.line, h.column)
  }

  /** `append_unique_reference_hits` */
  function AppendUnique(env: Env, req: Request, discovered: set<Uri>, found: seq<Location>, hits: seq<Hit>): (r: seq<Location>)
    ensures found <= r
    ensures forall l | l in r[|found|..] :: l !in found && exists h :: h in hits && At(h) == l
    decreases |hits|
  {
    if hits == [] then found
    else
      var h := hits[0];
      AppendUnique(env, req, discovered,
        if AppendKeeps(env, req, discovered, h) && At(h) !in found then found + [At(h)] else found, hits[1..])
  }

  lemma AppendStep(env: Env, req: Request, discovered: set<Uri>, found: seq<Location>, hits: seq<Hit>, i: nat)
    requires i < |hits|
    ensures AppendUnique(env, req, discovered, found, hits[i..])
         == AppendUnique(env, req, discovered,
              if AppendKeeps(env, req, discovered, hits[i]) && At(hits[i]) !in found then found + [At(hits[i])] else found,
              hits[i + 1..])
  {
    assert hits[i..][0] == hits[i] && hits[i..][1..] == hits[i + 1..];
  }

  method AppendUniqueReferenceHits(env: Env, req: Request, discovered: set<Uri>, found: seq<Location>, hits: seq<Hit>)
    returns (locations: seq<Location>)
    ensures locations == AppendUnique(env, req, discovered, found, hits)
  {
    hide AppendKeeps, AppendUnique;
    assert hits[0..] == hits;
    locations := found;
    var seen := set l | l in found;
    for i := 0 to |hits|
      invariant seen == set l | l in locations
      invariant AppendUnique(env, req, discovered, locations, hits[i..]) == AppendUnique(env, req, discovered, found, hits)
    {
      AppendStep(env, req, discovered, locations, hits, i);
      if !AppendKeeps(env, req, discovered, hits[i]) {
        continue;
      }
      if At(hits[i]) !in seen {
        seen := seen + {At(hits[i])};
        locations := locations + [At(hits[i])];
      }
    }
    assert hits[|hits|..] == [];
    AppendNothing(env, req, discovered, locations);
  }

  lemma AppendNothing(env: Env, req: Request, discovered: set<Uri>, found: seq<Location>)
    ensures AppendUnique(env, req, discovered, found, []) == found
  {
  }

  /** The candidates of the parent-scoped search before hop 2. */
  function ParentFiles(env: Env, req: Request): seq<string> {
    var imported := Filter(if req.indexFiles != [] then req.indexFiles else env.files(ImportOf), env.usable);
    var files := ExtendUnique(imported, ScopedDecls(env, req));
    if IsTypeName(req.name) then files else ExtendUnique(files, SamePackage(env, req))
  }

  function SamePackage(env: Env, req: Request): seq<string> {
    if req.declaredPkg.Some? then Filter(env.files(InPackage(req.declaredPkg.value)), env.usable) else []
  }

  /** The qualified pass, which hop 2 does not concern. */
  function QualifiedPass(env: Env, req: Request): seq<Location> {
    if IsTypeName(req.name) && req.indexQualifiedFiles != [] then
      var own := ExtendUnique(Filter(req.indexQualifiedFiles, env.usable), SamePackage(env, req));
      var hits := HitsIn(env, Qualified, ExtendUnique(own, ParentFiles(env, req)));
      Locations(Filter(hits, (h: Hit) => h.content == "" || !env.skip(h)))
    else Locations(env.everywhere(Qualified))
  }

  function Locations(hits: seq<Hit>): seq<Location> {
    if hits == [] then [] else [At(hits[0])] + Locations(hits[1..])
  }

  /** `parent_scoped_reference_locations`; hop 2 runs for methods and properties of a class only. */
  function ParentSearch(env: Env, req: Request, hop2: bool): seq<Location> {
    var files := ParentFiles(env, req);
    var enabled := hop2 && !IsTypeName(req.name) && req.parentClass.Some?;
    var discovered := Uris(env, Added(env, req, files, enabled));
    AppendUnique(env, req, discovered, QualifiedPass(env, req), HitsIn(env, Word(req.name), Widened(env, req, files, enabled)))
  }

  // ----- what the two accumulating loops gather

  predicate Distinct<T(==)>(s: seq<T>) {
    forall i, j | 0 <= i < j < |s| :: s[i] != s[j]
  }

  /** The extended list is the union, without new repetitions. */
  lemma {:induction false} ExtendIsUnion(files: seq<string>, more: seq<string>)
    ensures forall f :: f in ExtendUnique(files, more) <==> f in files || f in more
    ensures Distinct(files) ==> Distinct(ExtendUnique(files, more))
    decreases |more|
  {
    if more != [] {
      assert more == [more[0]] + more[1..];
      ExtendIsUnion(if more[0] in files then files else files + [more[0]], more[1..]);
    }
  }

  ghost predicate Reported(env: Env, req: Request, discovered: set<Uri>, hits: seq<Hit>, l: Location) {
    exists h :: h in hits && AppendKeeps(env, req, discovered, h) && At(h) == l
  }

  /** The locations are those of the kept hits, on top of those found before, without new repetitions. */
  lemma {:induction false} AppendIsUnion(env: Env, req: Request, discovered: set<Uri>, found: seq<Location>, hits: seq<Hit>)
    ensures forall l ::
      l in AppendUnique(env, req, discovered, found, hits) <==> l in found || Reported(env, req, discovered, hits, l)
    ensures Distinct(found) ==> Distinct(AppendUnique(env, req, discovered, found, hits))
    decreases |hits|
  {
    if hits != [] {
      var h := hits[0];
      hide AppendKeeps;
      assert hits == [h] + hits[1..];
      var kept := AppendKeeps(env, req, discovered, h);
      AppendIsUnion(env, req, discovered, if kept && At(h) !in found then found + [At(h)] else found, hits[1..]);
      forall l
        ensures Reported(env, req, discovered, hits, l)
           <==> (kept && At(h) == l) || Reported(env, req, discovered, hits[1..], l)
      {
      }
    }
  }

  // ----- filters and hits of a list of files

  /** Two tests that agree on a list keep the same of it. */
  lemma {:induction false} FilterSame<T>(s: seq<T>, keep: T -> bool, keep': T -> bool)
    requires forall x | x in s :: keep(x) == keep'(x)
    ensures Filter(s, keep) == Filter(s, keep')
  {
    if s != [] {
      assert s[0] in s && forall x | x in s[1..] :: x in s;
      FilterSame(s[1..], keep, keep');
    }
  }

  lemma {:induction false} FilterAll<T>(s: seq<T>, keep: T -> bool)
    requires forall x | x in s :: keep(x)
    ensures Filter(s, keep) == s
  {
    if s != [] {
      assert s[0] in s && forall x | x in s[1..] :: x in s;
      FilterAll(s[1..], keep);
    }
  }

  lemma {:induction false} FilterNone<T>(s: seq<T>, keep: T -> bool)
    requires forall x | x in s :: !keep(x)
    ensures Filter(s, keep) == []
  {
    if s != [] {
      assert s[0] in s && forall x | x in s[1..] :: x in s;
      FilterNone(s[1..], keep);
    }
  }

  lemma {:induction false} FilterSwaps<T>(s: seq<T>, keep: T -> bool, keep': T -> bool)
    ensures Filter(Filter(s, keep), keep') == Filter(Filter(s, keep'), keep)
  {
    if s != [] {
      FilterSwaps(s[1..], keep, keep');
      assert [s[0]] + s[1..] == s;
      FilterCons(s[0], s[1..], keep);
      FilterCons(s[0], s[1..], keep');
      FilterCons(s[0], Filter(s[1..], keep), keep');
      FilterCons(s[0], Filter(s[1..], keep'), keep);
    }
  }

  lemma {:induction false} HitsInAppend(env: Env, p: Pattern, a: seq<string>, b: seq<string>)
    ensures HitsIn(env, p, a + b) == HitsIn(env, p, a) + HitsIn(env, p, b)
  {
    if a == [] {
      assert a + b == b;
    } else {
      HitsInAppend(env, p, a[1..], b);
      assert (a + b)[1..] == a[1..] + b;
      Regroup(env.hits(p, a[0]), HitsIn(env, p, a[1..]), HitsIn(env, p, b));
    }
  }

  /** A search of files hits only them. */
  lemma {:induction false} HitsInside(env: Env, p: Pattern, files: seq<string>, h: Hit)
    requires Sound(env) && h in HitsIn(env, p, files)
    ensures h.uri in Uris(env, files)
  {
    assert files[0] in files && forall f | f in files[1..] :: f in files;
    if h !in env.hits(p, files[0]) {
      HitsInside(env, p, files[1..], h);
    }
  }

  /** What hop 2 adds is appended, few and new. */
  lemma WidenedAppends(env: Env, req: Request, hop1: seq<string>, hop2: bool)
    ensures hop1 <= Widened(env, req, hop1, hop2)
    ensures forall f | f in Widened(env, req, hop1, hop2)[|hop1|..] :: f in Added(env, req, hop1, hop2)
    ensures |Added(env, req, hop1, hop2)| <= MAX_PRODUCER_CANDIDATE_FILES
    ensures forall f | f in Added(env, req, hop1, hop2) :: f !in hop1
  {
  }

  /** The hits after hop 2 are the hits before it, followed by hits in added files. */
  lemma WidenedHits(env: Env, req: Request, hop1: seq<string>, hop2: bool) returns (extra: seq<Hit>)
    requires Sound(env)
    ensures HitsIn(env, Word(req.name), Widened(env, req, hop1, hop2)) == HitsIn(env, Word(req.name), hop1) + extra
    ensures forall h | h in extra :: h.uri in Uris(env, Added(env, req, hop1, hop2))
    ensures forall h | h in HitsIn(env, Word(req.name), hop1) :: h.uri !in Uris(env, Added(env, req, hop1, hop2))
  {
    var widened, added := Widened(env, req, hop1, hop2), Added(env, req, hop1, hop2);
    WidenedAppends(env, req, hop1, hop2);
    var tail := widened[|hop1|..];
    assert widened == hop1 + tail;
    HitsInAppend(env, Word(req.name), hop1, tail);
    extra := HitsIn(env, Word(req.name), tail);
    forall h | h in extra ensures h.uri in Uris(env, added) {
      HitsInside(env, Word(req.name), tail, h);
    }
    forall h | h in HitsIn(env, Word(req.name), hop1) ensures h.uri !in Uris(env, added) {
      HitsInside(env, Word(req.name), hop1, h);
    }
  }

  // ----- hop 2 is conservative

  /**
   Hop 2 only appends to the owner-scoped search: what was found without it stays, in order, none of it in an
   added file, and everything after it is in one of the at most 256 added files, none of which hop 1 had.
   */
  lemma OwnerHop2(env: Env, req: Request)
    requires Sound(env)
    ensures var hop1, without, with := OwnerFiles(env, req), OwnerSearch(env, req, false), OwnerSearch(env, req, true);
      var added := Added(env, req, hop1, true);
      && without <= with
      && (forall h | h in without :: h.uri !in Uris(env, added))
      && (forall h | h in with[|without|..] :: h.uri in Uris(env, added))
      && |added| <= 256 && (forall f | f in added :: f !in hop1)
  {
    var hop1 := OwnerFiles(env, req);
    var extra := WidenedHits(env, req, hop1, true);
    WidenedAppends(env, req, hop1, true);
    var discovered := Uris(env, Added(env, req, hop1, true));
    var hits := HitsIn(env, Word(req.name), hop1);
    FilterAppend(hits, extra, OwnerKept(env, req, discovered));
    FilterSame(hits, OwnerKept(env, req, discovered), OwnerKept(env, req, Uris(env, Added(env, req, hop1, false))));
  }

  lemma {:induction false} AppendAppends(
    env: Env, req: Request, discovered: set<Uri>, found: seq<Location>, hits: seq<Hit>, more: seq<Hit>)
    ensures AppendUnique(env, req, discovered, found, hits + more)
         == AppendUnique(env, req, discovered, AppendUnique(env, req, discovered, found, hits), more)
    decreases |hits|
  {
    if hits == [] {
      assert hits + more == more;
    } else {
      var h := hits[0];
      assert (hits + more)[0] == h && (hits + more)[1..] == hits[1..] + more;
      AppendAppends(env, req, discovered,
                    if AppendKeeps(env, req, discovered, h) && At(h) !in found then found + [At(h)] else found, hits[1..], more);
    }
  }

  /** Only discovered files are judged by whether they are discovered. */
  lemma {:induction false} AppendSame(
    env: Env, req: Request, discovered: set<Uri>, discovered': set<Uri>, found: seq<Location>, hits: seq<Hit>)
    requires forall h | h in hits :: h.uri !in discovered && h.uri !in discovered'
    ensures AppendUnique(env, req, discovered, found, hits) == AppendUnique(env, req, discovered', found, hits)
    decreases |hits|
  {
    if hits != [] {
      var h := hits[0];
      assert h in hits && forall x | x in hits[1..] :: x in hits;
      AppendSame(env, req, discovered, discovered',
                 if AppendKeeps(env, req, discovered, h) && At(h) !in found then found + [At(h)] else found, hits[1..]);
    }
  }

  /** The same of the parent-scoped search; the locations after those of hop 1 are also new. */
  lemma ParentHop2(env: Env, req: Request)
    requires Sound(env)
    ensures var hop1, without, with := ParentFiles(env, req), ParentSearch(env, req, false), ParentSearch(env, req, true);
      var added := Added(env, req, hop1, !IsTypeName(req.name) && req.parentClass.Some?);
      && without <= with
      && (forall l | l in with[|without|..] :: l.uri in Uris(env, added) && l !in without)
      && |added| <= 256 && (forall f | f in added :: f !in hop1)
  {
    var hop1, enabled := ParentFiles(env, req), !IsTypeName(req.name) && req.parentClass.Some?;
    var extra := WidenedHits(env, req, hop1, enabled);
    WidenedAppends(env, req, hop1, enabled);
    var discovered := Uris(env, Added(env, req, hop1, enabled));
    var none := Uris(env, Added(env, req, hop1, false));
    var hits := HitsIn(env, Word(req.name), hop1);
    var found := QualifiedPass(env, req);
    AppendAppends(env, req, discovered, found, hits, extra);
    AppendSame(env, req, discovered, none, found, hits);
  }

  // ----- the field-scoped search adds the declaring files last

  function OfUri(u: Uri): Hit -> bool {
    (h: Hit) => h.uri == u
  }

  function PathOf(env: Env, u: Uri): string -> bool {
    (f: string) => env.uriOf(f) == Some(u)
  }

  /** Files outside a list, and hits outside their URIs. */
  function Elsewhere(env: Env, files: seq<string>): Hit -> bool {
    (h: Hit) => h.uri !in Uris(env, files)
  }

  /** `keep` says of a hit what `keepFile` says of its file. */
  ghost predicate Corresponds(env: Env, p: Pattern, keep: Hit -> bool, keepFile: string -> bool) {
    forall f, h | h in env.hits(p, f) :: keep(h) == keepFile(f)
  }

  /** Of one file, all hits or none. */
  lemma HitsOfFile(env: Env, p: Pattern, f: string, keep: Hit -> bool, keepFile: string -> bool)
    requires Corresponds(env, p, keep, keepFile)
    ensures Filter(env.hits(p, f), keep) == if keepFile(f) then env.hits(p, f) else []
  {
    hide Filter;
    if keepFile(f) {
      FilterAll(env.hits(p, f), keep);
    } else {
      FilterNone(env.hits(p, f), keep);
    }
  }

  /** The hits in some files are the hits of the search restricted to those files. */
  lemma {:induction false} HitsOfFiles(env: Env, p: Pattern, files: seq<string>, keep: Hit -> bool, keepFile: string -> bool)
    requires Corresponds(env, p, keep, keepFile)
    ensures Filter(HitsIn(env, p, files), keep) == HitsIn(env, p, Filter(files, keepFile))
  {
    if files != [] {
      hide Filter, HitsIn, Corresponds;
      var f, rest := files[0], files[1..];
      assert files == [f] + rest;
      FilterAppend(env.hits(p, f), HitsIn(env, p, rest), keep);
      HitsOfFile(env, p, f, keep, keepFile);
      HitsOfFiles(env, p, rest, keep, keepFile);
      FilterCons(f, rest, keepFile);
      assert [] + HitsIn(env, p, Filter(rest, keepFile)) == HitsIn(env, p, Filter(rest, keepFile));
    }
  }

  /** Extending lists and restricting them commute. */
  lemma {:induction false} ExtendFiltered(files: seq<string>, more: seq<string>, keep: string -> bool)
    ensures Filter(ExtendUnique(files, more), keep) == ExtendUnique(Filter(files, keep), Filter(more, keep))
    decreases |more|
  {
    if more != [] {
      hide ExtendUnique, Filter;
      var f, rest := more[0], more[1..];
      assert [f] + rest == more;
      FilterCons(f, rest, keep);
      if f in files {
        ExtendFiltered(files, rest, keep);
      } else {
        ExtendFiltered(files + [f], rest, keep);
        assert Filter(files + [f], keep) == if keep(f) then Filter(files, keep) + [f] else Filter(files, keep) by {
          FilterAppend(files, [f], keep);
        }
      }
    }
  }

  /** Extending by one file, however often it is listed, adds it once. */
  lemma {:induction false} ExtendByOne(files: seq<string>, more: seq<string>, f: string)
    requires (forall g | g in more :: g == f) && (files == [] || files == [f])
    ensures ExtendUnique(files, more) == if more == [] then files else [f]
    decreases |more|
  {
    if more != [] {
      assert more[0] in more && forall g | g in more[1..] :: g in more;
      assert (if f in files then files else files + [f]) == [f];
      ExtendByOne([f], more[1..], f);
    }
  }

  /** Extending by files that are there already adds nothing. */
  lemma {:induction false} ExtendByKnown(files: seq<string>, more: seq<string>)
    requires forall f | f in more :: f in files
    ensures ExtendUnique(files, more) == files
    decreases |more|
  {
    if more != [] {
      assert more[0] in more && forall f | f in more[1..] :: f in more;
      ExtendByKnown(files, more[1..]);
    }
  }

  /** Outside what `found` adds, extending by it as well makes no difference. */
  lemma FieldFilesElsewhere(hop1: seq<string>, found: seq<string>, decls: seq<string>, keep: string -> bool)
    requires forall f | f in found && keep(f) :: f in hop1
    ensures Filter(ExtendUnique(ExtendUnique(hop1, found), decls), keep) == Filter(ExtendUnique(hop1, decls), keep)
  {
    ExtendFiltered(ExtendUnique(hop1, found), decls, keep);
    ExtendFiltered(hop1, found, keep);
    ExtendFiltered(hop1, decls, keep);
    ExtendByKnown(Filter(hop1, keep), Filter(found, keep));
  }

  /** A declaring file is searched once, whether it was discovered or not. */
  lemma FieldFilesDeclaring(env: Env, hop1: seq<string>, found: seq<string>, decls: seq<string>, f: string, u: Uri)
    requires Sound(env) && env.uriOf(f) == Some(u) && f in decls && f !in hop1
    ensures Filter(ExtendUnique(ExtendUnique(hop1, found), decls), PathOf(env, u))
         == Filter(ExtendUnique(hop1, decls), PathOf(env, u))
  {
    var keep := PathOf(env, u);
    var a, b, c := Filter(hop1, keep), Filter(found, keep), Filter(decls, keep);
    ExtendFiltered(ExtendUnique(hop1, found), decls, keep);
    ExtendFiltered(hop1, found, keep);
    ExtendFiltered(hop1, decls, keep);
    FilterNone(hop1, keep);
    assert f in c;
    ExtendByOne([], b, f);
    ExtendByOne(ExtendUnique([], b), c, f);
    ExtendByOne([], c, f);
  }

  /**
   In the files it does not add, hop 2 leaves the hits of the field-scoped search as they are, in order.  Among
   the added files it also leaves alone those that declare the member; in the others there were no hits before.
   */
  lemma FieldHop2(env: Env, req: Request)
    requires Sound(env)
    ensures var without, with := FieldSearch(env, req, false), FieldSearch(env, req, true);
      var added, decls := Added(env, req, OwnerFiles(env, req), true), ScopedDecls(env, req);
      && Filter(with, Elsewhere(env, added)) == Filter(without, Elsewhere(env, added))
      && (forall u | u in Uris(env, decls) :: Filter(with, OfUri(u)) == Filter(without, OfUri(u)))
      && (forall h | h in without :: h.uri in Uris(env, added) ==> h.uri in Uris(env, decls))
      && |added| <= 256 && (forall f | f in added :: f !in OwnerFiles(env, req))
  {
    WidenedAppends(env, req, OwnerFiles(env, req), true);
    FieldElsewhere(env, req);
    forall u | u in Uris(env, ScopedDecls(env, req))
      ensures Filter(FieldSearch(env, req, true), OfUri(u)) == Filter(FieldSearch(env, req, false), OfUri(u))
    {
      FieldDeclaring(env, req, u);
    }
    forall h | h in FieldSearch(env, req, false) && h.uri in Uris(env, Added(env, req, OwnerFiles(env, req), true))
      ensures h.uri in Uris(env, ScopedDecls(env, req))
    {
      assert h.uri in Uris(env, ScopedDecls(env, req)) by {
        var hop1, decls := OwnerFiles(env, req), ScopedDecls(env, req);
        HitsInside(env, Word(req.name), ExtendUnique(hop1, decls), h);
        var f :| f in ExtendUnique(hop1, decls) && env.uriOf(f) == Some(h.uri);
        ExtendIsUnion(hop1, decls);
      }
    }
  }

  lemma FieldElsewhere(env: Env, req: Request)
    requires Sound(env)
    ensures var added := Added(env, req, OwnerFiles(env, req), true);
      Filter(FieldSearch(env, req, true), Elsewhere(env, added)) == Filter(FieldSearch(env, req, false), Elsewhere(env, added))
  {
    var hop1, decls := OwnerFiles(env, req), ScopedDecls(env, req);
    var added := Added(env, req, hop1, true);
    FieldHits(env, req, true, Elsewhere(env, added), NotIn(added));
    FieldHits(env, req, false, Elsewhere(env, added), NotIn(added));
    match Expand(env, req, hop1) {
      case Found(files) => FieldFilesElsewhere(hop1, files, decls, NotIn(added));
      case _ =>
    }
  }

  lemma FieldDeclaring(env: Env, req: Request, u: Uri)
    requires Sound(env) && u in Uris(env, ScopedDecls(env, req))
    ensures Filter(FieldSearch(env, req, true), OfUri(u)) == Filter(FieldSearch(env, req, false), OfUri(u))
  {
    var hop1, decls := OwnerFiles(env, req), ScopedDecls(env, req);
    FieldHits(env, req, true, OfUri(u), PathOf(env, u));
    FieldHits(env, req, false, OfUri(u), PathOf(env, u));
    var f :| f in decls && env.uriOf(f) == Some(u);
    match Expand(env, req, hop1) {
      case Found(files) =>
        if f in hop1 {
          FieldFilesElsewhere(hop1, files, decls, PathOf(env, u));
        } else {
          FieldFilesDeclaring(env, hop1, files, decls, f, u);
        }
      case _ =>
    }
  }

  lemma FieldHits(env: Env, req: Request, hop2: bool, keep: Hit -> bool, keepFile: string -> bool)
    requires Corresponds(env, Word(req.name), keep, keepFile)
    ensures var files := ExtendUnique(Widened(env, req, OwnerFiles(env, req), hop2), ScopedDecls(env, req));
      Filter(FieldSearch(env, req, hop2), keep)
      == Filter(HitsIn(env, Word(req.name), Filter(files, keepFile)), FieldKept(env, req))
  {
    var files := ExtendUnique(Widened(env, req, OwnerFiles(env, req), hop2), ScopedDecls(env, req));
    FilterSwaps(HitsIn(env, Word(req.name), files), FieldKept(env, req), keep);
    HitsOfFiles(env, Word(req.name), files, keep, keepFile);
  }

  // ----- what each search returns

  /** `h` is a match of the pattern in one of the files. */
  ghost predicate FoundIn(env: Env, p: Pattern, files: iset<string>, h: Hit) {
    exists f :: f in files && h in env.hits(p, f)
  }

  lemma {:induction false} HitsAreFound(env: Env, p: Pattern, files: seq<string>, h: Hit)
    ensures h in HitsIn(env, p, files) <==> exists f :: f in files && h in env.hits(p, f)
  {
    if files != [] {
      HitsAreFound(env, p, files[1..], h);
      assert files == [files[0]] + files[1..];
    }
  }

  lemma WidenedFiles(env: Env, req: Request, hop1: seq<string>, hop2: bool, f: string)
    ensures f in Widened(env, req, hop1, hop2) <==> f in hop1 || f in Added(env, req, hop1, hop2)
  {
    match Expand(env, req, hop1) {
      case Found(files) => ExtendIsUnion(hop1, files);
      case _ =>
    }
  }

  /** The files a search of the owner looks at: those that mention it, and those that hop 2 adds. */
  ghost function OwnerSearched(env: Env, req: Request, hop2: bool): iset<string> {
    iset f: string | (f in env.files(Mention(req.ownerClass)) && env.usable(f)) || f in Added(env, req, OwnerFiles(env, req), hop2)
  }

  predicate InFiles(env: Env, files: seq<string>, u: Uri) {
    exists f | f in files :: env.uriOf(f) == Some(u)
  }

  /**
   What the owner-scoped search finds.  In the file the request comes from: the declaration, if it is wanted.  In the other
   files it looks at: what is no declaration, and either hints at the owner or lies in a file that hop 2 has added.
   */
  lemma OwnerFinds(env: Env, req: Request, hop2: bool, h: Hit)
    ensures h in OwnerSearch(env, req, hop2) <==>
      && FoundIn(env, Word(req.name), OwnerSearched(env, req, hop2), h) && !env.skip(h)
      && if h.uri == req.fromUri then req.includeDecl && env.declares(h)
         else !env.declares(h) && (env.hintsOwner(h) || InFiles(env, Added(env, req, OwnerFiles(env, req), hop2), h.uri))
  {
    var hop1 := OwnerFiles(env, req);
    HitsAreFound(env, Word(req.name), Widened(env, req, hop1, hop2), h);
    forall f ensures f in OwnerSearched(env, req, hop2) <==> f in Widened(env, req, hop1, hop2) {
      WidenedFiles(env, req, hop1, hop2, f);
    }
    hide Widened, Added, HitsIn, Filter;
  }

  /** The files a search of a field looks at: those that mention its owner, those hop 2 adds, and those that declare it. */
  ghost function FieldSearched(env: Env, req: Request, hop2: bool): iset<string> {
    iset f: string | f in OwnerSearched(env, req, hop2) || (f in req.declFiles && (req.scoped ==> env.inScope(f)))
  }

  predicate IsJava(u: Uri) {
    |u| >= 5 && u[|u| - 5..] == ".java"
  }

  /**
   What the field-scoped search finds.  In the file the request comes from: everything but the declarations on other lines
   than the field's.  In the other files it looks at: what is no declaration, by the tests for Java as well in Java files.
   */
  lemma FieldFinds(env: Env, req: Request, hop2: bool, h: Hit)
    ensures h in FieldSearch(env, req, hop2) <==>
      && FoundIn(env, Word(req.name), FieldSearched(env, req, hop2), h) && !env.skip(h)
      && if h.uri == req.fromUri then
           env.declares(h) && req.fieldDeclLine.Some? ==> h.line == req.fieldDeclLine.value
         else
           !env.declares(h) && (IsJava(h.uri) ==> !env.javaMethod(h) && !env.javaField(h))
  {
    var hop1, decls := OwnerFiles(env, req), ScopedDecls(env, req);
    var files := Widened(env, req, hop1, hop2);
    HitsAreFound(env, Word(req.name), ExtendUnique(files, decls), h);
    ExtendIsUnion(files, decls);
    forall f ensures f in FieldSearched(env, req, hop2) <==> f in ExtendUnique(files, decls) {
      WidenedFiles(env, req, hop1, hop2, f);
    }
    hide Widened, Added, HitsIn, Filter, ExtendUnique;
  }

  /** The files that import the name, and those that declare it. */
  ghost function ParentImporting(env: Env, req: Request): iset<string> {
    iset f: string |
      || (f in (if req.indexFiles != [] then req.indexFiles else env.files(ImportOf)) && env.usable(f))
      || (f in req.declFiles && (req.scoped ==> env.inScope(f)))
  }

  /** The files of the package that declares the name. */
  ghost function PackageFiles(env: Env, req: Request): iset<string> {
    iset f: string | req.declaredPkg.Some? && f in env.files(InPackage(req.declaredPkg.value)) && env.usable(f)
  }

  predicate UpperCase(name: string) {
    name != "" && 'A' <= name[0] <= 'Z'
  }

  /** The files hop 2 adds to a search for a method or property of a class. */
  function ParentAdded(env: Env, req: Request, hop2: bool): seq<string> {
    Added(env, req, ParentFiles(env, req), hop2 && !UpperCase(req.name) && req.parentClass.Some?)
  }

  /** Where the name is searched for on its own: a type needs an import, a member does not in its own package. */
  ghost function ParentSearched(env: Env, req: Request, hop2: bool): iset<string> {
    iset f: string |
      || f in ParentImporting(env, req) || (!UpperCase(req.name) && f in PackageFiles(env, req))
      || f in ParentAdded(env, req, hop2)
  }

  /** A match of the qualified name: for a type with known candidates in these files, otherwise anywhere. */
  ghost predicate FoundQualified(env: Env, req: Request, l: Location) {
    if UpperCase(req.name) && req.indexQualifiedFiles != [] then
      exists f, h ::
        && ((f in req.indexQualifiedFiles && env.usable(f)) || f in PackageFiles(env, req) || f in ParentImporting(env, req))
        && h in env.hits(Qualified, f) && (h.content == "" || !env.skip(h)) && l == Location(h.uri, h.line, h.column)
    else exists h :: h in env.everywhere(Qualified) && l == Location(h.uri, h.line, h.column)
  }

  /** A match of the name that is kept: no declaration in an added file, no Java method elsewhere, no type of another class. */
  ghost predicate FoundBare(env: Env, req: Request, hop2: bool, l: Location) {
    exists h ::
      && FoundIn(env, Word(req.name), ParentSearched(env, req, hop2), h) && !env.skip(h)
      && (h.uri != req.fromUri && InFiles(env, ParentAdded(env, req, hop2), h.uri) ==> !env.declaresAt(h))
      && (h.uri != req.fromUri && IsJava(h.uri) ==> !env.javaMethod(h))
      && (req.parentClass.Some? && UpperCase(req.name) ==> !env.wrongQualifier(h))
      && l == Location(h.uri, h.line, h.column)
  }

  lemma {:induction false} LocationsOf(hits: seq<Hit>, l: Location)
    ensures l in Locations(hits) <==> exists h :: h in hits && l == Location(h.uri, h.line, h.column)
  {
    if hits != [] {
      LocationsOf(hits[1..], l);
      assert hits == [hits[0]] + hits[1..];
    }
  }

  lemma ParentCandidates(env: Env, req: Request, f: string)
    ensures f in ParentFiles(env, req) <==>
      f in ParentImporting(env, req) || (!UpperCase(req.name) && f in PackageFiles(env, req))
  {
    var imported := Filter(if req.indexFiles != [] then req.indexFiles else env.files(ImportOf), env.usable);
    ExtendIsUnion(imported, ScopedDecls(env, req));
    ExtendIsUnion(ExtendUnique(imported, ScopedDecls(env, req)), SamePackage(env, req));
    hide Filter, ExtendUnique;
  }

  lemma QualifiedFinds(env: Env, req: Request, l: Location)
    ensures l in QualifiedPass(env, req) <==> FoundQualified(env, req, l)
  {
    if IsTypeName(req.name) && req.indexQualifiedFiles != [] {
      var own := Filter(req.indexQualifiedFiles, env.usable);
      var files := ExtendUnique(ExtendUnique(own, SamePackage(env, req)), ParentFiles(env, req));
      var kept := Filter(HitsIn(env, Qualified, files), (h: Hit) => h.content == "" || !env.skip(h));
      LocationsOf(kept, l);
      ExtendIsUnion(own, SamePackage(env, req));
      ExtendIsUnion(ExtendUnique(own, SamePackage(env, req)), ParentFiles(env, req));
      forall f
        ensures f in files <==>
          (f in req.indexQualifiedFiles && env.usable(f)) || f in PackageFiles(env, req) || f in ParentImporting(env, req)
      {
        ParentCandidates(env, req, f);
      }
      forall h ensures h in HitsIn(env, Qualified, files) <==> exists f :: f in files && h in env.hits(Qualified, f) {
        HitsAreFound(env, Qualified, files, h);
      }
      hide HitsIn, Filter, ExtendUnique, Locations, ParentFiles, PackageFiles, ParentImporting;
    } else {
      LocationsOf(env.everywhere(Qualified), l);
    }
  }

  /** What the parent-scoped search finds: matches of the qualified name, and kept matches of the name on its own. */
  lemma ParentFinds(env: Env, req: Request, hop2: bool, l: Location)
    ensures l in ParentSearch(env, req, hop2) <==> FoundQualified(env, req, l) || FoundBare(env, req, hop2, l)
  {
    var files, enabled := ParentFiles(env, req), hop2 && !IsTypeName(req.name) && req.parentClass.Some?;
    var discovered := Uris(env, Added(env, req, files, enabled));
    var hits := HitsIn(env, Word(req.name), Widened(env, req, files, enabled));
    QualifiedFinds(env, req, l);
    AppendIsUnion(env, req, discovered, QualifiedPass(env, req), hits);
    forall f ensures f in ParentSearched(env, req, hop2) <==> f in Widened(env, req, files, enabled) {
      ParentCandidates(env, req, f);
      WidenedFiles(env, req, files, enabled, f);
    }
    forall h ensures h in hits <==> FoundIn(env, Word(req.name), ParentSearched(env, req, hop2), h) {
      HitsAreFound(env, Word(req.name), Widened(env, req, files, enabled), h);
    }
    assert forall u :: u in discovered <==> InFiles(env, ParentAdded(env, req, hop2), u);
    hide HitsIn, Filter, ExtendUnique, Widened, Added, ParentFiles, QualifiedPass, AppendUnique, ParentSearched, FoundQualified;
  }

  // ----- which producers are searched for

  /** The members with the wanted type declared in files with these URIs. */
  function Produced(producers: seq<Producer>, uris: set<Uri>): set<string> {
    set p | p in producers && p.fileUri in uris :: p.member
  }

  function Members(names: seq<string>): set<string> {
    set n | n in names
  }

  lemma {:induction false} NamesAreProduced(producers: seq<Producer>, uris: set<Uri>, names: seq<string>)
    requires Distinct(names)
    ensures Distinct(ProducerNames(producers, uris, names))
    ensures Members(ProducerNames(producers, uris, names)) == Members(names) + Produced(producers, uris)
    decreases |producers|
  {
    if producers != [] {
      var p := producers[0];
      assert producers == [p] + producers[1..];
      assert Produced(producers, uris) == Produced(producers[1..], uris) + if p.fileUri in uris then {p.member} else {};
      var next := if p.fileUri in uris && p.member !in names then names + [p.member] else names;
      NamesAreProduced(producers[1..], uris, next);
    }
  }

  lemma {:induction false} DistinctCount(names: seq<string>)
    requires Distinct(names)
    ensures |Members(names)| == |names|
  {
    if names != [] {
      DistinctCount(names[1..]);
      assert Members(names) == Members(names[1..]) + {names[0]};
    }
  }

  /** The files that call a producer and that hop 1 has not found. */
  function NewFiles(env: Env, req: Request, hop1: seq<string>): seq<string> {
    var names := ProducerNames(req.producers, Uris(env, hop1), []);
    Filter(Filter(env.files(Calls(names)), env.usable), NotIn(hop1))
  }

  /**
   Hop 2 widens the search exactly if hop-1 files declare one to eight distinct producer members, however often each is
   declared, and at most 256 new files call one; then it adds just those files.
   */
  lemma HopTwoCaps(env: Env, req: Request, hop1: seq<string>)
    ensures var members, outcome := Produced(req.producers, Uris(env, hop1)), Expand(env, req, hop1);
      && (outcome.Found? <==> 1 <= |members| <= 8 && |NewFiles(env, req, hop1)| <= 256)
      && (outcome.NoProducerFound? <==> members == {})
      && (outcome.Found? ==> Added(env, req, hop1, true) == NewFiles(env, req, hop1))
      && (!outcome.Found? ==> Widened(env, req, hop1, true) == hop1 && Added(env, req, hop1, true) == [])
  {
    var names := ProducerNames(req.producers, Uris(env, hop1), []);
    NamesAreProduced(req.producers, Uris(env, hop1), []);
    DistinctCount(names);
    assert Members([]) == {};
    assert names != [] ==> names[0] in Members(names);
  }

  /** There is nothing to widen by, or too much: more than eight members or more than 256 new files. */
  predicate Refused(env: Env, req: Request, hop1: seq<string>) {
    var members := Produced(req.producers, Uris(env, hop1));
    members == {} || |members| > 8 || |NewFiles(env, req, hop1)| > 256
  }

  /** Without a producer, or beyond either cap, each search gives exactly what it gives without hop 2. */
  lemma RefusedIsHop1(env: Env, req: Request)
    ensures Refused(env, req, OwnerFiles(env, req)) ==> OwnerSearch(env, req, true) == OwnerSearch(env, req, false)
    ensures Refused(env, req, OwnerFiles(env, req)) ==> FieldSearch(env, req, true) == FieldSearch(env, req, false)
    ensures Refused(env, req, ParentFiles(env, req)) ==> ParentSearch(env, req, true) == ParentSearch(env, req, false)
  {
    hide NewFiles, Produced, Expand;
    HopTwoCaps(env, req, OwnerFiles(env, req));
    HopTwoCaps(env, req, ParentFiles(env, req));
  }
}
