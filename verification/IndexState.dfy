/**
 The index and its reset (src/indexer.rs, `reset_index_state`): before a full re-index the maps keep
 exactly what belongs to library files, and the caches are emptied.
 */
module IndexState {
  import opened Text
  import opened Candidates

  type Uri = string

  datatype Extension = Extension(fileUri: Uri, name: string)

  /** The maps that the reset touches, and the JAR definitions, which it leaves alone. */
  datatype Maps = Maps(
    files: map<Uri, nat>,
    definitions: map<string, seq<SymbolLoc>>,
    qualified: map<string, SymbolLoc>,
    packages: map<string, seq<nat>>,
    subtypes: map<string, seq<SymbolLoc>>,
    contentHashes: map<Uri, nat>,
    extensionByReceiver: map<string, seq<Extension>>,
    libraryUris: set<Uri>,
    jarDefinitions: map<string, seq<Location>>)

  // ----- restricting the maps to a set of files

  /** Every list filtered, and no empty lists left. */
  function FilterLists<T>(m: map<string, seq<T>>, keep: T -> bool): map<string, seq<T>> {
    map k | k in m && Filter(m[k], keep) != [] :: Filter(m[k], keep)
  }

  predicate FileIn(table: seq<Uri>, uris: set<Uri>, file: nat) {
    UrlOf(table, file).Some? && UrlOf(table, file).value in uris
  }

  function KeepFile(table: seq<Uri>, uris: set<Uri>): nat -> bool {
    (file: nat) => FileIn(table, uris, file)
  }

  function KeepLoc(table: seq<Uri>, uris: set<Uri>): SymbolLoc -> bool {
    (loc: SymbolLoc) => FileIn(table, uris, loc.file)
  }

  function KeepExtension(uris: set<Uri>): Extension -> bool {
    (e: Extension) => e.fileUri in uris
  }

  /** What remains of the seven maps when only the files in `uris` count. */
  function RestrictTo(maps: Maps, table: seq<Uri>, uris: set<Uri>): Maps {
    maps.(
      files := map u | u in maps.files && u in uris :: maps.files[u],
      definitions := FilterLists(maps.definitions, KeepLoc(table, uris)),
      qualified := map n | n in maps.qualified && FileIn(table, uris, maps.qualified[n].file) :: maps.qualified[n],
      packages := FilterLists(maps.packages, KeepFile(table, uris)),
      subtypes := FilterLists(maps.subtypes, KeepLoc(table, uris)),
      contentHashes := map u | u in maps.contentHashes && u in uris :: maps.contentHashes[u],
      extensionByReceiver := FilterLists(maps.extensionByReceiver, KeepExtension(uris)))
  }

  /** The library projection; library files without file data lose their status. */
  function ResetOf(maps: Maps, table: seq<Uri>): Maps {
    var kept := RestrictTo(maps, table, maps.libraryUris);
    kept.(libraryUris := set u | u in maps.libraryUris && u in kept.files)
  }

  // ----- the reset as it is carried out

  /** `retain` on a map of lists: the closure filters the list and keeps it if anything is left. */
  method RetainLists<T>(m: map<string, seq<T>>, keep: T -> bool) returns (r: map<string, seq<T>>)
    ensures r == FilterLists(m, keep)
  {
    hide Filter;
    r := map[];
    var todo := m.Keys;
    while todo != {}
      invariant todo <= m.Keys
      invariant r == map k | k in FilterLists(m, keep) && k !in todo :: FilterLists(m, keep)[k]
      decreases |todo|
    {
      var k :| k in todo;
      var left := Filter(m[k], keep);
      if left != [] {
        r := r[k := left];
      }
      todo := todo - {k};
    }
  }

  const U64 := 0x1_0000_0000_0000_0000

  class Indexer {
    var files: map<Uri, nat>
    var definitions: map<string, seq<SymbolLoc>>
    var qualified: map<string, SymbolLoc>
    var packages: map<string, seq<nat>>
    var subtypes: map<string, seq<SymbolLoc>>
    var contentHashes: map<Uri, nat>
    var extensionByReceiver: map<string, seq<Extension>>
    var libraryUris: set<Uri>
    var jarDefinitions: map<string, seq<Location>>
    var fileTable: seq<Uri>
    var completionCache: map<Uri, seq<string>>
    var bareNameCache: seq<string>
    var importableFqns: map<string, seq<string>>
    var lastCompletion: Option<string>
    var ancestorSets: map<string, set<string>>
    var completionEpoch: nat
    var signatures: map<(string, string), Option<string>>
    var fastSignatures: map<(string, string), Option<string>>
    var enrichmentSeen: map<string, Option<nat>> // asked for in the background, with the time of a miss
    var bareNamesDirty: bool

    ghost function View(): Maps
      reads this
    {
      Maps(files, definitions, qualified, packages, subtypes, contentHashes, extensionByReceiver, libraryUris, jarDefinitions)
    }

    /** Filters `extension_by_receiver`: changes are collected while iterating, and made afterwards. */
    method ResetExtensions(uris: set<Uri>)
      modifies this`extensionByReceiver
      ensures extensionByReceiver == FilterLists(old(extensionByReceiver), KeepExtension(uris))
    {
      hide Filter;
      var emptyKeys, updated := CollectExtensions(uris);
      InsertAll(updated);
      RemoveAll(emptyKeys);
    }

    method InsertAll(updated: seq<(string, seq<Extension>)>)
      requires forall u | u in updated :: u.0 in extensionByReceiver
      modifies this`extensionByReceiver
      ensures extensionByReceiver.Keys == old(extensionByReceiver).Keys
      ensures forall k | k in extensionByReceiver ::
        || (k, extensionByReceiver[k]) in updated
        || (extensionByReceiver[k] == old(extensionByReceiver)[k] && forall u | u in updated :: u.0 != k)
    {
      for i := 0 to |updated|
        invariant extensionByReceiver.Keys == old(extensionByReceiver).Keys
        invariant forall k | k in extensionByReceiver ::
          || (k, extensionByReceiver[k]) in updated[..i]
          || (extensionByReceiver[k] == old(extensionByReceiver)[k] && forall u | u in updated[..i] :: u.0 != k)
      {
        assert updated[..i + 1] == updated[..i] + [updated[i]];
        extensionByReceiver := extensionByReceiver[updated[i].0 := updated[i].1];
      }
      assert updated[..|updated|] == updated;
    }

    method RemoveAll(keys: seq<string>)
      modifies this`extensionByReceiver
      ensures extensionByReceiver == map k | k in old(extensionByReceiver) && k !in keys :: old(extensionByReceiver)[k]
    {
      for i := 0 to |keys|
        invariant extensionByReceiver == map k | k in old(extensionByReceiver) && k !in keys[..i] :: old(extensionByReceiver)[k]
      {
        assert keys[..i + 1] == keys[..i] + [keys[i]];
        extensionByReceiver := extensionByReceiver - {keys[i]};
      }
      assert keys[..|keys|] == keys;
    }

    /** The iteration, in whatever order the map yields its entries. */
    method CollectExtensions(uris: set<Uri>) returns (emptyKeys: seq<string>, updated: seq<(string, seq<Extension>)>)
      ensures forall k :: k in emptyKeys <==>
        k in extensionByReceiver && Filter(extensionByReceiver[k], KeepExtension(uris)) == []
      ensures forall u | u in updated ::
        u.0 in extensionByReceiver && u.1 == Filter(extensionByReceiver[u.0], KeepExtension(uris)) != []
      ensures forall k | k in extensionByReceiver && k !in emptyKeys ::
        var left := Filter(extensionByReceiver[k], KeepExtension(uris)); left == extensionByReceiver[k] || (k, left) in updated
    {
      hide Filter;
      emptyKeys, updated := [], [];
      var todo := extensionByReceiver.Keys;
      ghost var keep := KeepExtension(uris);
      while todo != {}
        invariant todo <= extensionByReceiver.Keys
        invariant forall k :: k in emptyKeys <==>
          k in extensionByReceiver && k !in todo && Filter(extensionByReceiver[k], keep) == []
        invariant forall u | u in updated :: u.0 in extensionByReceiver && u.1 == Filter(extensionByReceiver[u.0], keep) != []
        invariant forall k | k in extensionByReceiver && k !in todo && k !in emptyKeys ::
          Filter(extensionByReceiver[k], keep) == extensionByReceiver[k] || (k, Filter(extensionByReceiver[k], keep)) in updated
        decreases |todo|
      {
        var k :| k in todo;
        var entries := Filter(extensionByReceiver[k], KeepExtension(uris));
        if entries == [] {
          emptyKeys := emptyKeys + [k];
        } else if |entries| != |extensionByReceiver[k]| {
          updated := updated + [(k, entries)];
        }
        todo := todo - {k};
      }
    }

    /** `reset_index_state` */
    method ResetIndexState()
      modifies this
      ensures View() == ResetOf(old(View()), fileTable) && fileTable == old(fileTable)
      ensures completionCache == map[] && bareNameCache == [] && importableFqns == map[] && lastCompletion == None
      ensures ancestorSets == map[] && signatures == map[] && fastSignatures == map[] && enrichmentSeen == map[]
      ensures bareNamesDirty && completionEpoch == (old(completionEpoch) + 1) % 0x1_0000_0000_0000_0000
    {
      ResetMaps();
      ClearCaches();
    }

    method ResetMaps()
      modifies this`files, this`definitions, this`qualified, this`packages, this`subtypes, this`contentHashes
      modifies this`extensionByReceiver, this`libraryUris
      ensures View() == ResetOf(old(View()), fileTable)
    {
      hide Filter, FilterLists, FileIn, KeepFile, KeepLoc, KeepExtension;
      var uris := libraryUris;
      RetainEntries(uris);
      RetainListMaps(uris);
      ResetExtensions(uris);
      libraryUris := set u | u in libraryUris && u in files;
    }

    /** The `retain` calls on the maps from URIs and to single locations. */
    method RetainEntries(uris: set<Uri>)
      modifies this`files, this`qualified, this`contentHashes
      ensures files == map u | u in old(files) && u in uris :: old(files)[u]
      ensures qualified == map n | n in old(qualified) && FileIn(fileTable, uris, old(qualified)[n].file) :: old(qualified)[n]
      ensures contentHashes == map u | u in old(contentHashes) && u in uris :: old(contentHashes)[u]
    {
      hide FilterLists, FileIn;
      files := map u | u in files && u in uris :: files[u];
      qualified := map n | n in qualified && FileIn(fileTable, uris, qualified[n].file) :: qualified[n];
      contentHashes := map u | u in contentHashes && u in uris :: contentHashes[u];
    }

    /** The `retain` calls on the maps to lists. */
    method RetainListMaps(uris: set<Uri>)
      modifies this`definitions, this`packages, this`subtypes
      ensures definitions == FilterLists(old(definitions), KeepLoc(fileTable, uris))
      ensures packages == FilterLists(old(packages), KeepFile(fileTable, uris))
      ensures subtypes == FilterLists(old(subtypes), KeepLoc(fileTable, uris))
    {
      hide FilterLists, FileIn;
      definitions := RetainLists(definitions, KeepLoc(fileTable, uris));
      packages := RetainLists(packages, KeepFile(fileTable, uris));
      subtypes := RetainLists(subtypes, KeepLoc(fileTable, uris));
    }

    method ClearCaches()
      modifies this`completionCache, this`bareNameCache, this`importableFqns, this`lastCompletion, this`ancestorSets
      modifies this`completionEpoch, this`signatures, this`fastSignatures, this`enrichmentSeen, this`bareNamesDirty
      ensures completionCache == map[] && bareNameCache == [] && importableFqns == map[] && lastCompletion == None
      ensures ancestorSets == map[] && signatures == map[] && fastSignatures == map[] && enrichmentSeen == map[]
      ensures bareNamesDirty && completionEpoch == (old(completionEpoch) + 1) % U64
    {
      completionCache, bareNameCache, importableFqns, lastCompletion := map[], [], map[], None;
      ancestorSets, completionEpoch := map[], (completionEpoch + 1) % U64;
      signatures, fastSignatures, enrichmentSeen, bareNamesDirty := map[], map[], map[], true;
    }
  }

  // ----- what the reset keeps

  lemma {:induction false} FilterTwice<T>(s: seq<T>, p: T -> bool, q: T -> bool, both: T -> bool)
    requires forall x | x in s :: both(x) <==> p(x) && q(x)
    ensures Filter(Filter(s, p), q) == Filter(s, both)
  {
    if s != [] {
      assert s[0] in s;
      FilterTwice(s[1..], p, q, both);
    }
  }

  lemma FilterListsTwice<T(!new)>(m: map<string, seq<T>>, p: T -> bool, q: T -> bool, both: T -> bool)
    requires forall x :: both(x) <==> p(x) && q(x)
    ensures FilterLists(FilterLists(m, p), q) == FilterLists(m, both)
  {
    hide Filter, FilterLists;
    var twice, once := FilterLists(FilterLists(m, p), q), FilterLists(m, both);
    forall k ensures (k in twice <==> k in once) && (k in twice ==> twice[k] == once[k]) {
      FilterListsAt(m, p, k);
      FilterListsAt(FilterLists(m, p), q, k);
      FilterListsAt(m, both, k);
      if k in m {
        FilterTwice(m[k], p, q, both);
      }
    }
  }

  lemma FilterListsAt<T>(m: map<string, seq<T>>, keep: T -> bool, k: string)
    ensures k in FilterLists(m, keep) <==> k in m && Filter(m[k], keep) != []
    ensures k in FilterLists(m, keep) ==> FilterLists(m, keep)[k] == Filter(m[k], keep)
  {
  }

  /** Restricting twice is restricting to the common files. */
  lemma RestrictTwice(maps: Maps, table: seq<Uri>, a: set<Uri>, b: set<Uri>)
    ensures RestrictTo(RestrictTo(maps, table, a), table, b) == RestrictTo(maps, table, a * b)
  {
    LocsTwice(maps.definitions, table, a, b);
    LocsTwice(maps.subtypes, table, a, b);
    FilterListsTwice(maps.packages, KeepFile(table, a), KeepFile(table, b), KeepFile(table, a * b));
    FilterListsTwice(maps.extensionByReceiver, KeepExtension(a), KeepExtension(b), KeepExtension(a * b));
    hide FilterLists, KeepLoc, KeepFile, KeepExtension;
    EntriesTwice(maps, table, a, b);
  }

  lemma LocsTwice(m: map<string, seq<SymbolLoc>>, table: seq<Uri>, a: set<Uri>, b: set<Uri>)
    ensures FilterLists(FilterLists(m, KeepLoc(table, a)), KeepLoc(table, b)) == FilterLists(m, KeepLoc(table, a * b))
  {
    FilterListsTwice(m, KeepLoc(table, a), KeepLoc(table, b), KeepLoc(table, a * b));
  }

  lemma EntriesTwice(maps: Maps, table: seq<Uri>, a: set<Uri>, b: set<Uri>)
    ensures var twice, once := RestrictTo(RestrictTo(maps, table, a), table, b), RestrictTo(maps, table, a * b);
      twice.files == once.files && twice.qualified == once.qualified && twice.contentHashes == once.contentHashes
  {
    hide FilterLists;
  }

  /**
   A second reset drops exactly what belongs to a library file without file data; so when every
   library file has data, it changes nothing.
   */
  lemma SecondReset(maps: Maps, table: seq<Uri>)
    ensures var once := ResetOf(maps, table);
      && ResetOf(once, table) == RestrictTo(once, table, maps.libraryUris * maps.files.Keys)
      && (maps.libraryUris <= maps.files.Keys ==> ResetOf(once, table) == once)
  {
    hide RestrictTo;
    var once, lib := ResetOf(maps, table), maps.libraryUris;
    KeepsOthers(maps, table, lib);
    KeepsOthers(once, table, once.libraryUris);
    assert once.libraryUris == lib * maps.files.Keys;
    if lib <= maps.files.Keys {
      assert lib * maps.files.Keys == lib;
      assert lib * lib == lib;
      RestrictTwice(maps, table, lib, lib);
    }
  }

  lemma KeepsOthers(maps: Maps, table: seq<Uri>, uris: set<Uri>)
    ensures RestrictTo(maps, table, uris).libraryUris == maps.libraryUris
    ensures RestrictTo(maps, table, uris).jarDefinitions == maps.jarDefinitions
    ensures RestrictTo(maps, table, uris).files.Keys == maps.files.Keys * uris
  {
  }

  /** The file is in one of the libraries. */
  predicate OfLibrary(table: seq<Uri>, lib: set<Uri>, file: nat) {
    file < |table| && table[file] in lib
  }

  /** `after` has the locations in libraries of each list of `before`, and no empty lists. */
  ghost predicate LocsOf(before: map<string, seq<SymbolLoc>>, after: map<string, seq<SymbolLoc>>, table: seq<Uri>, lib: set<Uri>) {
    && (forall k :: k in after <==> k in before && exists l | l in before[k] :: OfLibrary(table, lib, l.file))
    && (forall k | k in after ::
          after[k] != [] && forall l :: l in after[k] <==> l in before[k] && OfLibrary(table, lib, l.file))
  }

  ghost predicate FilesOf(before: map<string, seq<nat>>, after: map<string, seq<nat>>, table: seq<Uri>, lib: set<Uri>) {
    && (forall k :: k in after <==> k in before && exists f | f in before[k] :: OfLibrary(table, lib, f))
    && (forall k | k in after :: after[k] != [] && forall f :: f in after[k] <==> f in before[k] && OfLibrary(table, lib, f))
  }

  ghost predicate ExtensionsOf(before: map<string, seq<Extension>>, after: map<string, seq<Extension>>, lib: set<Uri>) {
    && (forall k :: k in after <==> k in before && exists e | e in before[k] :: e.fileUri in lib)
    && (forall k | k in after :: after[k] != [] && forall e :: e in after[k] <==> e in before[k] && e.fileUri in lib)
  }

  ghost predicate EntriesOf(before: map<Uri, nat>, after: map<Uri, nat>, lib: set<Uri>) {
    (forall u :: u in after <==> u in before && u in lib) && forall u | u in after :: after[u] == before[u]
  }

  lemma ListKept<T>(m: map<string, seq<T>>, keep: T -> bool, k: string)
    ensures k in FilterLists(m, keep) <==> k in m && exists x | x in m[k] :: keep(x)
    ensures k in FilterLists(m, keep) ==> FilterLists(m, keep)[k] != []
    ensures k in FilterLists(m, keep) ==> forall x | x in FilterLists(m, keep)[k] :: x in m[k] && keep(x)
    ensures k in FilterLists(m, keep) ==> forall x | x in m[k] && keep(x) :: x in FilterLists(m, keep)[k]
  {
    FilterListsAt(m, keep, k);
    if k in m {
      var left := Filter(m[k], keep);
      if left != [] {
        assert left[0] in left;
      }
      if x :| x in m[k] && keep(x) {
        assert x in left;
      }
    }
  }

  lemma LocsKept(m: map<string, seq<SymbolLoc>>, table: seq<Uri>, lib: set<Uri>)
    ensures LocsOf(m, FilterLists(m, KeepLoc(table, lib)), table, lib)
  {
    hide FilterLists;
    forall k {
      ListKept(m, KeepLoc(table, lib), k);
    }
  }

  lemma FilesKept(m: map<string, seq<nat>>, table: seq<Uri>, lib: set<Uri>)
    ensures FilesOf(m, FilterLists(m, KeepFile(table, lib)), table, lib)
  {
    hide FilterLists;
    forall k {
      ListKept(m, KeepFile(table, lib), k);
    }
  }

  lemma ExtensionsKept(m: map<string, seq<Extension>>, lib: set<Uri>)
    ensures ExtensionsOf(m, FilterLists(m, KeepExtension(lib)), lib)
  {
    hide FilterLists;
    forall k {
      ListKept(m, KeepExtension(lib), k);
    }
  }

  /** What each map holds after a reset: exactly what belongs to a file that was a library file before. */
  lemma ResetKeeps(maps: Maps, table: seq<Uri>)
    ensures var after, lib := ResetOf(maps, table), maps.libraryUris;
      && LocsOf(maps.definitions, after.definitions, table, lib)
      && LocsOf(maps.subtypes, after.subtypes, table, lib)
      && FilesOf(maps.packages, after.packages, table, lib)
      && ExtensionsOf(maps.extensionByReceiver, after.extensionByReceiver, lib)
      && EntriesOf(maps.files, after.files, lib)
      && EntriesOf(maps.contentHashes, after.contentHashes, lib)
      && (forall n :: n in after.qualified <==> n in maps.qualified && OfLibrary(table, lib, maps.qualified[n].file))
      && (forall n | n in after.qualified :: after.qualified[n] == maps.qualified[n])
      && (forall u :: u in after.libraryUris <==> u in lib && u in maps.files)
      && after.jarDefinitions == maps.jarDefinitions
  {
    LocsKept(maps.definitions, table, maps.libraryUris);
    LocsKept(maps.subtypes, table, maps.libraryUris);
    FilesKept(maps.packages, table, maps.libraryUris);
    ExtensionsKept(maps.extensionByReceiver, maps.libraryUris);
    hide FilterLists, LocsOf, FilesOf, ExtensionsOf;
  }

  // ----- lookups before and after

  function DefinitionsOf(maps: Maps, name: string): seq<SymbolLoc> {
    if name in maps.definitions then maps.definitions[name] else []
  }

  function Locations(table: seq<Uri>, locs: seq<SymbolLoc>): seq<Location> {
    if locs == [] then []
    else
      (match UrlOf(table, locs[0].file) case None => [] case Some(u) => [Location(u, locs[0].range)])
      + Locations(table, locs[1..])
  }

  lemma {:induction false} LocationsAre(table: seq<Uri>, locs: seq<SymbolLoc>)
    ensures forall l ::
      l in Locations(table, locs) <==> exists s | s in locs :: s.file < |table| && l == Location(table[s.file], s.range)
    ensures (forall s | s in locs :: s.file < |table|) ==>
      && |Locations(table, locs)| == |locs|
      && forall i | 0 <= i < |locs| :: Locations(table, locs)[i] == Location(table[locs[i].file], locs[i].range)
  {
    if locs != [] {
      LocationsAre(table, locs[1..]);
      assert locs == [locs[0]] + locs[1..];
    }
  }

  /** What loading the JARs that may declare a name makes of the JAR definitions. */
  type Promotion = (map<string, seq<Location>>, string) -> map<string, seq<Location>>

  /** `lookup_definitions`: JARs are loaded before their definitions are read. */
  function LookupDefinitions(maps: Maps, table: seq<Uri>, name: string, promote: Promotion): seq<Location> {
    var jars := promote(maps.jarDefinitions, name);
    Locations(table, DefinitionsOf(maps, name)) + if name in jars then jars[name] else []
  }

  function KeepLocation(uris: set<Uri>): Location -> bool {
    (l: Location) => l.uri in uris
  }

  lemma {:induction false} LocationsFiltered(table: seq<Uri>, locs: seq<SymbolLoc>, uris: set<Uri>)
    ensures Locations(table, Filter(locs, KeepLoc(table, uris))) == Filter(Locations(table, locs), KeepLocation(uris))
  {
    if locs != [] {
      LocationsFiltered(table, locs[1..], uris);
      var rest := Locations(table, locs[1..]);
      if UrlOf(table, locs[0].file).Some? {
        assert ([Location(UrlOf(table, locs[0].file).value, locs[0].range)] + rest)[1..] == rest;
      } else {
        assert [] + rest == rest;
      }
    }
  }

  /** Right after a reset, a name still finds its library definitions and the same JAR definitions, in order. */
  lemma LookupAfterReset(maps: Maps, table: seq<Uri>, name: string, promote: Promotion)
    ensures var jars := promote(maps.jarDefinitions, name);
      var stored := if name in maps.definitions then maps.definitions[name] else [];
      LookupDefinitions(ResetOf(maps, table), table, name, promote)
      == Filter(Locations(table, stored), KeepLocation(maps.libraryUris)) + if name in jars then jars[name] else []
  {
    hide Filter, Locations;
    LocationsFiltered(table, DefinitionsOf(maps, name), maps.libraryUris);
  }

  /** Which definitions these are. */
  lemma LookupFinds(maps: Maps, table: seq<Uri>, name: string, promote: Promotion, l: Location)
    ensures var jars := promote(maps.jarDefinitions, name);
      l in LookupDefinitions(ResetOf(maps, table), table, name, promote) <==>
      || (name in maps.definitions && exists d | d in maps.definitions[name] ::
            OfLibrary(table, maps.libraryUris, d.file) && l == Location(table[d.file], d.range))
      || (name in jars && l in jars[name])
  {
    LookupAfterReset(maps, table, name, promote);
    var stored := if name in maps.definitions then maps.definitions[name] else [];
    LocationsAre(table, stored);
    hide Filter, Locations, LookupDefinitions, ResetOf;
  }

  lemma {:induction false} WorkspaceEmpty(table: seq<Uri>, libraries: set<Uri>, locs: seq<SymbolLoc>)
    ensures Workspace(table, libraries, locs) == [] <==>
      forall l | l in locs :: UrlOf(table, l.file).None? || UrlOf(table, l.file).value in libraries
  {
    if locs != [] {
      WorkspaceEmpty(table, libraries, locs[1..]);
      assert locs == [locs[0]] + locs[1..];
    }
  }

  /**
   Right after a reset there is no workspace candidate for a name, unless the name is defined in a
   library file without file data: such a file loses its library status but keeps its definitions.
   */
  lemma CandidatesAfterReset(maps: Maps, table: seq<Uri>, name: string)
    ensures var after := ResetOf(maps, table);
      Workspace(table, after.libraryUris, if name in after.definitions then after.definitions[name] else []) == [] <==>
        (name in maps.definitions ==>
           forall l | l in maps.definitions[name] :: !OfLibrary(table, maps.libraryUris - maps.files.Keys, l.file))
  {
    var after, lib := ResetOf(maps, table), maps.libraryUris;
    WorkspaceEmpty(table, after.libraryUris, DefinitionsOf(after, name));
    forall l | l in DefinitionsOf(maps, name) && FileIn(table, lib, l.file) ensures l in DefinitionsOf(after, name) {
      assert KeepLoc(table, lib)(l);
    }
    forall l | l in DefinitionsOf(after, name) ensures l in DefinitionsOf(maps, name) && FileIn(table, lib, l.file) {
      assert KeepLoc(table, lib)(l);
    }
  }
}
