/**
 * Runs of the batch store: any interleaving of saves by several processes, crashes between
 * rename and commit, directory listings, backfills of what was listed, and claims. A run may
 * start from any store, with files older than this code.
 */
module BatchRuns {
  import opened Common
  import opened Hex
  import opened Json
  import opened BatchRecord
  import opened BatchStore

  datatype Event =
    | Save(anchorId: string, metadata: Json, crash: Crash)
    | ListFiles(process: nat, names: seq<string>)
    | IndexListed(process: nat)
    | SaveClaim(anchorId: string, value: Json)

  /** A record a save wrote under an id. */
  datatype Entry = Entry(id: string, fields: Fields)

  /** The store, what each process last listed, and every record written so far. */
  datatype World = World(store: Store, listings: map<nat, seq<string>>, log: set<Entry>)

  const EMPTY: World := World(Store(map[], map[], {}, map[]), map[], {})

  ghost predicate Possible(w: World, e: Event) {
    && (e.ListFiles? ==> forall f | f in w.store.files :: f in e.names)
    && (e.ListFiles? ==> forall f | f in e.names && IsHex64(f) :: f in w.store.files)
    && (e.IndexListed? ==> e.process in w.listings)
  }

  /** Whether a save reached its rename. */
  ghost predicate Writes(o: Oracles, w: World, e: Event) {
    e.Save? && Merged(o, w.store, e.anchorId, e.metadata).Ok? && !e.crash.BeforeRename?
  }

  ghost function Next(o: Oracles, w: World, e: Event): World
    requires Possible(w, e)
  {
    match e
    case Save(id, metadata, crash) =>
      World(Saved(o, w.store, id, metadata, crash), w.listings,
            if Writes(o, w, e) then w.log + {Entry(Canonical(id), Merged(o, w.store, id, metadata).value)} else w.log)
    case ListFiles(p, names) => w.(listings := w.listings[p := names])
    case IndexListed(p) => w.(store := Backfilled(w.store, w.listings[p], |w.listings[p]|))
    case SaveClaim(id, value) => w.(store := ClaimSaved(o, w.store, id, value))
  }

  ghost predicate CanRun(o: Oracles, w: World, es: seq<Event>)
    decreases |es|, 0
  {
    es == [] || (CanRun(o, w, es[..|es| - 1]) && Possible(After(o, w, es[..|es| - 1]), es[|es| - 1]))
  }

  ghost function After(o: Oracles, w: World, es: seq<Event>): World
    requires CanRun(o, w, es)
    decreases |es|, 1
  {
    if es == [] then w else Next(o, After(o, w, es[..|es| - 1]), es[|es| - 1])
  }

  lemma {:induction false} Extend(o: Oracles, w: World, es: seq<Event>, e: Event)
    requires CanRun(o, w, es) && Possible(After(o, w, es), e)
    ensures CanRun(o, w, es + [e]) && After(o, w, es + [e]) == Next(o, After(o, w, es), e)
  {
    assert (es + [e])[..|es|] == es;
  }

  lemma TwoSteps(o: Oracles, w: World, a: Event, b: Event)
    requires Possible(w, a) && Possible(Next(o, w, a), b)
    ensures CanRun(o, w, [a, b]) && After(o, w, [a, b]) == Next(o, Next(o, w, a), b)
  {
    assert [] + [a] == [a] && [a] + [b] == [a, b];
    Extend(o, w, [], a);
    Extend(o, w, [a], b);
  }

  lemma ThreeSteps(o: Oracles, w: World, a: Event, b: Event, c: Event)
    requires Possible(w, a) && Possible(Next(o, w, a), b) && Possible(Next(o, Next(o, w, a), b), c)
    ensures CanRun(o, w, [a, b, c]) && After(o, w, [a, b, c]) == Next(o, Next(o, Next(o, w, a), b), c)
  {
    TwoSteps(o, w, a, b);
    assert [a, b] + [c] == [a, b, c];
    Extend(o, w, [a, b], c);
  }

  // ------------------------------------------------------------ files and what they are read as

  predicate Readable(files: map<string, Content>, f: string) {
    f in files && files[f].Record? && files[f].bytes <= BATCH_BYTE_BUDGET
  }

  /** Some name spells this id. */
  predicate Spells(names: seq<string>, k: string) {
    exists i :: 0 <= i < |names| && IsHex64(names[i]) && Lower(names[i]) == k
  }

  /** Some file is named by a spelling of this id. */
  ghost predicate HasFile(files: map<string, Content>, k: string) { exists f :: f in files && Lower(f) == k }

  /** A readable file that may be read under `k`: the file of that name or, while there is none, one spelling it. */
  predicate Spelled(files: map<string, Content>, k: string, f: string) {
    Readable(files, f) && IsHex64(f) && Lower(f) == k && (f == k || k !in files)
  }

  /** The leaves of the record read under `k` are indexed. */
  ghost predicate Covered(s: Store, k: string) {
    var r := Read(s.files, s.mapped, k);
    r.Loaded? ==> Rows(LeafSet(r.fields), k) <= s.index
  }

  ghost predicate MapFine(s: Store, k: string)
    requires k in s.mapped
  {
    && IsLowerHex64(k) && IsHex64(s.mapped[k]) && Lower(s.mapped[k]) == k
    && (k in s.files || Readable(s.files, s.mapped[k]))
    && (k !in s.files ==> Covered(s, k))
  }

  /**
   * Files have ids for names, the table of old names points at readable files that are
   * indexed, and every index row is about an id that has a file. With no table and no index
   * any directory is fine.
   */
  ghost predicate Fine(s: Store) {
    && (forall f | f in s.files :: IsHex64(f))
    && (forall k | k in s.mapped :: MapFine(s, k))
    && (forall row | row in s.index :: HasFile(s.files, row.id))
  }

  lemma HexHasNoPrefix(id: string)
    requires IsHex64(id)
    ensures Strip0x(id) == id && Canonical(id) == Lower(id) && IsLowerHex64(Lower(id))
  {
    assert IsHexDigit(id[1]);
  }

  lemma UnwrittenIsCovered(s: Store, k: string)
    requires Fine(s) && IsLowerHex64(k) && k !in s.files
    ensures Covered(s, k)
  {
    HexHasNoPrefix(k);
  }

  /** What is read under an id is a readable file that spells it. */
  lemma ReadIsSpelled(s: Store, k: string) returns (f: string)
    requires Fine(s) && IsLowerHex64(k) && Read(s.files, s.mapped, k).Loaded?
    ensures Spelled(s.files, k, f) && Read(s.files, s.mapped, k) == Loaded(s.files[f].fields)
    ensures k !in s.files ==> k in s.mapped && s.mapped[k] == f
  {
    HexHasNoPrefix(k);
    f := FileOf(s.files, s.mapped, k);
  }

  /** What a backfill reads under a name is a readable file that spells the name's id. */
  lemma BackfillReadsSpelled(files: map<string, Content>, name: string) returns (f: string)
    requires IsHex64(name) && Read(files, map[], name).Loaded?
    ensures Spelled(files, Lower(name), f) && Read(files, map[], name) == Loaded(files[f].fields)
    ensures Lower(name) !in files ==> f == name
  {
    HexHasNoPrefix(name);
    f := FileOf(files, map[], name);
    HexHasNoPrefix(Lower(name));
  }

  lemma SpelledIsRead(files: map<string, Content>, k: string, f: string)
    requires Spelled(files, k, f)
    ensures Read(files, map[], f) == Loaded(files[f].fields)
  {
    HexHasNoPrefix(f);
  }

  // ------------------------------------------------------------ what indexing keeps

  lemma IndexedReads(s: Store, key: string, file: string, r: Fields, k: string)
    requires IsHex64(file) && key == Lower(file) && Read(s.files, map[], file) == Loaded(r) && IsLowerHex64(k)
    ensures var t := Indexed(s, key, file, r);
      Read(t.files, t.mapped, k) == if k == key then Loaded(r) else Read(s.files, s.mapped, k)
  {
    HexHasNoPrefix(file);
    HexHasNoPrefix(k);
  }

  lemma IndexedCovers(s: Store, key: string, file: string, r: Fields, k: string)
    requires IsHex64(file) && key == Lower(file) && Read(s.files, map[], file) == Loaded(r) && IsLowerHex64(k)
    ensures Covered(Indexed(s, key, file, r), key)
    ensures Covered(s, k) ==> Covered(Indexed(s, key, file, r), k)
  {
    IndexedReads(s, key, file, r, k);
    IndexedReads(s, key, file, r, key);
  }

  lemma IndexedMapFine(s: Store, key: string, file: string, r: Fields, k: string)
    requires IsHex64(file) && key == Lower(file) && Read(s.files, map[], file) == Loaded(r)
    requires k in Indexed(s, key, file, r).mapped && (k in s.mapped ==> MapFine(s, k))
    ensures MapFine(Indexed(s, key, file, r), k)
  {
    HexHasNoPrefix(file);
    var f := BackfillReadsSpelled(s.files, file);
    IndexedCovers(s, key, file, r, k);
  }

  lemma IndexedKeepsFine(s: Store, key: string, file: string, r: Fields)
    requires Fine(s) && IsHex64(file) && key == Lower(file) && Read(s.files, map[], file) == Loaded(r)
    ensures Fine(Indexed(s, key, file, r))
  {
    var t := Indexed(s, key, file, r);
    forall k | k in t.mapped ensures MapFine(t, k) {
      IndexedMapFine(s, key, file, r, k);
    }
    var f := BackfillReadsSpelled(s.files, file);
    assert HasFile(t.files, key);
    forall row | row in t.index ensures HasFile(t.files, row.id) {
      if row in s.index { assert HasFile(s.files, row.id); }
    }
  }

  /** A listed name that is not skipped in favour of the lower-case one. */
  predicate TakenUp(listing: seq<string>, stem: string, k: string) {
    IsHex64(stem) && Lower(stem) == k && (stem == k || k !in listing)
  }

  lemma BackfillOneKeeps(s: Store, listing: seq<string>, stem: string, k: string)
    requires Fine(s) && IsLowerHex64(k)
    ensures var t := BackfilledOne(s, listing, stem);
      && Fine(t) && t.files == s.files && t.claims == s.claims && s.index <= t.index
      && (Covered(s, k) || TakenUp(listing, stem, k) ==> Covered(t, k))
  {
    if BackfilledOne(s, listing, stem) != s {
      var r := Read(s.files, map[], stem).fields;
      IndexedCovers(s, Lower(stem), stem, r, k);
      IndexedKeepsFine(s, Lower(stem), stem, r);
    } else if TakenUp(listing, stem, k) {
      HexHasNoPrefix(k);
      HexHasNoPrefix(stem);
      if k !in s.files { UnwrittenIsCovered(s, k); }
    }
  }

  predicate SomeTakenUp(listing: seq<string>, n: nat, k: string)
    requires n <= |listing|
  {
    exists i :: 0 <= i < n && TakenUp(listing, listing[i], k)
  }

  lemma {:induction false} BackfillKeeps(s: Store, listing: seq<string>, n: nat, k: string)
    requires Fine(s) && n <= |listing| && IsLowerHex64(k)
    ensures var t := Backfilled(s, listing, n);
      && Fine(t) && t.files == s.files && t.claims == s.claims && s.index <= t.index
      && (Covered(s, k) || SomeTakenUp(listing, n, k) ==> Covered(t, k))
  {
    if n > 0 {
      BackfillKeeps(s, listing, n - 1, k);
      BackfillOneKeeps(Backfilled(s, listing, n - 1), listing, listing[n - 1], k);
      if SomeTakenUp(listing, n, k) && !TakenUp(listing, listing[n - 1], k) {
        var i :| 0 <= i < n && TakenUp(listing, listing[i], k);
        assert 0 <= i < n - 1;
      }
    }
  }

  /** A listing that spells an id indexes what is read under it. */
  lemma SpelledIsTakenUp(listing: seq<string>, k: string)
    requires Spells(listing, k) && IsLowerHex64(k)
    ensures SomeTakenUp(listing, |listing|, k)
  {
    if k in listing {
      var i :| 0 <= i < |listing| && listing[i] == k;
      assert TakenUp(listing, listing[i], k);
    } else {
      var i :| 0 <= i < |listing| && IsHex64(listing[i]) && Lower(listing[i]) == k;
      assert TakenUp(listing, listing[i], k);
    }
  }

  /** The rows a backfill adds are leaves of readable files that spell a listed id. */
  lemma {:induction false} BackfillRows(s: Store, listing: seq<string>, n: nat, row: IndexRow)
    requires n <= |listing| && row in Backfilled(s, listing, n).index && row !in s.index
    ensures Spells(listing, row.id)
    ensures exists f :: Spelled(s.files, row.id, f) && row.leaf in LeafSet(s.files[f].fields)
  {
    BackfillFiles(s, listing, n - 1);
    if row in Backfilled(s, listing, n - 1).index {
      BackfillRows(s, listing, n - 1, row);
    } else {
      var f := BackfillReadsSpelled(s.files, listing[n - 1]);
      assert row.leaf in LeafSet(s.files[f].fields);
    }
  }

  lemma {:induction false} BackfillFiles(s: Store, listing: seq<string>, n: nat)
    requires n <= |listing|
    ensures Backfilled(s, listing, n).files == s.files && Backfilled(s, listing, n).claims == s.claims
  {
    if n > 0 { BackfillFiles(s, listing, n - 1); }
  }

  /** An id no listed name spells is read as before. */
  lemma {:induction false} BackfillReadsOthers(s: Store, listing: seq<string>, n: nat, k: string)
    requires n <= |listing| && IsLowerHex64(k) && !Spells(listing, k)
    ensures var t := Backfilled(s, listing, n);
      t.files == s.files && Read(t.files, t.mapped, k) == Read(s.files, s.mapped, k)
  {
    if n > 0 {
      BackfillReadsOthers(s, listing, n - 1, k);
      var t, stem := Backfilled(s, listing, n - 1), listing[n - 1];
      if BackfilledOne(t, listing, stem) != t {
        IndexedReads(t, Lower(stem), stem, Read(t.files, map[], stem).fields, k);
      }
    }
  }

  /**
   * A backfill takes up every readable old file whose id has no file of its own and no
   * lower-case name in the listing: it is in the table of names and its leaves are indexed.
   */
  lemma {:induction false} OldFilesAreIndexed(s: Store, listing: seq<string>, n: nat, f: string)
    requires n <= |listing| && f in listing[..n] && IsHex64(f) && Readable(s.files, f)
    requires Lower(f) !in s.files && Lower(f) !in listing
    ensures var t := Backfilled(s, listing, n);
      Lower(f) in t.mapped && Rows(LeafSet(s.files[f].fields), Lower(f)) <= t.index
  {
    var t := Backfilled(s, listing, n - 1);
    BackfillFiles(s, listing, n - 1);
    if f == listing[n - 1] {
      SpelledIsRead(s.files, Lower(f), f);
    } else {
      var i :| 0 <= i < |listing[..n]| && listing[..n][i] == f;
      assert listing[..n - 1][i] == f;
      OldFilesAreIndexed(s, listing, n - 1, f);
    }
  }

  /** The files in some order, with a given one last. */
  lemma {:induction false} Arranged(names: set<string>, last: string) returns (s: seq<string>)
    requires last in names
    ensures s != [] && s[|s| - 1] == last && forall f :: f in s <==> f in names
    decreases names
  {
    if names == {last} {
      s := [last];
    } else {
      assert names == {last} + (names - {last});
      var f :| f in names - {last};
      var rest := Arranged(names - {f}, last);
      s := [f] + rest;
    }
  }

  predicate NamesFiles(files: map<string, Content>, names: seq<string>) {
    forall n | n in names && IsHex64(n) :: n in files
  }

  /** Indexing a listing that ends in an old file leaves that file as the one readers find. */
  lemma LastListedIsRead(s: Store, names: seq<string>, k: string, g: string)
    requires Fine(s) && NamesFiles(s.files, names) && names != [] && names[|names| - 1] == g
    requires Spelled(s.files, k, g)
    ensures var t := Backfilled(s, names, |names|);
      && Read(t.files, t.mapped, k) == Loaded(s.files[g].fields) && Rows(LeafSet(s.files[g].fields), k) <= t.index
  {
    var before := Backfilled(s, names, |names| - 1);
    BackfillFiles(s, names, |names| - 1);
    assert k in names ==> k in s.files;
    SpelledIsIndexed(before, names, k, g);
  }

  lemma SpelledIsIndexed(s: Store, names: seq<string>, k: string, g: string)
    requires Spelled(s.files, k, g) && (g == k || k !in names)
    ensures var t := BackfilledOne(s, names, g);
      && Read(t.files, t.mapped, k) == Loaded(s.files[g].fields) && Rows(LeafSet(s.files[g].fields), k) <= t.index
  {
    SpelledIsRead(s.files, k, g);
    IndexedReads(s, k, g, s.files[g].fields, k);
  }

  lemma EveryFileListed(w: World, g: string) returns (names: seq<string>)
    requires Fine(w.store) && g in w.store.files
    ensures names != [] && names[|names| - 1] == g && Possible(w, ListFiles(0, names))
       && NamesFiles(w.store.files, names)
    ensures forall f | f in w.store.files :: f in names
  {
    names := Arranged(w.store.files.Keys, g);
  }

  // ------------------------------------------------------------ what a save keeps

  lemma RenamedReads(o: Oracles, s: Store, key: string, merged: Fields, k: string)
    requires IsLowerHex64(key) && IsLowerHex64(k) && o.size(merged) <= BATCH_BYTE_BUDGET
    requires k in s.mapped ==> IsHex64(s.mapped[k]) && Lower(s.mapped[k]) == k
    ensures var t := Renamed(o, s, key, merged);
      Read(t.files, t.mapped, k) == if k == key then Loaded(merged) else Read(s.files, s.mapped, k)
  {
    HexHasNoPrefix(k);
  }

  lemma RenameKeepsFine(o: Oracles, s: Store, key: string, merged: Fields)
    requires Fine(s) && IsLowerHex64(key) && o.size(merged) <= BATCH_BYTE_BUDGET
    ensures Fine(Renamed(o, s, key, merged))
  {
    var t := Renamed(o, s, key, merged);
    forall k | k in t.mapped ensures MapFine(t, k) {
      assert MapFine(s, k);
      RenamedReads(o, s, key, merged, k);
    }
    forall row | row in t.index ensures HasFile(t.files, row.id) {
      var f :| f in s.files && Lower(f) == row.id;
      assert f in t.files;
    }
  }

  /** Every merged record is valid for its id and fits the read budget. */
  lemma MergedFits(o: Oracles, s: Store, anchorId: string, metadata: Json)
    ensures var r := Merged(o, s, anchorId, metadata);
      r.Ok? ==> Valid(o, Canonical(anchorId), r.value) && o.size(r.value) <= BATCH_BYTE_BUDGET
    ensures Merged(o, s, anchorId, metadata).Ok? ==> IsLowerHex64(Canonical(anchorId))
  {
  }

  lemma WrittenReads(o: Oracles, s: Store, key: string, merged: Fields, crash: Crash, k: string)
    requires Fine(s) && IsLowerHex64(key) && IsLowerHex64(k) && o.size(merged) <= BATCH_BYTE_BUDGET
       && !crash.BeforeRename?
    ensures var t := Written(o, s, key, merged, crash);
      Read(t.files, t.mapped, k) == if k == key then Loaded(merged) else Read(s.files, s.mapped, k)
  {
    assert k in s.mapped ==> MapFine(s, k);
    RenamedReads(o, s, key, merged, k);
    HexHasNoPrefix(key);
    HexHasNoPrefix(k);
    IndexedReads(Renamed(o, s, key, merged), key, key, merged, k);
  }

  lemma WrittenKeeps(o: Oracles, s: Store, key: string, merged: Fields, crash: Crash, k: string)
    requires Fine(s) && IsLowerHex64(key) && IsLowerHex64(k) && o.size(merged) <= BATCH_BYTE_BUDGET
    ensures Fine(Written(o, s, key, merged, crash))
    ensures Covered(s, k) && !(crash.AfterRename? && k == key) ==> Covered(Written(o, s, key, merged, crash), k)
  {
    if !crash.BeforeRename? {
      var t := Renamed(o, s, key, merged);
      assert k in s.mapped ==> MapFine(s, k);
      RenameKeepsFine(o, s, key, merged);
      RenamedReads(o, s, key, merged, k);
      if crash.Completes? {
        HexHasNoPrefix(key);
        assert Read(t.files, map[], key) == Loaded(merged);
        IndexedKeepsFine(t, key, key, merged);
        IndexedCovers(t, key, key, merged, k);
      }
    }
  }

  /** The save whose rename is not followed by its commit. */
  ghost predicate Tears(o: Oracles, w: World, e: Event, k: string) {
    Writes(o, w, e) && e.crash.AfterRename? && Canonical(e.anchorId) == k
  }

  lemma SaveKeeps(o: Oracles, w: World, e: Event, k: string)
    requires Fine(w.store) && e.Save? && IsLowerHex64(k)
    ensures Fine(Next(o, w, e).store)
    ensures Covered(w.store, k) && !Tears(o, w, e, k) ==> Covered(Next(o, w, e).store, k)
  {
    if Merged(o, w.store, e.anchorId, e.metadata).Ok? {
      MergedFits(o, w.store, e.anchorId, e.metadata);
      WrittenKeeps(o, w.store, Canonical(e.anchorId), Merged(o, w.store, e.anchorId, e.metadata).value, e.crash, k);
    }
  }

  lemma ClaimKeeps(o: Oracles, s: Store, anchorId: string, value: Json)
    ensures var t := ClaimSaved(o, s, anchorId, value);
      t.files == s.files && t.mapped == s.mapped && t.index == s.index
  {
  }

  lemma SameTablesFine(s: Store, t: Store, k: string)
    requires t.files == s.files && t.mapped == s.mapped && t.index == s.index
    ensures Covered(t, k) == Covered(s, k) && (Fine(s) ==> Fine(t))
  {
    if Fine(s) {
      forall j | j in t.mapped ensures MapFine(t, j) { assert MapFine(s, j); }
    }
  }

  lemma StepKeeps(o: Oracles, w: World, e: Event, k: string)
    requires Fine(w.store) && Possible(w, e) && IsLowerHex64(k)
    ensures Fine(Next(o, w, e).store)
    ensures Covered(w.store, k) && !Tears(o, w, e, k) ==> Covered(Next(o, w, e).store, k)
  {
    match e
    case Save(_, _, _) => SaveKeeps(o, w, e, k);
    case ListFiles(_, _) =>
    case IndexListed(p) => BackfillKeeps(w.store, w.listings[p], |w.listings[p]|, k);
    case SaveClaim(id, value) =>
      ClaimKeeps(o, w.store, id, value);
      SameTablesFine(w.store, ClaimSaved(o, w.store, id, value), k);
  }

  // ------------------------------------------------------------ runs

  /** Some save of `k` in the run was cut off between its rename and its commit. */
  ghost predicate TornIn(o: Oracles, w: World, es: seq<Event>, k: string)
    requires CanRun(o, w, es)
    decreases |es|
  {
    es != [] && (TornIn(o, w, es[..|es| - 1], k) || Tears(o, After(o, w, es[..|es| - 1]), es[|es| - 1], k))
  }

  /** The event commits a save of `k`, or indexes a listing that spells it. */
  ghost predicate Mends(o: Oracles, w: World, e: Event, k: string) {
    || (Writes(o, w, e) && e.crash.Completes? && Canonical(e.anchorId) == k)
    || (e.IndexListed? && e.process in w.listings && Spells(w.listings[e.process], k))
  }

  ghost predicate MendedIn(o: Oracles, w: World, es: seq<Event>, k: string)
    requires CanRun(o, w, es)
    decreases |es|
  {
    es != [] && (MendedIn(o, w, es[..|es| - 1], k) || Mends(o, After(o, w, es[..|es| - 1]), es[|es| - 1], k))
  }

  predicate Lists(es: seq<Event>, p: nat) { exists i :: 0 <= i < |es| && es[i].ListFiles? && es[i].process == p }

  lemma {:induction false} RunKeeps(o: Oracles, w: World, es: seq<Event>, k: string)
    requires Fine(w.store) && CanRun(o, w, es) && IsLowerHex64(k)
    ensures Fine(After(o, w, es).store)
    ensures Covered(w.store, k) && !TornIn(o, w, es, k) ==> Covered(After(o, w, es).store, k)
    decreases |es|
  {
    if es != [] {
      RunKeeps(o, w, es[..|es| - 1], k);
      StepKeeps(o, After(o, w, es[..|es| - 1]), es[|es| - 1], k);
    }
  }

  lemma {:induction false} ListingStays(o: Oracles, w: World, es: seq<Event>, p: nat)
    requires CanRun(o, w, es) && p in w.listings && !Lists(es, p)
    ensures p in After(o, w, es).listings && After(o, w, es).listings[p] == w.listings[p]
    decreases |es|
  {
    if es != [] {
      var init := es[..|es| - 1];
      assert !Lists(init, p) by { assert forall i | 0 <= i < |init| :: init[i] == es[i]; }
      ListingStays(o, w, init, p);
    }
  }

  // ------------------------------------------------------------ every written file

  /** The record was valid for its id when it was written, and fits the read budget. */
  ghost predicate Fits(o: Oracles, e: Entry) {
    IsLowerHex64(e.id) && Valid(o, e.id, e.fields) && o.size(e.fields) <= BATCH_BYTE_BUDGET
  }

  /** A file holds a whole record that a save wrote. */
  ghost predicate Logged(o: Oracles, log: set<Entry>, k: string, c: Content) {
    c.Record? && c.bytes == o.size(c.fields) && Entry(k, c.fields) in log
  }

  /** A written record fits, and its id has a file that was written. */
  ghost predicate EntrySound(o: Oracles, log: set<Entry>, files: map<string, Content>, e: Entry) {
    Fits(o, e) && e.id in files && Logged(o, log, e.id, files[e.id])
  }

  /** A file is as it was at the start, or was written. */
  ghost predicate FileSound(o: Oracles, old_: map<string, Content>, log: set<Entry>, f: string, c: Content) {
    (f in old_ && old_[f] == c) || (IsLowerHex64(f) && Logged(o, log, f, c))
  }

  /** Written records are sound, listings name files, and a file is old or written. */
  ghost predicate Sound(o: Oracles, old_: map<string, Content>, w: World) {
    && (forall e | e in w.log :: EntrySound(o, w.log, w.store.files, e))
    && (forall p | p in w.listings :: NamesFiles(w.store.files, w.listings[p]))
    && (forall f | f in old_ :: f in w.store.files)
    && (forall f | f in w.store.files :: FileSound(o, old_, w.log, f, w.store.files[f]))
  }

  lemma WriteKeepsEntry(o: Oracles, log: set<Entry>, files: map<string, Content>, new_: Entry, e: Entry)
    requires Fits(o, new_) && (e == new_ || EntrySound(o, log, files, e))
    ensures EntrySound(o, log + {new_}, files[new_.id := Record(new_.fields, o.size(new_.fields))], e)
  {
  }

  lemma WriteKeepsFile(
      o: Oracles, old_: map<string, Content>, log: set<Entry>, files: map<string, Content>, new_: Entry, f: string)
    requires Fits(o, new_) && (f == new_.id || (f in files && FileSound(o, old_, log, f, files[f])))
    ensures var t := files[new_.id := Record(new_.fields, o.size(new_.fields))];
      FileSound(o, old_, log + {new_}, f, t[f])
  {
  }

  lemma ListedStays(files: map<string, Content>, more: map<string, Content>, names: seq<string>)
    requires NamesFiles(files, names) && files.Keys <= more.Keys
    ensures NamesFiles(more, names)
  {
  }

  /** A written record may take the place of any file. */
  lemma WriteKeepsSound(o: Oracles, old_: map<string, Content>, w: World, e: Entry, s: Store)
    requires Sound(o, old_, w) && Fits(o, e)
    requires s.files == w.store.files[e.id := Record(e.fields, o.size(e.fields))]
    ensures Sound(o, old_, World(s, w.listings, w.log + {e}))
  {
    forall x | x in w.log + {e} ensures EntrySound(o, w.log + {e}, s.files, x) {
      WriteKeepsEntry(o, w.log, w.store.files, e, x);
    }
    forall f | f in s.files ensures FileSound(o, old_, w.log + {e}, f, s.files[f]) {
      WriteKeepsFile(o, old_, w.log, w.store.files, e, f);
    }
    forall p | p in w.listings ensures NamesFiles(s.files, w.listings[p]) {
      ListedStays(w.store.files, s.files, w.listings[p]);
    }
  }

  lemma WrittenFiles(o: Oracles, s: Store, key: string, merged: Fields, crash: Crash)
    requires !crash.BeforeRename?
    ensures Written(o, s, key, merged, crash).files == s.files[key := Record(merged, o.size(merged))]
    ensures Written(o, s, key, merged, crash).claims == s.claims
  {
  }

  /** The record a save writes, if it writes one. */
  ghost function EntryOf(o: Oracles, w: World, e: Event): Entry
    requires e.Save?
  {
    var merged := Merged(o, w.store, e.anchorId, e.metadata);
    Entry(Canonical(e.anchorId), if merged.Ok? then merged.value else map[])
  }

  lemma EntryFits(o: Oracles, w: World, e: Event)
    requires e.Save?
    ensures Writes(o, w, e) ==> Fits(o, EntryOf(o, w, e))
  {
    MergedFits(o, w.store, e.anchorId, e.metadata);
  }

  /** A save of an id merges into the record readers of the id find, if they find one. */
  lemma SavesReadTheRecord(o: Oracles, w: World, e: Event, r: Fields)
    requires Fine(w.store) && e.Save? && Read(w.store.files, w.store.mapped, Canonical(e.anchorId)) == Loaded(r)
    ensures Writes(o, w, e) ==> e.metadata.Obj? && Merge(o, r, e.metadata.fields) == Ok(EntryOf(o, w, e).fields)
  {
    if Writes(o, w, e) {
      HexHasNoPrefix(Canonical(e.anchorId));
      assert Read(w.store.files, w.store.mapped, e.anchorId) == Loaded(r);
    }
  }

  lemma SaveKeepsSound(o: Oracles, old_: map<string, Content>, w: World, e: Event)
    requires Sound(o, old_, w) && e.Save?
    ensures Sound(o, old_, Next(o, w, e))
  {
    if Writes(o, w, e) {
      var x := EntryOf(o, w, e);
      EntryFits(o, w, e);
      WrittenFiles(o, w.store, x.id, x.fields, e.crash);
      WriteKeepsSound(o, old_, w, x, Written(o, w.store, x.id, x.fields, e.crash));
    }
  }

  lemma StepKeepsSound(o: Oracles, old_: map<string, Content>, w: World, e: Event)
    requires Sound(o, old_, w) && Possible(w, e)
    ensures Sound(o, old_, Next(o, w, e))
  {
    match e
    case Save(_, _, _) => SaveKeepsSound(o, old_, w, e);
    case ListFiles(_, _) =>
    case IndexListed(p) => BackfillFiles(w.store, w.listings[p], |w.listings[p]|);
    case SaveClaim(id, value) => ClaimKeeps(o, w.store, id, value);
  }

  lemma {:induction false} RunKeepsSound(o: Oracles, old_: map<string, Content>, w: World, es: seq<Event>)
    requires Sound(o, old_, w) && CanRun(o, w, es)
    ensures Sound(o, old_, After(o, w, es))
    decreases |es|
  {
    if es != [] {
      RunKeepsSound(o, old_, w, es[..|es| - 1]);
      StepKeepsSound(o, old_, After(o, w, es[..|es| - 1]), es[|es| - 1]);
    }
  }

  /** A world before any process of it has listed or saved. */
  ghost predicate Starts(w: World) { Fine(w.store) && w.listings == map[] && w.log == {} }

  lemma StartIsSound(o: Oracles, w: World)
    requires Starts(w)
    ensures Sound(o, w.store.files, w)
  {
  }

  /**
   * In every run from any store, a file is as it was at the start or a whole record that
   * validates for its name and fits the read budget. No file disappears.
   */
  lemma {:induction false} EveryFileIsValid(o: Oracles, w: World, es: seq<Event>, f: string)
    requires Starts(w) && CanRun(o, w, es) && f in w.store.files.Keys + After(o, w, es).store.files.Keys
    ensures f in After(o, w, es).store.files
    ensures var s := After(o, w, es).store;
      || (f in w.store.files && s.files[f] == w.store.files[f])
      || (Read(s.files, s.mapped, f).Loaded? && Fits(o, Entry(f, Read(s.files, s.mapped, f).fields)))
  {
    StartIsSound(o, w);
    RunKeepsSound(o, w.store.files, w, es);
    var s := After(o, w, es).store;
    if !(f in w.store.files && s.files[f] == w.store.files[f]) {
      assert Fits(o, Entry(f, s.files[f].fields));
      LoggedFileReads(o, s, f);
    }
  }

  lemma LoggedFileReads(o: Oracles, s: Store, f: string)
    requires f in s.files && s.files[f].Record? && IsLowerHex64(f) && s.files[f].bytes <= BATCH_BYTE_BUDGET
    ensures Read(s.files, s.mapped, f) == Loaded(s.files[f].fields)
  {
    HexHasNoPrefix(f);
  }

  /** Two records ever written under one id hold one batch, or two hash inputs that collide are found. */
  lemma {:induction false} ResavesKeepTheBatch(o: Oracles, w: World, es: seq<Event>, a: Entry, b: Entry)
    returns (c: Clash)
    requires Starts(w) && CanRun(o, w, es) && a in After(o, w, es).log && b in After(o, w, es).log && a.id == b.id
    ensures Witnessed(o, c)
    ensures c.SameBatch? ==> SameContent(a.fields, b.fields)
  {
    StartIsSound(o, w);
    RunKeepsSound(o, w.store.files, w, es);
    assert Fits(o, a) && Fits(o, b);
    c := IdBindsBatch(o, a.id, a.fields, b.fields);
  }

  // ------------------------------------------------------------ leaves of valid records

  lemma {:induction false} NamedLeaves(items: seq<Json>)
    requires Hashes(items).Some?
    ensures LeavesNamed(items) == set l | l in Hashes(items).value
  {
    if items != [] {
      var init, last := items[..|items| - 1], items[|items| - 1];
      NamedLeaves(init);
      assert LeafNamed(last) == Hash(last);
    }
  }

  /** The leaves of a valid record are the leaves its root commits to. */
  lemma ValidLeafSet(o: Oracles, k: string, r: Fields)
    requires Valid(o, k, r)
    ensures LeafHashes(r).Some? && LeafSet(r) == (set l | l in LeafHashes(r).value) && LeafSet(r) != {}
  {
    NamedLeaves(Field(r, "leafHashes").items);
    assert LeafHashes(r).value[0] in LeafSet(r);
  }

  /** Two valid records of one id list the same leaves, or two hash inputs that collide are found. */
  lemma SameLeaves(o: Oracles, k: string, a: Fields, b: Fields) returns (c: Clash)
    requires Valid(o, k, a) && Valid(o, k, b)
    ensures Witnessed(o, c)
    ensures c.SameBatch? ==> LeafSet(a) == LeafSet(b)
  {
    c := IdBindsBatch(o, k, a, b);
    ValidLeafSet(o, k, a);
    ValidLeafSet(o, k, b);
  }
}
