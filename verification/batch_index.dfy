/**
 * What the leaf index says in any run of the batch store: exactly when a backfill leaves a
 * batch unindexed, and exactly when every indexed leaf is a leaf of the file.
 */
module BatchIndex {
  import opened Common
  import opened Json
  import opened Hex
  import opened BatchRecord
  import opened BatchStore
  import opened BatchRuns

  // ------------------------------------------------------------ an id that was not listed

  predicate Indexes(s: Store, k: string) { exists row :: row in s.index && row.id == k }

  predicate OnlyOwnFile(files: map<string, Content>, k: string) {
    (forall f | f in files && Lower(f) == k :: f == k) && IsLowerHex64(k)
  }

  ghost predicate LeavesIndexed(w: World, k: string) {
    exists e :: e in w.log && e.id == k && Rows(LeafSet(e.fields), k) <= w.store.index
  }

  /** An id that had no file, after saves of it were torn or mended as said. */
  ghost predicate Newcomer(o: Oracles, w: World, k: string, torn: bool, mended: bool) {
    && OnlyOwnFile(w.store.files, k)
    && (k in w.store.files <==> torn || mended)
    && (k in w.store.files ==> Logged(o, w.log, k, w.store.files[k]))
    && (if mended then LeavesIndexed(w, k) else !Indexes(w.store, k))
  }

  lemma UnlistedIsNewcomer(o: Oracles, w: World, p: nat, names: seq<string>, k: string)
    requires Fine(w.store) && IsLowerHex64(k) && Possible(w, ListFiles(p, names)) && !Spells(names, k)
    ensures Newcomer(o, Next(o, w, ListFiles(p, names)), k, false, false)
  {
    forall f | f in w.store.files ensures Lower(f) != k {
      assert f in names;
      var i :| 0 <= i < |names| && names[i] == f;
    }
  }

  lemma SaveNewcomer(o: Oracles, w: World, e: Event, k: string, torn: bool, mended: bool)
    requires Newcomer(o, w, k, torn, mended) && e.Save?
    ensures Newcomer(o, Next(o, w, e), k, torn || Tears(o, w, e, k), mended || Mends(o, w, e, k))
  {
    var t := Next(o, w, e);
    if Writes(o, w, e) {
      var x := EntryOf(o, w, e);
      EntryFits(o, w, e);
      WrittenFiles(o, w.store, x.id, x.fields, e.crash);
      assert x in t.log;
      if x.id == k {
        if e.crash.Completes? {
          assert Rows(LeafSet(x.fields), k) <= t.store.index;
        }
      }
    }
  }

  /** A listing that spells such an id holds its file, and indexing the listing indexes what is in the file. */
  lemma ListedNewcomer(o: Oracles, old_: map<string, Content>, w: World, q: nat, k: string)
    requires Fine(w.store) && Sound(o, old_, w) && q in w.listings && Spells(w.listings[q], k)
    requires OnlyOwnFile(w.store.files, k) && (k in w.store.files ==> Logged(o, w.log, k, w.store.files[k]))
    ensures k in w.store.files && LeavesIndexed(Next(o, w, IndexListed(q)), k)
  {
    var listing := w.listings[q];
    var i :| 0 <= i < |listing| && IsHex64(listing[i]) && Lower(listing[i]) == k;
    assert NamesFiles(w.store.files, listing) && listing[i] in w.store.files;
    var r := w.store.files[k].fields;
    assert EntrySound(o, w.log, w.store.files, Entry(k, r));
    SpelledIsTakenUp(listing, k);
    BackfillKeeps(w.store, listing, |listing|, k);
    LoggedFileReads(o, Next(o, w, IndexListed(q)).store, k);
  }

  lemma IndexNewcomer(o: Oracles, old_: map<string, Content>, w: World, q: nat, k: string, torn: bool, mended: bool)
    requires Fine(w.store) && Sound(o, old_, w) && q in w.listings && Newcomer(o, w, k, torn, mended)
    ensures Newcomer(o, Next(o, w, IndexListed(q)), k, torn, mended || Spells(w.listings[q], k))
  {
    var listing := w.listings[q];
    BackfillKeeps(w.store, listing, |listing|, k);
    if Spells(listing, k) {
      ListedNewcomer(o, old_, w, q, k);
    } else {
      RowsOfOthers(w.store, listing, k);
    }
  }

  /** An id no listed name spells gets no rows from a backfill. */
  lemma RowsOfOthers(s: Store, listing: seq<string>, k: string)
    requires !Spells(listing, k)
    ensures forall row | row in Backfilled(s, listing, |listing|).index && row.id == k :: row in s.index
  {
    forall row | row in Backfilled(s, listing, |listing|).index && row.id == k ensures row in s.index {
      if row !in s.index { BackfillRows(s, listing, |listing|, row); }
    }
  }

  lemma StepNewcomer(o: Oracles, old_: map<string, Content>, w: World, e: Event, k: string, torn: bool, mended: bool)
    requires Fine(w.store) && Sound(o, old_, w) && Possible(w, e) && Newcomer(o, w, k, torn, mended)
    ensures Newcomer(o, Next(o, w, e), k, torn || Tears(o, w, e, k), mended || Mends(o, w, e, k))
  {
    match e
    case Save(_, _, _) => SaveNewcomer(o, w, e, k, torn, mended);
    case ListFiles(_, _) =>
    case IndexListed(q) => IndexNewcomer(o, old_, w, q, k, torn, mended);
    case SaveClaim(id, value) => ClaimKeeps(o, w.store, id, value);
  }

  lemma {:induction false} RunNewcomer(o: Oracles, old_: map<string, Content>, w: World, es: seq<Event>, k: string)
    requires Fine(w.store) && Sound(o, old_, w) && CanRun(o, w, es) && Newcomer(o, w, k, false, false)
    ensures Newcomer(o, After(o, w, es), k, TornIn(o, w, es, k), MendedIn(o, w, es, k))
    decreases |es|
  {
    if es != [] {
      var init := es[..|es| - 1];
      RunNewcomer(o, old_, w, init, k);
      RunKeeps(o, w, init, k);
      RunKeepsSound(o, old_, w, init);
      StepNewcomer(o, old_, After(o, w, init), es[|es| - 1], k, TornIn(o, w, init, k), MendedIn(o, w, init, k));
    }
  }

  /** Torn and not mended, a batch has a file and no rows. */
  lemma TornIsUncovered(o: Oracles, old_: map<string, Content>, w: World, k: string)
    requires Sound(o, old_, w) && Newcomer(o, w, k, true, false)
    ensures !Covered(w.store, k)
  {
    var r := w.store.files[k].fields;
    assert EntrySound(o, w.log, w.store.files, Entry(k, r));
    LoggedFileReads(o, w.store, k);
    ValidLeafSet(o, k, r);
    var leaf :| leaf in LeafSet(r);
    assert IndexRow(leaf, k) in Rows(LeafSet(r), k);
  }

  lemma MendedIsCovered(o: Oracles, old_: map<string, Content>, w: World, k: string, torn: bool) returns (c: Clash)
    requires Sound(o, old_, w) && Newcomer(o, w, k, torn, true)
    ensures Witnessed(o, c)
    ensures c.SameBatch? ==> Covered(w.store, k)
  {
    var r := w.store.files[k].fields;
    assert EntrySound(o, w.log, w.store.files, Entry(k, r));
    LoggedFileReads(o, w.store, k);
    var e :| e in w.log && e.id == k && Rows(LeafSet(e.fields), k) <= w.store.index;
    assert EntrySound(o, w.log, w.store.files, e);
    c := SameLeaves(o, k, e.fields, r);
  }

  lemma NewcomerIsCoveredExactly(o: Oracles, old_: map<string, Content>, w: World, k: string, torn: bool, mended: bool)
    returns (c: Clash)
    requires Fine(w.store) && Sound(o, old_, w) && Newcomer(o, w, k, torn, mended)
    ensures Witnessed(o, c)
    ensures torn && !mended ==> !Covered(w.store, k)
    ensures c.SameBatch? ==> (Covered(w.store, k) <==> !torn || mended)
  {
    c := SameBatch;
    if mended {
      c := MendedIsCovered(o, old_, w, k, torn);
    } else if torn {
      TornIsUncovered(o, old_, w, k);
    } else {
      UnwrittenIsCovered(w.store, k);
    }
  }

  lemma UnlistedIsCoveredExactly(
      o: Oracles, old_: map<string, Content>, w: World, p: nat, names: seq<string>, between: seq<Event>, k: string)
    returns (c: Clash)
    requires Fine(w.store) && Sound(o, old_, w) && IsLowerHex64(k) && Possible(w, ListFiles(p, names))
       && !Spells(names, k)
    requires CanRun(o, Next(o, w, ListFiles(p, names)), between)
    ensures Witnessed(o, c)
    ensures var listed := Next(o, w, ListFiles(p, names));
      var torn, mended := TornIn(o, listed, between, k), MendedIn(o, listed, between, k);
      && (torn && !mended ==> !Covered(After(o, listed, between).store, k))
      && (c.SameBatch? ==> (Covered(After(o, listed, between).store, k) <==> !torn || mended))
  {
    var listed := Next(o, w, ListFiles(p, names));
    StepKeepsSound(o, old_, w, ListFiles(p, names));
    RunKeepsSound(o, old_, listed, between);
    RunKeeps(o, listed, between, k);
    UnlistedIsNewcomer(o, w, p, names, k);
    RunNewcomer(o, old_, listed, between, k);
    c := NewcomerIsCoveredExactly(
      o, old_, After(o, listed, between), k, TornIn(o, listed, between, k), MendedIn(o, listed, between, k));
  }

  lemma CoveredAsBefore(s: Store, listing: seq<string>, k: string)
    requires IsLowerHex64(k) && !Spells(listing, k)
    ensures Covered(Backfilled(s, listing, |listing|), k) <==> Covered(s, k)
  {
    BackfillReadsOthers(s, listing, |listing|, k);
    RowsOfOthers(s, listing, k);
    BackfillIndexGrows(s, listing, |listing|);
  }

  lemma {:induction false} BackfillIndexGrows(s: Store, listing: seq<string>, n: nat)
    requires n <= |listing|
    ensures s.index <= Backfilled(s, listing, n).index
  {
    if n > 0 { BackfillIndexGrows(s, listing, n - 1); }
  }

  /** Old files whose id has no file of its own: what a listing of them says of them after it is indexed. */
  ghost predicate OldFilesTakenUp(before: Store, after: Store, names: seq<string>) {
    forall f | f in names && IsHex64(f) && Readable(before.files, f) && Lower(f) !in before.files ::
      Lower(f) in after.mapped && Rows(LeafSet(before.files[f].fields), Lower(f)) <= after.index
  }

  lemma ListingTakesUpOldFiles(s: Store, names: seq<string>)
    requires NamesFiles(s.files, names)
    ensures OldFilesTakenUp(s, Backfilled(s, names, |names|), names)
  {
    forall f | f in names && IsHex64(f) && Readable(s.files, f) && Lower(f) !in s.files
      ensures Lower(f) in Backfilled(s, names, |names|).mapped
      ensures Rows(LeafSet(s.files[f].fields), Lower(f)) <= Backfilled(s, names, |names|).index
    {
      assert names[..|names|] == names;
      OldFilesAreIndexed(s, names, |names|, f);
    }
  }

  lemma ListedIsCovered(s: Store, names: seq<string>, k: string)
    requires Fine(s) && IsLowerHex64(k) && Spells(names, k)
    ensures Covered(Backfilled(s, names, |names|), k)
  {
    SpelledIsTakenUp(names, k);
    BackfillKeeps(s, names, |names|, k);
  }

  /**
   * A process lists the directory and later indexes what it listed; in between, any processes
   * may save, crash, list and backfill. Every readable listed file that stands for its id is
   * then mapped and indexed. And the leaves of what is read under `k` are all indexed exactly
   * if the listing spells `k`, or no save of `k` in between was cut off before its commit, or
   * another one was committed or another listing of `k` indexed. The one way out is a pair of
   * hash inputs that collide, and a missed batch is missed even then.
   */
  lemma {:induction false} BackfillCoversExactly(
      o: Oracles, old_: map<string, Content>, w: World, p: nat, names: seq<string>, between: seq<Event>, k: string)
    returns (c: Clash)
    requires Fine(w.store) && Sound(o, old_, w) && IsLowerHex64(k) && Possible(w, ListFiles(p, names))
    requires CanRun(o, Next(o, w, ListFiles(p, names)), between) && !Lists(between, p)
    ensures Possible(After(o, Next(o, w, ListFiles(p, names)), between), IndexListed(p))
    ensures Witnessed(o, c)
    ensures var listed := Next(o, w, ListFiles(p, names));
      var before := After(o, listed, between);
      var after := Next(o, before, IndexListed(p)).store;
      && OldFilesTakenUp(before.store, after, names)
      && (!Spells(names, k) && TornIn(o, listed, between, k) && !MendedIn(o, listed, between, k) ==> !Covered(after, k))
      && (c.SameBatch? ==>
            (Covered(after, k) <==>
               Spells(names, k) || !TornIn(o, listed, between, k) || MendedIn(o, listed, between, k)))
  {
    var listed := Next(o, w, ListFiles(p, names));
    var before := After(o, listed, between);
    StepKeepsSound(o, old_, w, ListFiles(p, names));
    RunKeepsSound(o, old_, listed, between);
    RunKeeps(o, listed, between, k);
    ListingStays(o, listed, between, p);
    assert NamesFiles(before.store.files, before.listings[p]);
    ListingTakesUpOldFiles(before.store, names);
    c := SameBatch;
    if Spells(names, k) {
      ListedIsCovered(before.store, names, k);
    } else {
      c := UnlistedIsCoveredExactly(o, old_, w, p, names, between, k);
      CoveredAsBefore(before.store, names, k);
    }
  }

  /** A valid record a save may put in the place of an old one. */
  ghost predicate Replaces(o: Oracles, k: string, r: Fields, metadata: Fields) {
    Merge(o, r, metadata).Ok? && Valid(o, k, Merge(o, r, metadata).value)
  }

  /** A save merges into the record read under the id, or into nothing. */
  lemma MergedOver(o: Oracles, s: Store, k: string, r: Fields, metadata: Fields)
    requires IsLowerHex64(k)
    requires Read(s.files, s.mapped, k) == Loaded(r) || (Read(s.files, s.mapped, k).Absent? && r == map[])
    ensures Replaces(o, k, r, metadata) ==> Merged(o, s, k, Obj(metadata)) == Merge(o, r, metadata)
  {
    HexHasNoPrefix(k);
  }

  // ------------------------------------------------------------ a batch that is missed

  /** Hashes under which a batch of one leaf has the id of its leaf. */
  function OneLeafOracles(id: string): Oracles {
    Oracles((left, right) => left, m => id, (root, digest) => id, r => 0, text => false)
  }

  function OneLeafBatch(id: string): Fields {
    map["rootHash" := Str(id), "leafHashes" := Arr([Str(id)]), "leafCount" := Num(1),
        "blockRangeStart" := Num(0), "blockRangeEnd" := Num(0)]
  }

  lemma NoGenesisStated(r: Fields)
    requires Field(r, "materiosGenesis").Undefined?
    requires Field(r, "genesis").Undefined? && Field(r, "materios_chain_id").Undefined?
    ensures Geneses(r) == Some(GENESIS)
  {
    var stated := [Undefined, Undefined, Undefined];
    assert stated[1..] == [Undefined, Undefined] && stated[1..][1..] == [Undefined];
    assert Present([Undefined]) == Present([]) == [];
    assert Present(stated) == [];
  }

  lemma OneHash(v: Json, h: string)
    requires Hash(v) == Some(h)
    ensures Hashes([v]) == Some([h])
  {
    var none: seq<Json> := [];
    assert Hashes(none) == Some([]);
    assert [v][..|[v]| - 1] == none;
    assert [] + [h] == [h];
  }

  /** A record of one leaf that states nothing else. */
  predicate OneLeaf(r: Fields, leaf: string) {
    && Field(r, "rootHash") == Str(leaf) && Field(r, "leafHashes") == Arr([Str(leaf)])
       && Field(r, "leafCount") == Num(1)
    && Field(r, "blockRangeStart") == Num(0) && Field(r, "blockRangeEnd") == Num(0)
    && Field(r, "materiosGenesis").Undefined? && Field(r, "genesis").Undefined?
       && Field(r, "materios_chain_id").Undefined?
    && Field(r, "anchorId").Undefined? && Field(r, "manifestHash").Undefined? && Field(r, "cardanoNetworkId").Undefined?
    && Field(r, "cardanoNetwork").Undefined? && Field(r, "cardanoClaims").Undefined?
  }

  lemma OneLeafIsValid(o: Oracles, id: string, r: Fields)
    requires IsLowerHex64(id) && OneLeaf(r, id) && o.pair == ((left, right) => left)
    requires forall digest :: o.anchor(id, digest) == id
    ensures Valid(o, id, r)
  {
    OneHash(Str(id), id);
    assert LeafHashes(r) == Some([id]);
    NoGenesisStated(r);
    assert Derives(o, id, r, GENESIS[0]);
  }

  lemma NoClaims(o: Oracles, r: Fields)
    requires Field(r, "cardanoNetwork").Undefined? && Listed(r) == []
    ensures Claims(o, r) == []
  {
    assert Candidates(r) == [Obj(r)] && [Obj(r)][..0] == [];
    assert Distinct(o, []) == [] && ClaimIn(o, Obj(r)).None?;
  }

  /** A first record that makes no claims is stored as it is sent. */
  lemma FirstMerge(o: Oracles, r: Fields, leaf: string)
    requires OneLeaf(r, leaf) && o.size(r) == 0
    ensures Merge(o, map[], r) == Ok(r)
  {
    NoClaims(o, map[]);
    NoClaims(o, r);
    NoClaims(o, map["cardanoClaims" := Arr([])]);
    assert map[] + r == r;
    assert MergedFields(map[], r) == r;
    assert JoinedClaims(o, map[], r) == [] by { assert StoredAll([]) + StoredAll([]) == []; }
  }

  lemma OneLeafMerges(id: string)
    requires IsLowerHex64(id)
    ensures Merged(OneLeafOracles(id), EMPTY.store, id, Obj(OneLeafBatch(id))) == Ok(OneLeafBatch(id))
  {
    var o, r := OneLeafOracles(id), OneLeafBatch(id);
    OneLeafIsValid(o, id, r);
    FirstMerge(o, r, id);
    HexHasNoPrefix(id);
    MergedOver(o, EMPTY.store, id, map[], r);
  }

  /** A save cut off after its rename changes the file and nothing else. */
  lemma TornSave(o: Oracles, w: World, id: string, metadata: Json)
    requires IsLowerHex64(id)
    ensures var t := Next(o, w, Save(id, metadata, AfterRename));
      && t.store.index == w.store.index && t.listings == w.listings
      && (Merged(o, w.store, id, metadata).Ok? ==> id in t.store.files)
  {
    HexHasNoPrefix(id);
  }

  /** A run in which a batch is missed: it is listed too early, and its one save dies before its commit. */
  lemma LateTornSaveIsMissed(id: string) returns (o: Oracles, metadata: Json)
    requires IsLowerHex64(id)
    ensures var es := [ListFiles(0, []), Save(id, metadata, AfterRename), IndexListed(0)];
      && CanRun(o, EMPTY, es) && id in After(o, EMPTY, es).store.files && After(o, EMPTY, es).store.index == {}
  {
    o, metadata := OneLeafOracles(id), Obj(OneLeafBatch(id));
    OneLeafMerges(id);
    var listing, save, backfill := ListFiles(0, []), Save(id, metadata, AfterRename), IndexListed(0);
    TornSave(o, Next(o, EMPTY, listing), id, metadata);
    ThreeSteps(o, EMPTY, listing, save, backfill);
  }

  // ------------------------------------------------------------ rows that stay right

  predicate ListsAll(r: Fields, leavesOf: Fields) { LeafSet(leavesOf) <= LeafSet(r) }

  /** A save over this old file lists every leaf the file lists. */
  ghost predicate SaveListsAll(o: Oracles, k: string, r: Fields, metadata: Fields) {
    Replaces(o, k, r, metadata) ==> ListsAll(Merge(o, r, metadata).value, r)
  }

  /** The old files of an id list the same leaves. */
  ghost predicate OldLeavesAgree(files: map<string, Content>, k: string) {
    forall f, g | Spelled(files, k, f) && Spelled(files, k, g) :: ListsAll(files[g].fields, files[f].fields)
  }

  /**
   * The old files of an id list the same leaves, and no valid record that a save could merge
   * over one of them drops a leaf it lists.
   */
  ghost predicate OldLeavesStay(o: Oracles, files: map<string, Content>, k: string) {
    && OldLeavesAgree(files, k)
    && (forall g, m | Spelled(files, k, g) :: SaveListsAll(o, k, files[g].fields, m))
  }

  /**
   * Old records that are valid for their id list the leaves of every batch of the id, or inputs
   * that collide are found.
   */
  lemma ValidOldLeavesStay(o: Oracles, files: map<string, Content>, k: string) returns (c: Clash)
    requires forall f | Spelled(files, k, f) :: Valid(o, k, files[f].fields)
    ensures Witnessed(o, c)
    ensures c.SameBatch? ==> OldLeavesStay(o, files, k)
  {
    c := SameBatch;
    if f, g :| Spelled(files, k, f) && Spelled(files, k, g) && !ListsAll(files[g].fields, files[f].fields) {
      c := SameLeaves(o, k, files[f].fields, files[g].fields);
    } else if g, m :| Spelled(files, k, g) && !SaveListsAll(o, k, files[g].fields, m) {
      c := SameLeaves(o, k, files[g].fields, Merge(o, files[g].fields, m).value);
    }
  }

  /** Some save would replace the record. */
  ghost predicate Replaceable(o: Oracles, k: string, r: Fields) { exists m :: Replaces(o, k, r, m) }

  /** The leaves of an old record that some save would replace are leaves of the batch `b`. */
  ghost predicate BatchListsAll(o: Oracles, k: string, r: Fields, b: Fields) {
    Replaceable(o, k, r) ==> ListsAll(b, r)
  }

  /** A valid record lists the leaves of every record a save could put in the place of an old one. */
  ghost predicate ListsReplacement(o: Oracles, k: string, r: Fields, m: Fields, b: Fields) {
    Replaces(o, k, r, m) ==> LeafSet(Merge(o, r, m).value) == LeafSet(b)
  }

  lemma SaveListsAllExactly(o: Oracles, k: string, r: Fields, b: Fields)
    requires forall m :: ListsReplacement(o, k, r, m, b)
    ensures (forall m :: SaveListsAll(o, k, r, m)) <==> BatchListsAll(o, k, r, b)
  {
    if Replaceable(o, k, r) && forall m :: SaveListsAll(o, k, r, m) {
      var m :| Replaces(o, k, r, m);
      assert ListsReplacement(o, k, r, m, b) && SaveListsAll(o, k, r, m);
    }
    forall m | BatchListsAll(o, k, r, b)
      ensures SaveListsAll(o, k, r, m)
    {
      assert ListsReplacement(o, k, r, m, b);
    }
  }

  /**
   * Given one valid record of the id: its old files keep their leaves if and only if they list
   * the same ones and those that can be replaced list leaves of that record alone, or inputs
   * that collide are found.
   */
  lemma OldLeavesStayExactly(o: Oracles, files: map<string, Content>, k: string, b: Fields) returns (c: Clash)
    requires Valid(o, k, b)
    ensures Witnessed(o, c)
    ensures c.SameBatch? ==>
      (OldLeavesStay(o, files, k) <==>
        OldLeavesAgree(files, k) && forall g | Spelled(files, k, g) :: BatchListsAll(o, k, files[g].fields, b))
  {
    c := SameBatch;
    if g, m :| Spelled(files, k, g) && !ListsReplacement(o, k, files[g].fields, m, b) {
      c := SameLeaves(o, k, Merge(o, files[g].fields, m).value, b);
    } else {
      forall g | Spelled(files, k, g)
        ensures (forall m :: SaveListsAll(o, k, files[g].fields, m)) <==> BatchListsAll(o, k, files[g].fields, b)
      {
        SaveListsAllExactly(o, k, files[g].fields, b);
      }
    }
  }

  /** The record has a value for every optional field of its id that the old one has. */
  predicate Restates(b: Fields, r: Fields) {
    && ("anchorId" in r ==> "anchorId" in b) && ("manifestHash" in r ==> "manifestHash" in b)
    && ("materiosGenesis" in r ==> "materiosGenesis" in b) && ("genesis" in r ==> "genesis" in b)
    && ("materios_chain_id" in r ==> "materios_chain_id" in b)
    && ("cardanoNetworkId" in r ==> "cardanoNetworkId" in b)
  }

  /** Two records with the same fields under every name that validation reads. */
  predicate SameBatchFields(a: Fields, b: Fields) {
    && Field(a, "rootHash") == Field(b, "rootHash") && Field(a, "leafHashes") == Field(b, "leafHashes")
       && Field(a, "leafCount") == Field(b, "leafCount")
    && Field(a, "blockRangeStart") == Field(b, "blockRangeStart")
       && Field(a, "blockRangeEnd") == Field(b, "blockRangeEnd")
    && Field(a, "materiosGenesis") == Field(b, "materiosGenesis") && Field(a, "genesis") == Field(b, "genesis")
       && Field(a, "materios_chain_id") == Field(b, "materios_chain_id")
    && Field(a, "anchorId") == Field(b, "anchorId") && Field(a, "manifestHash") == Field(b, "manifestHash")
       && Field(a, "cardanoNetworkId") == Field(b, "cardanoNetworkId")
  }

  lemma SameFieldsSameValidity(o: Oracles, k: string, a: Fields, b: Fields)
    requires SameBatchFields(a, b) && Valid(o, k, b)
    ensures Valid(o, k, a) && LeafSet(a) == LeafSet(b)
  {
    assert LeafHashes(a) == LeafHashes(b) && Geneses(a) == Geneses(b);
    var i :| 0 <= i < |Geneses(b).value| && Derives(o, k, b, Geneses(b).value[i]);
    assert ManifestOf(a, Geneses(b).value[i]) == ManifestOf(b, Geneses(b).value[i]);
    assert Derives(o, k, a, Geneses(b).value[i]);
  }

  lemma KeptElsewhere(previous: Fields, merged: Fields, field: string, name: string)
    requires name != field
    ensures Field(Keep(previous, merged, field), name) == Field(merged, name)
  {
  }

  /** The merge takes a field that claims nothing from the new record. */
  lemma MergedField(o: Oracles, r: Fields, b: Fields, name: string)
    requires name != "cardanoNetwork" && name != "cardanoTxHash" && name != "cardanoSubmittedAt"
    requires name != "cardanoClaims" && (name in r ==> name in b)
    ensures Field(WithClaims(o, r, b), name) == Field(b, name)
  {
    var network := Keep(r, r + b, "cardanoNetwork");
    var tx := Keep(r, network, "cardanoTxHash");
    KeptElsewhere(r, r + b, "cardanoNetwork", name);
    KeptElsewhere(r, network, "cardanoTxHash", name);
    KeptElsewhere(r, tx, "cardanoSubmittedAt", name);
    ClaimsElsewhere(o, r, b, name);
  }

  lemma ClaimsElsewhere(o: Oracles, r: Fields, b: Fields, name: string)
    requires name != "cardanoClaims"
    ensures Field(WithClaims(o, r, b), name) == Field(MergedFields(r, b), name)
  {
    var claims, merged := JoinedClaims(o, r, b), MergedFields(r, b);
    var stored := Arr(StoredAll(claims));
    assert Field(merged["cardanoClaims" := stored], name) == Field(merged, name);
  }

  lemma MergedBatchFields(o: Oracles, r: Fields, b: Fields)
    requires "rootHash" in b && "leafHashes" in b && "leafCount" in b
    requires "blockRangeStart" in b && "blockRangeEnd" in b && Restates(b, r)
    ensures SameBatchFields(WithClaims(o, r, b), b)
  {
    MergedField(o, r, b, "rootHash");
    MergedField(o, r, b, "leafHashes");
    MergedField(o, r, b, "leafCount");
    MergedField(o, r, b, "blockRangeStart");
    MergedField(o, r, b, "blockRangeEnd");
    MergedField(o, r, b, "materiosGenesis");
    MergedField(o, r, b, "genesis");
    MergedField(o, r, b, "materios_chain_id");
    MergedField(o, r, b, "anchorId");
    MergedField(o, r, b, "manifestHash");
    MergedField(o, r, b, "cardanoNetworkId");
  }

  lemma ValidStates(o: Oracles, k: string, b: Fields)
    requires Valid(o, k, b)
    ensures "rootHash" in b && "leafHashes" in b && "leafCount" in b
    ensures "blockRangeStart" in b && "blockRangeEnd" in b
  {
  }

  /** A valid record that restates an old one replaces it if and only if their merge keeps both limits. */
  lemma RestatedReplaces(o: Oracles, k: string, r: Fields, b: Fields)
    requires Valid(o, k, b) && Restates(b, r)
    ensures Replaces(o, k, r, b) <==> Merge(o, r, b).Ok?
  {
    ValidStates(o, k, b);
    MergedBatchFields(o, r, b);
    SameFieldsSameValidity(o, k, WithClaims(o, r, b), b);
  }

  /**
   * What a caller can check before it saves a batch whose merge with each old file keeps both
   * limits: the old files keep their leaves if and only if they list the same ones, all of them
   * leaves of the batch.
   */
  lemma OldLeavesStayForBatch(o: Oracles, files: map<string, Content>, k: string, b: Fields) returns (c: Clash)
    requires Valid(o, k, b)
    requires forall g | Spelled(files, k, g) :: Restates(b, files[g].fields) && Merge(o, files[g].fields, b).Ok?
    ensures Witnessed(o, c)
    ensures c.SameBatch? ==>
      (OldLeavesStay(o, files, k) <==>
        OldLeavesAgree(files, k) && forall g | Spelled(files, k, g) :: ListsAll(b, files[g].fields))
  {
    c := OldLeavesStayExactly(o, files, k, b);
    forall g | Spelled(files, k, g)
      ensures BatchListsAll(o, k, files[g].fields, b) <==> ListsAll(b, files[g].fields)
    {
      RestatedReplaces(o, k, files[g].fields, b);
    }
  }

  ghost predicate Wrote(log: set<Entry>, k: string) { exists e :: e in log && e.id == k }

  ghost predicate InOldFile(files: map<string, Content>, row: IndexRow) {
    exists f :: Spelled(files, row.id, f) && row.leaf in LeafSet(files[f].fields)
  }

  ghost predicate InLog(log: set<Entry>, row: IndexRow) {
    exists e :: e in log && e.id == row.id && row.leaf in LeafSet(e.fields)
  }

  predicate Found(s: Store, k: string) { Read(s.files, s.mapped, k).Loaded? }

  ghost predicate RowKnown(files: map<string, Content>, log: set<Entry>, row: IndexRow) {
    if Wrote(log, row.id) then InLog(log, row) else InOldFile(files, row)
  }

  /** The rows of an id come from its old files and show a record or, once it was saved, from its saves. */
  ghost predicate RowsKnown(files: map<string, Content>, w: World, k: string) {
    && (forall row | row in w.store.index && row.id == k :: RowKnown(files, w.log, row))
    && (!Wrote(w.log, k) && Indexes(w.store, k) ==> Found(w.store, k))
  }

  /** Until an id is saved its files are as they were. */
  lemma SpelledAsBefore(o: Oracles, old_: map<string, Content>, w: World, k: string, f: string)
    requires Sound(o, old_, w) && IsLowerHex64(k) && !Wrote(w.log, k) && Spelled(w.store.files, k, f)
    ensures Spelled(old_, k, f) && old_[f] == w.store.files[f]
  {
    assert FileSound(o, old_, w.log, f, w.store.files[f]);
    assert Entry(f, w.store.files[f].fields) !in w.log || f != k;
  }

  lemma SavedIsLogged(o: Oracles, old_: map<string, Content>, w: World, k: string) returns (r: Fields)
    requires Sound(o, old_, w) && Wrote(w.log, k)
    ensures k in w.store.files && w.store.files[k].Record? && r == w.store.files[k].fields
    ensures Entry(k, r) in w.log && Fits(o, Entry(k, r)) && Read(w.store.files, w.store.mapped, k) == Loaded(r)
  {
    var e :| e in w.log && e.id == k;
    assert EntrySound(o, w.log, w.store.files, e);
    r := w.store.files[k].fields;
    assert EntrySound(o, w.log, w.store.files, Entry(k, r));
    LoggedFileReads(o, w.store, k);
  }

  /** The first save of an id that has an old file readers find lists every leaf of that file. */
  lemma FirstSaveListsAll(o: Oracles, w: World, e: Event, r: Fields)
    requires Fine(w.store) && e.Save? && Read(w.store.files, w.store.mapped, Canonical(e.anchorId)) == Loaded(r)
    requires forall m :: SaveListsAll(o, Canonical(e.anchorId), r, m)
    ensures Writes(o, w, e) ==> ListsAll(EntryOf(o, w, e).fields, r)
  {
    EntryFits(o, w, e);
    SavesReadTheRecord(o, w, e, r);
    if Writes(o, w, e) { assert SaveListsAll(o, Canonical(e.anchorId), r, e.metadata.fields); }
  }

  /** Readers of an indexed id not yet saved find an old file that lists every leaf indexed for it. */
  lemma OldRowIsRead(o: Oracles, old_: map<string, Content>, w: World, row: IndexRow) returns (g: string)
    requires Fine(w.store) && Sound(o, old_, w) && IsLowerHex64(row.id) && row in w.store.index
    requires OldLeavesStay(o, old_, row.id) && !Wrote(w.log, row.id) && RowsKnown(old_, w, row.id)
    ensures Spelled(old_, row.id, g) && Read(w.store.files, w.store.mapped, row.id) == Loaded(old_[g].fields)
    ensures row.leaf in LeafSet(old_[g].fields)
  {
    assert Indexes(w.store, row.id);
    g := ReadIsSpelled(w.store, row.id);
    SpelledAsBefore(o, old_, w, row.id, g);
    var f :| Spelled(old_, row.id, f) && row.leaf in LeafSet(old_[f].fields);
    assert ListsAll(old_[g].fields, old_[f].fields);
  }

  lemma WrittenRows(o: Oracles, s: Store, key: string, merged: Fields, crash: Crash, row: IndexRow)
    requires row in Written(o, s, key, merged, crash).index
    ensures row in s.index || (row.id == key && row.leaf in LeafSet(merged))
  {
  }

  lemma LoggedRowStays(log: set<Entry>, x: Entry, row: IndexRow)
    requires InLog(log, row)
    ensures InLog(log + {x}, row) && Wrote(log + {x}, row.id)
  {
    var y :| y in log && y.id == row.id && row.leaf in LeafSet(y.fields);
    assert y in log + {x};
  }

  /** The record written lists every leaf indexed for its id before its first save. */
  ghost predicate ListsIndexed(w: World, x: Entry) {
    Wrote(w.log, x.id) || forall row | row in w.store.index && row.id == x.id :: row.leaf in LeafSet(x.fields)
  }

  lemma FirstSaveListsIndexed(o: Oracles, old_: map<string, Content>, w: World, e: Event)
    requires Fine(w.store) && Sound(o, old_, w) && e.Save? && IsLowerHex64(Canonical(e.anchorId))
    requires OldLeavesStay(o, old_, Canonical(e.anchorId)) && RowsKnown(old_, w, Canonical(e.anchorId))
    ensures Writes(o, w, e) ==> ListsIndexed(w, EntryOf(o, w, e))
  {
    var k := Canonical(e.anchorId);
    if Writes(o, w, e) && !Wrote(w.log, k) {
      forall row | row in w.store.index && row.id == k ensures row.leaf in LeafSet(EntryOf(o, w, e).fields) {
        var g := OldRowIsRead(o, old_, w, row);
        FirstSaveListsAll(o, w, e, old_[g].fields);
      }
    }
  }

  lemma SavedRowKnown(old_: map<string, Content>, w: World, x: Entry, row: IndexRow)
    requires RowKnown(old_, w.log, row) && row in w.store.index && (x.id == row.id ==> ListsIndexed(w, x))
    ensures RowKnown(old_, w.log + {x}, row)
  {
    if Wrote(w.log, row.id) {
      LoggedRowStays(w.log, x, row);
    } else if x.id == row.id {
      assert x in w.log + {x};
    }
  }

  lemma UnsavedIndexes(o: Oracles, w: World, x: Entry, crash: Crash, k: string)
    requires !Wrote(w.log + {x}, k) && Indexes(Written(o, w.store, x.id, x.fields, crash), k)
    ensures !Wrote(w.log, k) && Indexes(w.store, k)
  {
    assert x in w.log + {x};
    var row :| row in Written(o, w.store, x.id, x.fields, crash).index && row.id == k;
    WrittenRows(o, w.store, x.id, x.fields, crash, row);
    assert w.log <= w.log + {x};
  }

  lemma WriteKeepsRows(o: Oracles, old_: map<string, Content>, w: World, x: Entry, crash: Crash, k: string)
    requires Fine(w.store) && IsLowerHex64(x.id) && o.size(x.fields) <= BATCH_BYTE_BUDGET && !crash.BeforeRename?
    requires IsLowerHex64(k) && RowsKnown(old_, w, k) && (x.id == k ==> ListsIndexed(w, x))
    ensures RowsKnown(old_, World(Written(o, w.store, x.id, x.fields, crash), w.listings, w.log + {x}), k)
  {
    var s := Written(o, w.store, x.id, x.fields, crash);
    forall row | row in s.index && row.id == k ensures RowKnown(old_, w.log + {x}, row) {
      WrittenRows(o, w.store, x.id, x.fields, crash, row);
      if row in w.store.index { SavedRowKnown(old_, w, x, row); } else { assert x in w.log + {x}; }
    }
    if !Wrote(w.log + {x}, k) && Indexes(s, k) {
      UnsavedIndexes(o, w, x, crash, k);
      WrittenReads(o, w.store, x.id, x.fields, crash, k);
    }
  }

  lemma SaveKeepsRows(o: Oracles, old_: map<string, Content>, w: World, e: Event, k: string)
    requires Fine(w.store) && Sound(o, old_, w) && e.Save? && IsLowerHex64(k)
    requires OldLeavesStay(o, old_, k) && RowsKnown(old_, w, k)
    ensures RowsKnown(old_, Next(o, w, e), k)
  {
    if Writes(o, w, e) {
      var x := EntryOf(o, w, e);
      EntryFits(o, w, e);
      if x.id == k { FirstSaveListsIndexed(o, old_, w, e); }
      WriteKeepsRows(o, old_, w, x, e.crash, k);
      assert Next(o, w, e) == World(Written(o, w.store, x.id, x.fields, e.crash), w.listings, w.log + {x});
    }
  }

  /** A backfill finds a record for every id it puts rows in for. */
  lemma {:induction false} BackfillFinds(s: Store, listing: seq<string>, n: nat, k: string)
    requires n <= |listing| && IsLowerHex64(k) && (Indexes(s, k) ==> Found(s, k))
    ensures Indexes(Backfilled(s, listing, n), k) ==> Found(Backfilled(s, listing, n), k)
  {
    if n > 0 {
      var t, stem := Backfilled(s, listing, n - 1), listing[n - 1];
      BackfillFinds(s, listing, n - 1, k);
      if BackfilledOne(t, listing, stem) != t {
        IndexedReads(t, Lower(stem), stem, Read(t.files, map[], stem).fields, k);
        if Indexes(BackfilledOne(t, listing, stem), k) && k != Lower(stem) {
          var row :| row in BackfilledOne(t, listing, stem).index && row.id == k;
          assert row in t.index;
        }
      }
    }
  }

  lemma BackfillKeepsRows(o: Oracles, old_: map<string, Content>, w: World, p: nat, k: string)
    requires Sound(o, old_, w) && p in w.listings && IsLowerHex64(k) && RowsKnown(old_, w, k)
    ensures RowsKnown(old_, Next(o, w, IndexListed(p)), k)
  {
    var listing, t := w.listings[p], Next(o, w, IndexListed(p));
    forall row | row in t.store.index && row.id == k
      ensures RowKnown(old_, t.log, row)
    {
      if row !in w.store.index {
        BackfillRows(w.store, listing, |listing|, row);
        var f :| Spelled(w.store.files, k, f) && row.leaf in LeafSet(w.store.files[f].fields);
        if Wrote(w.log, k) {
          var r := SavedIsLogged(o, old_, w, k);
          assert Entry(k, r) in t.log;
        } else {
          SpelledAsBefore(o, old_, w, k, f);
        }
      }
    }
    if !Wrote(w.log, k) { BackfillFinds(w.store, listing, |listing|, k); }
  }

  lemma StepKeepsRows(o: Oracles, old_: map<string, Content>, w: World, e: Event, k: string)
    requires Fine(w.store) && Sound(o, old_, w) && Possible(w, e) && IsLowerHex64(k)
    requires OldLeavesStay(o, old_, k) && RowsKnown(old_, w, k)
    ensures RowsKnown(old_, Next(o, w, e), k)
  {
    match e
    case Save(_, _, _) => SaveKeepsRows(o, old_, w, e, k);
    case ListFiles(_, _) =>
    case IndexListed(p) => BackfillKeepsRows(o, old_, w, p, k);
    case SaveClaim(id, value) => ClaimKeeps(o, w.store, id, value);
  }

  lemma {:induction false} RunKeepsRows(o: Oracles, old_: map<string, Content>, w: World, es: seq<Event>, k: string)
    requires Fine(w.store) && Sound(o, old_, w) && CanRun(o, w, es) && IsLowerHex64(k)
    requires OldLeavesStay(o, old_, k) && RowsKnown(old_, w, k)
    ensures RowsKnown(old_, After(o, w, es), k)
    decreases |es|
  {
    if es != [] {
      var init := es[..|es| - 1];
      RunKeepsRows(o, old_, w, init, k);
      RunKeeps(o, w, init, k);
      RunKeepsSound(o, old_, w, init);
      StepKeepsRows(o, old_, After(o, w, init), es[|es| - 1], k);
    }
  }

  /** The leaf is a leaf of the record read under the id. */
  predicate LeafRead(s: Store, leaf: string, k: string) {
    Found(s, k) && leaf in LeafSet(Read(s.files, s.mapped, k).fields)
  }

  lemma KnownRowIsRead(o: Oracles, old_: map<string, Content>, w: World, row: IndexRow) returns (c: Clash)
    requires Fine(w.store) && Sound(o, old_, w) && IsLowerHex64(row.id)
    requires OldLeavesStay(o, old_, row.id) && RowsKnown(old_, w, row.id) && row in w.store.index
    ensures Witnessed(o, c) && Found(w.store, row.id)
    ensures c.SameBatch? ==> LeafRead(w.store, row.leaf, row.id)
  {
    var k := row.id;
    c := SameBatch;
    if Wrote(w.log, k) {
      var r := SavedIsLogged(o, old_, w, k);
      var e :| e in w.log && e.id == k && row.leaf in LeafSet(e.fields);
      assert EntrySound(o, w.log, w.store.files, e);
      c := SameLeaves(o, k, e.fields, r);
    } else {
      var g := OldRowIsRead(o, old_, w, row);
    }
  }

  /** The rows a store starts with are those of its old files. */
  ghost predicate OldRowsKnown(s: Store, k: string) {
    && (forall row | row in s.index && row.id == k :: InOldFile(s.files, row))
    && (Indexes(s, k) ==> Found(s, k))
  }

  /**
   * In every run from a store whose old files keep their leaves, an indexed leaf is a leaf of
   * the record read under its id, or two hash inputs that collide are found.
   */
  lemma {:induction false} IndexedLeafIsInFile(o: Oracles, w: World, es: seq<Event>, row: IndexRow) returns (c: Clash)
    requires Starts(w) && OldRowsKnown(w.store, row.id) && OldLeavesStay(o, w.store.files, row.id)
    requires CanRun(o, w, es) && row in After(o, w, es).store.index
    ensures Witnessed(o, c)
    ensures c.SameBatch? ==> LeafRead(After(o, w, es).store, row.leaf, row.id)
  {
    IndexedIdIsCanonical(o, w, es, row);
    StartIsSound(o, w);
    RunKeeps(o, w, es, row.id);
    RunKeepsSound(o, w.store.files, w, es);
    RunKeepsRows(o, w.store.files, w, es, row.id);
    c := KnownRowIsRead(o, w.store.files, After(o, w, es), row);
  }

  lemma IndexedIdIsCanonical(o: Oracles, w: World, es: seq<Event>, row: IndexRow)
    requires Fine(w.store) && CanRun(o, w, es) && row in After(o, w, es).store.index
    ensures IsLowerHex64(row.id)
  {
    RunKeeps(o, w, es, seq(64, i => '0'));
    assert HasFile(After(o, w, es).store.files, row.id);
  }

  // ------------------------------------------------------------ and only then

  predicate Stray(s: Store, leaf: string, k: string) { IndexRow(leaf, k) in s.index && !LeafRead(s, leaf, k) }

  /** Two old files of one id with different leaves: the leaf of one stays indexed while the other is read. */
  lemma SpellingsStray(o: Oracles, w: World, k: string, f: string, g: string, leaf: string) returns (es: seq<Event>)
    requires Fine(w.store) && Spelled(w.store.files, k, f) && Spelled(w.store.files, k, g)
    requires leaf in LeafSet(w.store.files[f].fields) && leaf !in LeafSet(w.store.files[g].fields)
    ensures CanRun(o, w, es) && Stray(After(o, w, es).store, leaf, k)
  {
    var names := EveryFileListed(w, g);
    es := [ListFiles(0, names), IndexListed(0)];
    TwoSteps(o, w, es[0], es[1]);
    LastListedIsRead(w.store, names, k, g);
    assert names[..|names|] == names;
    OldFilesAreIndexed(w.store, names, |names|, f);
    assert IndexRow(leaf, k) in Rows(LeafSet(w.store.files[f].fields), k);
  }

  lemma SaveOver(o: Oracles, w: World, k: string, r: Fields, metadata: Fields)
    requires Fine(w.store) && IsLowerHex64(k) && Read(w.store.files, w.store.mapped, k) == Loaded(r)
    ensures var t := Next(o, w, Save(k, Obj(metadata), Completes)).store;
      && w.store.index <= t.index
      && (Replaces(o, k, r, metadata) ==> Read(t.files, t.mapped, k) == Loaded(Merge(o, r, metadata).value))
  {
    if Replaces(o, k, r, metadata) {
      HexHasNoPrefix(k);
      MergedOver(o, w.store, k, r, metadata);
      MergedFits(o, w.store, k, Obj(metadata));
      WrittenReads(o, w.store, k, Merge(o, r, metadata).value, Completes, k);
    }
  }

  /** A save over an old file that drops one of its leaves: the leaf stays indexed. */
  lemma OverwriteStrays(o: Oracles, w: World, k: string, g: string, metadata: Fields, leaf: string)
    returns (es: seq<Event>)
    requires Fine(w.store) && Spelled(w.store.files, k, g) && leaf in LeafSet(w.store.files[g].fields)
    ensures CanRun(o, w, es)
    ensures Replaces(o, k, w.store.files[g].fields, metadata)
            && leaf !in LeafSet(Merge(o, w.store.files[g].fields, metadata).value) ==>
      Stray(After(o, w, es).store, leaf, k)
  {
    var names := EveryFileListed(w, g);
    es := [ListFiles(0, names), IndexListed(0), Save(k, Obj(metadata), Completes)];
    ThreeSteps(o, w, es[0], es[1], es[2]);
    LastListedIsRead(w.store, names, k, g);
    HexHasNoPrefix(g);
    BackfillKeeps(w.store, names, |names|, k);
    SaveOver(o, Next(o, Next(o, w, es[0]), es[1]), k, w.store.files[g].fields, metadata);
    assert IndexRow(leaf, k) in Rows(LeafSet(w.store.files[g].fields), k);
  }

  /** Where the old files do not keep their leaves, some run leaves a leaf indexed that the file does not list. */
  lemma LeavesStray(o: Oracles, w: World, k: string) returns (es: seq<Event>, leaf: string)
    requires Starts(w) && IsLowerHex64(k) && !OldLeavesStay(o, w.store.files, k)
    ensures CanRun(o, w, es) && Stray(After(o, w, es).store, leaf, k)
  {
    var files := w.store.files;
    if f, g :| Spelled(files, k, f) && Spelled(files, k, g) && !ListsAll(files[g].fields, files[f].fields) {
      leaf :| leaf in LeafSet(files[f].fields) && leaf !in LeafSet(files[g].fields);
      es := SpellingsStray(o, w, k, f, g, leaf);
    } else {
      var g, m :| Spelled(files, k, g) && !SaveListsAll(o, k, files[g].fields, m);
      leaf :| leaf in LeafSet(files[g].fields) && leaf !in LeafSet(Merge(o, files[g].fields, m).value);
      es := OverwriteStrays(o, w, k, g, m, leaf);
    }
  }

  /** The index lists exactly the leaves of the record read under the id. */
  ghost predicate Exact(s: Store, k: string) {
    forall leaf :: IndexRow(leaf, k) in s.index <==> LeafRead(s, leaf, k)
  }

  lemma CoveredLeaves(s: Store, k: string)
    ensures Covered(s, k) <==> forall leaf :: LeafRead(s, leaf, k) ==> IndexRow(leaf, k) in s.index
  {
    var r := Read(s.files, s.mapped, k);
    if r.Loaded? {
      var rows := Rows(LeafSet(r.fields), k);
      assert forall leaf :: IndexRow(leaf, k) in rows <==> LeafRead(s, leaf, k);
      assert forall row | row in rows :: row == IndexRow(row.leaf, k);
    }
  }

  lemma NoneStrays(o: Oracles, old_: map<string, Content>, w: World, k: string) returns (c: Clash)
    requires Fine(w.store) && Sound(o, old_, w) && IsLowerHex64(k)
    requires OldLeavesStay(o, old_, k) && RowsKnown(old_, w, k)
    ensures Witnessed(o, c)
    ensures c.SameBatch? ==> forall leaf :: !Stray(w.store, leaf, k)
  {
    c := SameBatch;
    if leaf :| Stray(w.store, leaf, k) {
      c := KnownRowIsRead(o, old_, w, IndexRow(leaf, k));
    }
  }

  lemma ExactIfCovered(s: Store, k: string)
    requires forall leaf :: !Stray(s, leaf, k)
    ensures Exact(s, k) <==> Covered(s, k)
  {
    CoveredLeaves(s, k);
    assert forall leaf :: IndexRow(leaf, k) in s.index ==> Stray(s, leaf, k) || LeafRead(s, leaf, k);
  }

  /**
   * From any store whose old files keep their leaves: after a run, a listing, any steps of
   * other processes and the indexing of the listing, the index lists exactly the leaves of the
   * record read under `k`, if and only if the batch was not missed. The one way out is a pair
   * of hash inputs that collide.
   */
  lemma {:induction false} IndexIsExact(
      o: Oracles, w: World, es: seq<Event>, p: nat, names: seq<string>, between: seq<Event>, k: string)
    returns (c: Clash)
    requires Starts(w) && IsLowerHex64(k) && OldRowsKnown(w.store, k) && OldLeavesStay(o, w.store.files, k)
    requires CanRun(o, w, es) && Possible(After(o, w, es), ListFiles(p, names))
    requires CanRun(o, Next(o, After(o, w, es), ListFiles(p, names)), between) && !Lists(between, p)
    ensures Possible(After(o, Next(o, After(o, w, es), ListFiles(p, names)), between), IndexListed(p))
    ensures Witnessed(o, c)
    ensures var listed := Next(o, After(o, w, es), ListFiles(p, names));
      var after := Next(o, After(o, listed, between), IndexListed(p)).store;
      c.SameBatch? ==>
        (Exact(after, k) <==> Spells(names, k) || !TornIn(o, listed, between, k) || MendedIn(o, listed, between, k))
  {
    var old_, listing := w.store.files, ListFiles(p, names);
    StartIsSound(o, w);
    RunKeeps(o, w, es, k);
    RunKeepsSound(o, old_, w, es);
    RunKeepsRows(o, old_, w, es, k);
    c := BackfillCoversExactly(o, old_, After(o, w, es), p, names, between, k);
    if c.SameBatch? {
      c := ExactAfterBackfill(o, old_, After(o, w, es), p, names, between, k);
    }
  }

  lemma ExactAfterBackfill(
      o: Oracles, old_: map<string, Content>, w: World, p: nat, names: seq<string>, between: seq<Event>, k: string)
    returns (c: Clash)
    requires Fine(w.store) && Sound(o, old_, w) && IsLowerHex64(k) && Possible(w, ListFiles(p, names))
    requires OldLeavesStay(o, old_, k) && RowsKnown(old_, w, k)
    requires CanRun(o, Next(o, w, ListFiles(p, names)), between)
    requires Possible(After(o, Next(o, w, ListFiles(p, names)), between), IndexListed(p))
    ensures Witnessed(o, c)
    ensures var after := Next(o, After(o, Next(o, w, ListFiles(p, names)), between), IndexListed(p)).store;
      c.SameBatch? ==> (Exact(after, k) <==> Covered(after, k))
  {
    var listed := Next(o, w, ListFiles(p, names));
    var before := After(o, listed, between);
    StepKeepsSound(o, old_, w, ListFiles(p, names));
    RunKeeps(o, listed, between, k);
    RunKeepsSound(o, old_, listed, between);
    RunKeepsRows(o, old_, listed, between, k);
    StepKeeps(o, before, IndexListed(p), k);
    StepKeepsSound(o, old_, before, IndexListed(p));
    StepKeepsRows(o, old_, before, IndexListed(p), k);
    var after := Next(o, before, IndexListed(p));
    c := NoneStrays(o, old_, after, k);
    if c.SameBatch? { ExactIfCovered(after.store, k); }
  }
}
