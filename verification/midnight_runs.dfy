/** Saves into the Midnight proof store, reads of one object, and what every run of saves keeps. */
module MidnightRuns {
  import opened Common
  import opened Hex
  import opened MidnightStore

  // ------------------------------------------------------------ a save

  datatype Refusal = BadScope | Invalid | Conflict

  function LeafRows(k: ObjectKey, a: About): set<LeafRow> {
    set leaf | leaf in a.subjects :: LeafRow(k.network, a.genesis, leaf, k.digest)
  }

  function CandidateRows(k: ObjectKey, a: About): set<CandidateRow> {
    set subject | subject in a.subjects :: CandidateRow(k.network, k.kind, a.genesis, a.registry, subject, k.digest)
  }

  /** The store with an object and its index rows; rows already there stay as they are. */
  function Inserted(s: Store, k: ObjectKey, body: string, a: About): Store {
    var objects := s.objects[k := body];
    if k.kind.Members? then s.(objects := objects, leaves := (map r | r in LeafRows(k, a) :: a.anchorId) + s.leaves)
    else s.(objects := objects, candidates := s.candidates + CandidateRows(k, a))
  }

  function Saved(sdk: Sdk, s: Store, k: ObjectKey, body: string): Result<Store, Refusal> {
    if !IsNetwork(k.network) || !IsLowerHex64(k.digest) then Err(BadScope)
    else
      var about := CheckedWith(sdk, s.objects, k, body, true);
      if about.None? then Err(Invalid)
      else if k in s.objects && s.objects[k] != body then Err(Conflict)
      else Ok(Inserted(s, k, body, about.value))
  }

  class ProofStore {
    var objects: map<ObjectKey, string>
    var leaves: map<LeafRow, string>
    var candidates: set<CandidateRow>

    constructor ()
      ensures State() == EMPTY
    {
      objects, leaves, candidates := map[], map[], {};
    }

    ghost function State(): Store
      reads this
    {
      Store(objects, leaves, candidates)
    }

    method IndexLeaves(k: ObjectKey, a: About)
      modifies this`leaves
      ensures leaves == (map r | r in LeafRows(k, a) :: a.anchorId) + old(leaves)
    {
      var i := 0;
      while i < |a.subjects|
        invariant 0 <= i <= |a.subjects|
        invariant leaves == (map r | r in LeafRows(k, a.(subjects := a.subjects[..i])) :: a.anchorId) + old(leaves)
      {
        var row := LeafRow(k.network, a.genesis, a.subjects[i], k.digest);
        if row !in leaves {
          leaves := leaves[row := a.anchorId];
        }
        assert a.subjects[..i + 1] == a.subjects[..i] + [a.subjects[i]];
        i := i + 1;
      }
      assert a.(subjects := a.subjects[..i]) == a;
    }

    method IndexCandidates(k: ObjectKey, a: About)
      modifies this`candidates
      ensures candidates == old(candidates) + CandidateRows(k, a)
    {
      var i := 0;
      while i < |a.subjects|
        invariant 0 <= i <= |a.subjects|
        invariant candidates == old(candidates) + CandidateRows(k, a.(subjects := a.subjects[..i]))
      {
        candidates := candidates + {CandidateRow(k.network, k.kind, a.genesis, a.registry, a.subjects[i], k.digest)};
        assert a.subjects[..i + 1] == a.subjects[..i] + [a.subjects[i]];
        i := i + 1;
      }
      assert a.(subjects := a.subjects[..i]) == a;
    }

    /** `saveMidnightObject`, one transaction. */
    method SaveObject(sdk: Sdk, k: ObjectKey, body: string) returns (r: Result<(), Refusal>)
      modifies this
      ensures r.Ok? <==> Saved(sdk, old(State()), k, body).Ok?
      ensures r.Err? ==> Saved(sdk, old(State()), k, body) == Err(r.error)
      ensures State() == if r.Ok? then Saved(sdk, old(State()), k, body).value else old(State())
    {
      if !IsNetwork(k.network) || !IsLowerHex64(k.digest) {
        return Err(BadScope);
      }
      var about := CheckedObject(sdk, objects, k, body, true);
      if about.None? {
        return Err(Invalid);
      }
      if k in objects && objects[k] != body {
        return Err(Conflict);
      }
      objects := objects[k := body];
      if k.kind.Members? {
        IndexLeaves(k, about.value);
      } else {
        IndexCandidates(k, about.value);
      }
      r := Ok(());
    }

    /** `getMidnightObject`: the body, or an error when what is stored does not check. */
    method GetObject(sdk: Sdk, k: ObjectKey) returns (r: Result<Option<string>, Refusal>)
      ensures r.Ok? && r.value.None? ==> IsNetwork(k.network) && IsLowerHex64(k.digest) && k !in objects
      ensures r.Ok? && r.value.Some? ==>
        k in objects && r.value.value == objects[k] && Checked(sdk, k, objects[k]).Some?
      ensures r.Err? ==>
        !(IsNetwork(k.network) && IsLowerHex64(k.digest)) || (k in objects && Checked(sdk, k, objects[k]).None?)
    {
      if !IsNetwork(k.network) || !IsLowerHex64(k.digest) {
        return Err(BadScope);
      }
      if k !in objects {
        return Ok(None);
      }
      var about := CheckedObject(sdk, objects, k, objects[k], false);
      r := if about.Some? then Ok(Some(objects[k])) else Err(Invalid);
    }
  }

  // ------------------------------------------------------------ what every save keeps

  ghost predicate ObjectSound(sdk: Sdk, objects: map<ObjectKey, string>, k: ObjectKey)
    requires k in objects
  {
    && IsNetwork(k.network) && IsLowerHex64(k.digest)
    && Checked(sdk, k, objects[k]).Some?
    && (k.kind.Plans? ==> PlanRefersWell(sdk, objects, k.network, objects[k]))
  }

  /** A stored object is about this subject. */
  predicate IsAbout(sdk: Sdk, objects: map<ObjectKey, string>, k: ObjectKey, genesis: string, subject: string) {
    && k in objects && Checked(sdk, k, objects[k]).Some?
    && Checked(sdk, k, objects[k]).value.genesis == genesis
    && subject in Checked(sdk, k, objects[k]).value.subjects
  }

  predicate LeafIndexed(sdk: Sdk, s: Store, row: LeafRow) {
    IsAbout(sdk, s.objects, ObjectKey(row.network, Members, row.digest), row.genesis, row.leaf)
  }

  predicate CandidateIndexed(sdk: Sdk, s: Store, row: CandidateRow) {
    var k := ObjectKey(row.network, row.kind, row.digest);
    !row.kind.Members? && IsAbout(sdk, s.objects, k, row.genesis, row.subject)
       && Checked(sdk, k, s.objects[k]).value.registry == row.registry
  }

  ghost predicate ObjectsSound(sdk: Sdk, s: Store) { forall k | k in s.objects :: ObjectSound(sdk, s.objects, k) }

  /** A leaf row carries the anchor id of its snapshot. */
  predicate NamesAnchor(sdk: Sdk, s: Store, row: LeafRow) {
    var k := ObjectKey(row.network, Members, row.digest);
    row in s.leaves && k in s.objects && Checked(sdk, k, s.objects[k]).Some?
       && s.leaves[row] == Checked(sdk, k, s.objects[k]).value.anchorId
  }

  /** An index row exists exactly when a stored object is about its subject. */
  ghost predicate LeavesExact(sdk: Sdk, s: Store) {
    && (forall row :: row in s.leaves <==> LeafIndexed(sdk, s, row))
    && (forall row | row in s.leaves :: NamesAnchor(sdk, s, row))
  }

  ghost predicate CandidatesExact(sdk: Sdk, s: Store) {
    forall row :: row in s.candidates <==> CandidateIndexed(sdk, s, row)
  }

  ghost predicate Sound(sdk: Sdk, s: Store) { ObjectsSound(sdk, s) && LeavesExact(sdk, s) && CandidatesExact(sdk, s) }

  /** Snapshots that were found are still found in a store that holds more. */
  lemma {:induction false} ReceiptsStay(read: SnapshotReader, later: SnapshotReader, entries: seq<Entry>, n: nat)
    requires n <= |entries| && (forall e | e in entries && read(e).Some? :: later(e) == read(e))
    requires Receipts(read, entries, n).Some?
    ensures Receipts(later, entries, n) == Receipts(read, entries, n)
  {
    if n > 0 {
      ReceiptsStay(read, later, entries, n - 1);
      assert entries[n - 1] in entries;
    }
  }

  ghost predicate Extends(more: map<ObjectKey, string>, objects: map<ObjectKey, string>) {
    forall k | k in objects :: k in more && more[k] == objects[k]
  }

  lemma SnapshotStays(sdk: Sdk, objects: map<ObjectKey, string>, more: map<ObjectKey, string>, network: string,
      p: Outline, e: Entry)
    requires Extends(more, objects) && ReadsSnapshots(sdk, objects, network, p)(e).Some?
    ensures ReadsSnapshots(sdk, more, network, p)(e) == ReadsSnapshots(sdk, objects, network, p)(e)
  {
  }

  lemma RefersWellStays(sdk: Sdk, objects: map<ObjectKey, string>, more: map<ObjectKey, string>, network: string,
      p: Outline, entries: seq<Entry>)
    requires Extends(more, objects) && RefersWell(ReadsSnapshots(sdk, objects, network, p), entries)
    ensures RefersWell(ReadsSnapshots(sdk, more, network, p), entries)
  {
    var read, later := ReadsSnapshots(sdk, objects, network, p), ReadsSnapshots(sdk, more, network, p);
    forall e | e in entries && read(e).Some? ensures later(e) == read(e) {
      SnapshotStays(sdk, objects, more, network, p, e);
    }
    ReceiptsStay(read, later, entries, |entries|);
  }

  lemma PlanStays(sdk: Sdk, objects: map<ObjectKey, string>, more: map<ObjectKey, string>, network: string,
      body: string)
    requires Extends(more, objects) && PlanRefersWell(sdk, objects, network, body)
    ensures PlanRefersWell(sdk, more, network, body)
  {
    var p := OutlineOf(sdk, network, body).value;
    RefersWellStays(sdk, objects, more, network, p, PlanEntries(sdk, p).value);
  }

  lemma ObjectStays(sdk: Sdk, objects: map<ObjectKey, string>, more: map<ObjectKey, string>, k: ObjectKey)
    requires Extends(more, objects) && k in objects && ObjectSound(sdk, objects, k)
    ensures ObjectSound(sdk, more, k)
  {
    if k.kind.Plans? { PlanStays(sdk, objects, more, k.network, objects[k]); }
  }

  lemma NewObjectSound(sdk: Sdk, s: Store, k: ObjectKey, body: string)
    requires Saved(sdk, s, k, body).Ok?
    ensures Extends(s.objects[k := body], s.objects)
    ensures ObjectSound(sdk, s.objects[k := body], k)
  {
    if k.kind.Plans? { PlanStays(sdk, s.objects, s.objects[k := body], k.network, body); }
  }

  lemma SaveKeepsObjects(sdk: Sdk, s: Store, k: ObjectKey, body: string)
    requires Saved(sdk, s, k, body).Ok? && ObjectsSound(sdk, s)
    ensures ObjectsSound(sdk, Saved(sdk, s, k, body).value)
    ensures Extends(Saved(sdk, s, k, body).value.objects, s.objects)
  {
    var more := s.objects[k := body];
    NewObjectSound(sdk, s, k, body);
    forall j | j in more && j != k ensures ObjectSound(sdk, more, j) {
      assert ObjectSound(sdk, s.objects, j);
      ObjectStays(sdk, s.objects, more, j);
    }
  }

  lemma InsertKeepsLeafRow(sdk: Sdk, s: Store, k: ObjectKey, body: string, a: About, row: LeafRow)
    requires row in s.leaves <==> LeafIndexed(sdk, s, row)
    requires Checked(sdk, k, body) == Some(a) && (k in s.objects ==> s.objects[k] == body)
    ensures row in Inserted(s, k, body, a).leaves <==> LeafIndexed(sdk, Inserted(s, k, body, a), row)
  {
    if ObjectKey(row.network, Members, row.digest) == k {
      assert row in LeafRows(k, a) <==> row.genesis == a.genesis && row.leaf in a.subjects;
    } else {
      assert row !in LeafRows(k, a) || !k.kind.Members?;
    }
  }

  lemma InsertKeepsLeaves(sdk: Sdk, s: Store, k: ObjectKey, body: string, a: About)
    requires LeavesExact(sdk, s) && Checked(sdk, k, body) == Some(a) && (k in s.objects ==> s.objects[k] == body)
    ensures LeavesExact(sdk, Inserted(s, k, body, a))
  {
    var t := Inserted(s, k, body, a);
    forall row ensures row in t.leaves <==> LeafIndexed(sdk, t, row) {
      InsertKeepsLeafRow(sdk, s, k, body, a, row);
    }
    forall row | row in t.leaves ensures NamesAnchor(sdk, t, row) {
      if row in s.leaves {
        assert NamesAnchor(sdk, s, row);
      }
    }
  }

  lemma InsertKeepsCandidates(sdk: Sdk, s: Store, k: ObjectKey, body: string, a: About)
    requires CandidatesExact(sdk, s) && Checked(sdk, k, body) == Some(a) && (k in s.objects ==> s.objects[k] == body)
    ensures CandidatesExact(sdk, Inserted(s, k, body, a))
  {
    var t := Inserted(s, k, body, a);
    forall row ensures row in t.candidates <==> CandidateIndexed(sdk, t, row) {
      assert row in s.candidates <==> CandidateIndexed(sdk, s, row);
      if ObjectKey(row.network, row.kind, row.digest) == k {
        assert row in CandidateRows(k, a) <==>
          row.genesis == a.genesis && row.registry == a.registry && row.subject in a.subjects;
      }
    }
  }

  lemma SaveKeepsSound(sdk: Sdk, s: Store, k: ObjectKey, body: string)
    requires Sound(sdk, s) && Saved(sdk, s, k, body).Ok?
    ensures Sound(sdk, Saved(sdk, s, k, body).value)
  {
    SaveKeepsObjects(sdk, s, k, body);
    var a := CheckedWith(sdk, s.objects, k, body, true).value;
    InsertKeepsLeaves(sdk, s, k, body, a);
    InsertKeepsCandidates(sdk, s, k, body, a);
  }

  // ------------------------------------------------------------ runs

  datatype Save = Save(key: ObjectKey, body: string)

  function After(sdk: Sdk, s: Store, saves: seq<Save>): Store {
    if saves == [] then s
    else
      var before, last := After(sdk, s, saves[..|saves| - 1]), saves[|saves| - 1];
      var saved := Saved(sdk, before, last.key, last.body);
      if saved.Ok? then saved.value else before
  }

  /** In every reachable store objects check, plans refer to their stored snapshots, and the indexes are exact. */
  lemma {:induction false} EveryStoreIsSound(sdk: Sdk, saves: seq<Save>)
    ensures Sound(sdk, After(sdk, EMPTY, saves))
  {
    if saves != [] {
      var before, last := After(sdk, EMPTY, saves[..|saves| - 1]), saves[|saves| - 1];
      EveryStoreIsSound(sdk, saves[..|saves| - 1]);
      if Saved(sdk, before, last.key, last.body).Ok? {
        SaveKeepsSound(sdk, before, last.key, last.body);
      }
    }
  }

  /** A read of a reachable store refuses nothing that is stored: it has a good scope and checks. */
  lemma StoredIsAnswered(sdk: Sdk, saves: seq<Save>, k: ObjectKey)
    requires k in After(sdk, EMPTY, saves).objects
    ensures (k.network == "mainnet" || k.network == "preprod") && IsLowerHex64(k.digest)
    ensures Checked(sdk, k, After(sdk, EMPTY, saves).objects[k]).Some?
  {
    EveryStoreIsSound(sdk, saves);
    assert ObjectSound(sdk, After(sdk, EMPTY, saves).objects, k);
  }

  /** The body of a key, once stored, is the body of that key ever after. */
  lemma {:induction false} BodiesNeverChange(sdk: Sdk, s: Store, saves: seq<Save>)
    ensures Extends(After(sdk, s, saves).objects, s.objects)
  {
    if saves != [] {
      BodiesNeverChange(sdk, s, saves[..|saves| - 1]);
    }
  }

  lemma {:induction false} EachSnapshotFound(read: SnapshotReader, entries: seq<Entry>, n: nat, i: nat)
    requires i < n <= |entries| && Receipts(read, entries, n).Some?
    ensures read(entries[i]).Some?
    ensures forall r | r in read(entries[i]).value.receipts :: r in Receipts(read, entries, n).value
  {
    if i < n - 1 { EachSnapshotFound(read, entries, n - 1, i); }
  }

  /** No receipt is in the snapshots of two entries. */
  lemma {:induction false} ReceiptsApart(read: SnapshotReader, entries: seq<Entry>, n: nat, i: nat, j: nat, r: string)
    requires i < j < n <= |entries| && Receipts(read, entries, n).Some? && NoRepeats(Receipts(read, entries, n).value)
    requires read(entries[i]).Some? && read(entries[j]).Some? && r in read(entries[i]).value.receipts
    ensures r !in read(entries[j]).value.receipts
  {
    var init, all, last := Receipts(read, entries, n - 1).value, Receipts(read, entries, n).value,
      read(entries[n - 1]).value.receipts;
    assert all == init + last;
    if j < n - 1 {
      assert NoRepeats(init) by { assert forall x | 0 <= x < |init| :: all[x] == init[x]; }
      ReceiptsApart(read, entries, n - 1, i, j, r);
    } else {
      EachSnapshotFound(read, entries, n - 1, i);
      var x :| 0 <= x < |init| && init[x] == r;
      forall y | 0 <= y < |last| ensures last[y] != r {
        assert all[x] == r && all[|init| + y] == last[y];
      }
    }
  }

  /** Every entry of a stored plan has its snapshot stored, with equal genesis, height, anchor, root and manifest. */
  lemma {:induction false} PlannedSnapshotsAreStored(sdk: Sdk, saves: seq<Save>, k: ObjectKey, i: nat)
    returns (p: Outline, entries: seq<Entry>, s: Snapshot)
    requires k in After(sdk, EMPTY, saves).objects && k.kind.Plans?
    requires var body := After(sdk, EMPTY, saves).objects[k];
      OutlineOf(sdk, k.network, body).Some? ==> i < |OutlineOf(sdk, k.network, body).value.batches|
    ensures var objects := After(sdk, EMPTY, saves).objects;
      && OutlineOf(sdk, k.network, objects[k]) == Some(p) && PlanEntries(sdk, p) == Some(entries) && i < |entries|
      && ObjectKey(k.network, Members, entries[i].sha256) in objects
      && sdk.snapshot(objects[ObjectKey(k.network, Members, entries[i].sha256)]) == Some(s)
    ensures s.genesis == p.genesis && s.finalizedHeight == p.height && s.anchorId == entries[i].id
    ensures s.rootHash == entries[i].root && s.manifestHash == entries[i].manifest
    ensures forall j, r | 0 <= j < |entries| && j != i && r in s.receipts ::
      var other := SnapshotFor(sdk, After(sdk, EMPTY, saves).objects, k.network, p, entries[j]);
      other.Some? && r !in other.value.receipts
  {
    EveryStoreIsSound(sdk, saves);
    var objects := After(sdk, EMPTY, saves).objects;
    assert ObjectSound(sdk, objects, k);
    p := OutlineOf(sdk, k.network, objects[k]).value;
    entries := PlanEntries(sdk, p).value;
    var read := ReadsSnapshots(sdk, objects, k.network, p);
    EachSnapshotFound(read, entries, |entries|, i);
    s := read(entries[i]).value;
    forall j, r | 0 <= j < |entries| && j != i && r in s.receipts
      ensures read(entries[j]).Some? && r !in read(entries[j]).value.receipts
    {
      EachSnapshotFound(read, entries, |entries|, j);
      if i < j {
        ReceiptsApart(read, entries, |entries|, i, j, r);
      } else if r in read(entries[j]).value.receipts {
        ReceiptsApart(read, entries, |entries|, j, i, r);
      }
    }
  }
}
