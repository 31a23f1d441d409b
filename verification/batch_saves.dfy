/**
 * What one call changes in the batch store of src/storage.ts, said of files, rows and claims:
 * which file answers for an id, when a save is refused, and what a claim adds.
 */
module BatchSaves {
  import opened BatchRecord
  import opened BatchRuns
  import opened BatchStore
  import opened Common
  import opened Hex
  import opened Json
  import BatchAccepts
  import BatchMerge

  // ------------------------------------------------------------ the file of an id

  /** The name that answers for an id: its canonical file, else the old one in the table, else the id itself. */
  function NameFor(files: map<string, Content>, mapped: map<string, string>, id: string): string {
    var k := Lower(Strip0x(id));
    if k in files then k else if k in mapped then mapped[k] else Strip0x(id)
  }

  /** A file that is there and cannot be used: no read of it succeeds, or it is over 2,097,152 bytes. */
  predicate Unusable(c: Content) { c.Unreadable? || (c.Record? && 2_097_152 < c.bytes) }

  lemma ReadExactly(files: map<string, Content>, mapped: map<string, string>, id: string)
    ensures var f, r := NameFor(files, mapped, id), Read(files, mapped, id);
      && (r.Failed? <==> f in files && Unusable(files[f]))
      && (r.Loaded? <==> f in files && files[f].Record? && files[f].bytes <= 2_097_152)
      && (r.Loaded? ==> r.fields == files[f].fields)
  {
  }

  /** The leaves that are indexed of a record: those some entry of its list is the text of. */
  lemma LeavesIndexedExactly(r: Fields, leaf: string)
    ensures leaf in LeafSet(r) <==>
      Field(r, "leafHashes").Arr? && exists v :: v in Field(r, "leafHashes").items && BatchAccepts.Writes(v, leaf)
  {
    if Field(r, "leafHashes").Arr? {
      NamedExactly(Field(r, "leafHashes").items, leaf);
    }
  }

  lemma {:induction false} NamedExactly(items: seq<Json>, leaf: string)
    ensures leaf in LeavesNamed(items) <==> exists v :: v in items && BatchAccepts.Writes(v, leaf)
  {
    if items != [] {
      var init, last := items[..|items| - 1], items[|items| - 1];
      NamedExactly(init, leaf);
      LeafNamedExactly(last, leaf);
      assert items == init + [last];
    }
  }

  lemma LeafNamedExactly(v: Json, leaf: string)
    ensures LeafNamed(v) == Some(leaf) <==> BatchAccepts.Writes(v, leaf)
  {
    BatchAccepts.HashExactly(v, leaf);
    if v.Str? {
      BatchAccepts.LowerKeepsHex(Strip0x(v.s));
    }
  }

  // ------------------------------------------------------------ a save

  /** What the record of an id holds before a save. */
  function Earlier(s: Store, id: string): Fields {
    var f := NameFor(s.files, s.mapped, id);
    if f in s.files && s.files[f].Record? then s.files[f].fields else map[]
  }

  /** The id has a file that can be used, or none. */
  predicate Usable(s: Store, id: string) {
    var f := NameFor(s.files, s.mapped, id);
    f in s.files ==> !Unusable(s.files[f])
  }

  lemma EarlierExactly(s: Store, id: string)
    ensures var r := Read(s.files, s.mapped, id);
      (r.Failed? <==> !Usable(s, id)) && (Usable(s, id) ==> Earlier(s, id) == if r.Loaded? then r.fields else map[])
  {
    ReadExactly(s.files, s.mapped, id);
  }

  /** The records together claim at most 32 transactions and fit in 2,097,152 bytes. */
  predicate WithinLimits(o: Oracles, earlier: Fields, incoming: Fields) {
    && |Claims(o, earlier) + BatchMerge.Unclaimed(Claims(o, incoming), ClaimedTxs(o, earlier))| <= 32
    && o.size(WithClaims(o, earlier, incoming)) <= 2_097_152
  }

  lemma MergeExactly(o: Oracles, earlier: Fields, incoming: Fields)
    ensures Merge(o, earlier, incoming) ==
      if WithinLimits(o, earlier, incoming) then Ok(WithClaims(o, earlier, incoming)) else Err(OverCapacity)
  {
    BatchMerge.JoinedExactly(o, earlier, incoming);
  }

  /** The record states a batch that belongs under the id. */
  ghost predicate Storable(o: Oracles, id: string, r: Fields) {
    exists b :: BatchAccepts.States(r, b) && BatchAccepts.Belongs(o, id, r, b)
  }

  lemma StorableExactly(o: Oracles, id: string, r: Fields)
    ensures Valid(o, id, r) <==> Storable(o, id, r)
  {
    BatchAccepts.ValidExactly(o, id, r);
  }

  /** What a save of this object under this id must meet. */
  ghost predicate Saves(o: Oracles, s: Store, anchorId: string, incoming: Fields) {
    && IsHex64(Strip0x(anchorId)) && Usable(s, anchorId) && WithinLimits(o, Earlier(s, anchorId), incoming)
    && Storable(o, Canonical(anchorId), WithClaims(o, Earlier(s, anchorId), incoming))
  }

  lemma SaveSteps(o: Oracles, s: Store, anchorId: string, incoming: Fields, earlier: Fields)
    requires var r := Read(s.files, s.mapped, anchorId); !r.Failed? ==> earlier == if r.Loaded? then r.fields else map[]
    ensures var merge := Merge(o, earlier, incoming);
      Merged(o, s, anchorId, Obj(incoming)).Ok? <==>
        && IsHex64(Strip0x(anchorId)) && !Read(s.files, s.mapped, anchorId).Failed?
        && merge.Ok? && Valid(o, Canonical(anchorId), merge.value)
    ensures Merged(o, s, anchorId, Obj(incoming)).Ok? ==>
      Merged(o, s, anchorId, Obj(incoming)) == Merge(o, earlier, incoming)
  {
  }

  /**
   * A save is accepted exactly for an id of 64 hex digits and an object, over a file that can be
   * used or none, if the records together stay within the limits and state a batch that belongs
   * under the id. It writes both records, merged.
   */
  lemma SaveExactly(o: Oracles, s: Store, anchorId: string, incoming: Fields)
    ensures Merged(o, s, anchorId, Obj(incoming)).Ok? <==> Saves(o, s, anchorId, incoming)
    ensures Saves(o, s, anchorId, incoming) ==>
      Merged(o, s, anchorId, Obj(incoming)).value == WithClaims(o, Earlier(s, anchorId), incoming)
  {
    var earlier, full := Earlier(s, anchorId), WithClaims(o, Earlier(s, anchorId), incoming);
    EarlierExactly(s, anchorId);
    MergeExactly(o, earlier, incoming);
    StorableExactly(o, Canonical(anchorId), full);
    SaveSteps(o, s, anchorId, incoming, earlier);
  }

  /** A refused save was over the limits or an unusable file, or said something malformed. */
  lemma RefusedExactly(o: Oracles, s: Store, anchorId: string, incoming: Fields)
    ensures Merged(o, s, anchorId, Obj(incoming)) == Err(OverCapacity) <==>
      && IsHex64(Strip0x(anchorId))
      && (!Usable(s, anchorId) || !WithinLimits(o, Earlier(s, anchorId), incoming))
    ensures Merged(o, s, anchorId, Obj(incoming)).Err? ==>
      Merged(o, s, anchorId, Obj(incoming)).error in {OverCapacity, Malformed}
  {
    EarlierExactly(s, anchorId);
    MergeExactly(o, Earlier(s, anchorId), incoming);
    RefusalSteps(o, s, anchorId, incoming, Earlier(s, anchorId));
  }

  lemma RefusalSteps(o: Oracles, s: Store, anchorId: string, incoming: Fields, earlier: Fields)
    requires var r := Read(s.files, s.mapped, anchorId); !r.Failed? ==> earlier == if r.Loaded? then r.fields else map[]
    ensures Merged(o, s, anchorId, Obj(incoming)) == Err(OverCapacity) <==>
      && IsHex64(Strip0x(anchorId))
      && (Read(s.files, s.mapped, anchorId).Failed? || Merge(o, earlier, incoming) == Err(OverCapacity))
  {
  }

  lemma OnlyObjectsAreSaved(o: Oracles, s: Store, anchorId: string, metadata: Json)
    ensures Merged(o, s, anchorId, metadata).Ok? ==> metadata.Obj?
  {
  }

  /** A save that is refused, and one that dies before its rename, leave every file; one that renames, every other. */
  lemma SaveWritesOneFile(o: Oracles, s: Store, anchorId: string, metadata: Json, crash: Crash, f: string)
    ensures var later, merged := Saved(o, s, anchorId, metadata, crash), Merged(o, s, anchorId, metadata);
      if merged.Ok? && !crash.BeforeRename? && f == Canonical(anchorId)
      then f in later.files && later.files[f] == Record(merged.value, o.size(merged.value))
      else (f in later.files <==> f in s.files) && (f in s.files ==> later.files[f] == s.files[f])
    ensures Saved(o, s, anchorId, metadata, crash).claims == s.claims
  {
  }

  lemma StepKeepsUnusable(o: Oracles, w: World, e: Event, k: string)
    requires Possible(w, e) && k in w.store.files && Unusable(w.store.files[k])
    ensures k in Next(o, w, e).store.files && Next(o, w, e).store.files[k] == w.store.files[k]
  {
    match e
    case Save(id, metadata, crash) =>
      ReadExactly(w.store.files, w.store.mapped, id);
      SaveWritesOneFile(o, w.store, id, metadata, crash, k);
    case ListFiles(_, _) =>
    case IndexListed(p) => BackfillFiles(w.store, w.listings[p], |w.listings[p]|);
    case SaveClaim(id, value) => ClaimKeeps(o, w.store, id, value);
  }

  /** A file that cannot be used is never written over: no run of any processes changes it. */
  lemma {:induction false} UnusableFileStays(o: Oracles, w: World, es: seq<Event>, k: string)
    requires CanRun(o, w, es) && k in w.store.files && Unusable(w.store.files[k])
    ensures k in After(o, w, es).store.files && After(o, w, es).store.files[k] == w.store.files[k]
    decreases |es|
  {
    if es != [] {
      UnusableFileStays(o, w, es[..|es| - 1], k);
      StepKeepsUnusable(o, After(o, w, es[..|es| - 1]), es[|es| - 1], k);
    }
  }

  // ------------------------------------------------------------ a claim

  /** The claim is added under a hex id whose record can be used and states a batch that belongs there. */
  ghost predicate Adds(o: Oracles, s: Store, anchorId: string, value: Json, id: string, c: CardanoClaim) {
    && IsHex64(Strip0x(anchorId)) && id == Canonical(anchorId) && ParseClaim(o, value) == Ok(c)
    && var f := NameFor(s.files, s.mapped, id);
    && f in s.files && s.files[f].Record? && s.files[f].bytes <= 2_097_152 && Storable(o, id, s.files[f].fields)
  }

  lemma ClaimableExactly(o: Oracles, s: Store, id: string)
    ensures var f := NameFor(s.files, s.mapped, id);
      Claimable(o, s, id) <==>
        f in s.files && s.files[f].Record? && s.files[f].bytes <= 2_097_152 && Storable(o, id, s.files[f].fields)
  {
    ReadExactly(s.files, s.mapped, id);
    var r := Read(s.files, s.mapped, id);
    if r.Loaded? {
      StorableExactly(o, id, r.fields);
    }
  }

  lemma FirstStays<K, V>(m: map<K, V>, k: K, v: V)
    ensures map[k := v] + m == if k in m then m else m[k := v]
  {
  }

  /** A claim adds its row unless there is one, changes no other, and touches nothing else. */
  lemma ClaimSavedExactly(o: Oracles, s: Store, anchorId: string, value: Json, id: string, c: CardanoClaim)
    requires Adds(o, s, anchorId, value, id, c)
    ensures ClaimSaved(o, s, anchorId, value) ==
      s.(claims := map[(id, c.key) := c.submittedAt] + s.claims)
  {
    ClaimableExactly(o, s, id);
    FirstStays(s.claims, (id, c.key), c.submittedAt);
  }

  lemma ClaimRefusedExactly(o: Oracles, s: Store, anchorId: string, value: Json)
    requires forall id, c :: !Adds(o, s, anchorId, value, id, c)
    ensures ClaimSaved(o, s, anchorId, value) == s
  {
    ClaimableExactly(o, s, Canonical(anchorId));
    if ParseClaim(o, value).Ok? {
      assert !Adds(o, s, anchorId, value, Canonical(anchorId), ParseClaim(o, value).value);
    }
  }
}
