/**
 * src/midnight-proof-store.ts: an immutable, content-addressed store of proof objects. A plan
 * names the member snapshots it was made from; indexes lead from leaves, anchors and
 * commitments to the objects about them. The digest, the JSON and snapshot parsers and the
 * anchor and commitment hashes are the functions of `Sdk`.
 */
module MidnightStore {
  import opened Common
  import opened Hex
  import opened Json

  /** A member snapshot, its hashes without "0x". */
  datatype Snapshot = Snapshot(
    genesis: string, finalizedHeight: int, anchorId: string, rootHash: string, manifestHash: string,
    leaves: seq<string>, receipts: seq<string>)

  datatype Sdk = Sdk(
    digest: string -> string, size: string -> nat, budget: nat,
    json: string -> Option<Json>, snapshot: string -> Option<Snapshot>,
    anchor: (string, string) -> string, commitment: (string, seq<string>) -> string)

  datatype Kind = Members | Plans | Sets

  datatype ObjectKey = ObjectKey(network: string, kind: Kind, digest: string)
  datatype LeafRow = LeafRow(network: string, genesis: string, leaf: string, digest: string)
  datatype CandidateRow = CandidateRow(network: string, kind: Kind, genesis: string, registry: string, subject: string,
      digest: string)

  datatype Store = Store(objects: map<ObjectKey, string>, leaves: map<LeafRow, string>, candidates: set<CandidateRow>)

  /** What an object is about. */
  datatype About = About(genesis: string, registry: string, subjects: seq<string>, anchorId: string)

  const EMPTY: Store := Store(map[], map[], {})

  // ------------------------------------------------------------ fields

  predicate IsNetwork(s: string) { s == "mainnet" || s == "preprod" }

  /** The fields of an object that has these and no others. */
  function Object(v: Json, fields: set<string>): Option<map<string, Json>> {
    if v.Obj? && v.fields.Keys == fields then Some(v.fields) else None
  }

  function HashOf(v: Json): Option<string> { if v.Str? && IsLowerHex64(v.s) then Some(v.s) else None }

  function HashesOf(items: seq<Json>): (r: Option<seq<string>>)
    ensures r.Some? ==> |r.value| == |items|
  {
    if items == [] then Some([])
    else
      var init, last := HashesOf(items[..|items| - 1]), HashOf(items[|items| - 1]);
      if init.Some? && last.Some? then Some(init.value + [last.value]) else None
  }

  predicate IsHeight(v: Json) { IsSafeInt(v) && v.n >= 0 }

  /** A finalized block hash, which keeps its "0x". */
  predicate IsBlockHash(v: Json) { v.Str? && |v.s| == 66 && v.s[0] == '0' && v.s[1] == 'x' && IsLowerHex64(v.s[2..]) }

  predicate BytesFit(sdk: Sdk, body: string, digest: string) {
    sdk.size(body) <= sdk.budget && sdk.digest(body) == digest
  }

  // ------------------------------------------------------------ members and sets

  function Member(sdk: Sdk, body: string): Option<About> {
    var s := sdk.snapshot(body);
    if s.None? then None else Some(About(s.value.genesis, "", s.value.leaves, s.value.anchorId))
  }

  function SetAbout(sdk: Sdk, network: string, body: string): Option<About> {
    var j := sdk.json(body);
    var fields := if j.Some? then Object(j.value, {"network", "materiosGenesis", "commitment", "anchorIds", "midnight"})
      else None;
    if fields.None? then None
    else
      var f := fields.value;
      var midnight := Object(Field(f, "midnight"), {"registry", "txHash", "blockHeight", "blockHash"});
      var ids := if Field(f, "anchorIds").Arr? then HashesOf(Field(f, "anchorIds").items) else None;
      var genesis, commitment := HashOf(Field(f, "materiosGenesis")), HashOf(Field(f, "commitment"));
      if midnight.None? || Field(f, "network") != Str(network) || ids.None? || !(1 <= |ids.value| <= 1024)
         || genesis.None? || commitment.None? || sdk.commitment(genesis.value, ids.value) != commitment.value
         || HashOf(Field(midnight.value, "txHash")).None? || HashOf(Field(midnight.value, "blockHash")).None?
         || !IsHeight(Field(midnight.value, "blockHeight")) || HashOf(Field(midnight.value, "registry")).None?
      then None
      else Some(About(genesis.value, HashOf(Field(midnight.value, "registry")).value, ids.value, ""))
  }

  // ------------------------------------------------------------ plans

  /** One planned batch and the snapshot it refers to. */
  datatype Entry = Entry(id: string, root: string, manifest: string, sha256: string)

  function EntryOf(sdk: Sdk, batch: Json, snapshot: Json): Option<Entry> {
    var member := Object(batch, {"anchorId", "rootHash", "manifestHash"});
    var ref := Object(snapshot, {"anchorId", "key", "sha256"});
    if member.None? || ref.None? then None
    else
      var id, root, manifest := HashOf(Field(member.value, "anchorId")), HashOf(Field(member.value, "rootHash")),
        HashOf(Field(member.value, "manifestHash"));
      var sha256 := HashOf(Field(ref.value, "sha256"));
      if id.None? || root.None? || manifest.None? || sha256.None? || sdk.anchor(root.value, manifest.value) != id.value
         || Field(ref.value, "anchorId") != Str(id.value) || Field(ref.value, "key") != Str("members/" + sha256.value)
      then None
      else Some(Entry(id.value, root.value, manifest.value, sha256.value))
  }

  /** The parts of a plan's JSON, before its entries are checked. */
  datatype Outline = Outline(genesis: string, height: int, registry: string, commit: Json, batches: seq<Json>,
      snapshots: seq<Json>)

  function OutlineOf(sdk: Sdk, network: string, body: string): (r: Option<Outline>)
    ensures r.Some? ==> 1 <= |r.value.batches| == |r.value.snapshots| <= 64
  {
    var j := sdk.json(body);
    var mapping := if j.Some? then Object(j.value, {"format", "network", "census", "plan", "snapshots"}) else None;
    if mapping.None? || Field(mapping.value, "format") != Str("orynq-midnight-plan/v1")
       || Field(mapping.value, "network") != Str(network) then None
    else
      var census := Object(Field(mapping.value, "census"), {"genesis", "blockHeight", "blockHash"});
      var plan := Object(Field(mapping.value, "plan"), {"registry", "entries"});
      if census.None? || plan.None? || HashOf(Field(census.value, "genesis")).None?
         || !IsHeight(Field(census.value, "blockHeight"))
         || !IsBlockHash(Field(census.value, "blockHash")) || HashOf(Field(plan.value, "registry")).None?
         || !Field(plan.value, "entries").Arr? || |Field(plan.value, "entries").items| != 1
      then None
      else EntryOutline(mapping.value, HashOf(Field(census.value, "genesis")).value,
                        Field(census.value, "blockHeight").n,
                        HashOf(Field(plan.value, "registry")).value, Field(plan.value, "entries").items[0])
  }

  function EntryOutline(mapping: map<string, Json>, genesis: string, height: int, registry: string,
      entry: Json): (r: Option<Outline>)
    ensures r.Some? ==> 1 <= |r.value.batches| == |r.value.snapshots| <= 64
  {
    var e := Object(entry, {"kind", "label", "materiosGenesis", "batches"});
    if e.None? || Field(e.value, "kind") != Num(3) || Field(e.value, "materiosGenesis") != Str(genesis)
       || !Field(e.value, "batches").Arr? || !Field(mapping, "snapshots").Arr?
       || !(1 <= |Field(e.value, "batches").items| <= 64)
       || |Field(mapping, "snapshots").items| != |Field(e.value, "batches").items|
    then None
    else Some(Outline(genesis, height, registry, Field(e.value, "label"), Field(e.value, "batches").items,
      Field(mapping, "snapshots").items))
  }

  type EntryReader = (Json, Json) -> Option<Entry>
  type SnapshotReader = Entry -> Option<Snapshot>

  /** The first `n` entries of a plan, unless one is malformed. */
  function Entries(read: EntryReader, batches: seq<Json>, snapshots: seq<Json>, n: nat): (r: Option<seq<Entry>>)
    requires n <= |batches| == |snapshots|
    ensures r.Some? ==> |r.value| == n
  {
    if n == 0 then Some([])
    else
      var init, last := Entries(read, batches, snapshots, n - 1), read(batches[n - 1], snapshots[n - 1]);
      if init.Some? && last.Some? then Some(init.value + [last.value]) else None
  }

  function ReadsEntries(sdk: Sdk): EntryReader { (batch, snapshot) => EntryOf(sdk, batch, snapshot) }

  function PlanEntries(sdk: Sdk, p: Outline): Option<seq<Entry>>
    requires |p.batches| == |p.snapshots|
  {
    Entries(ReadsEntries(sdk), p.batches, p.snapshots, |p.batches|)
  }

  function Ids(entries: seq<Entry>): (ids: seq<string>)
    ensures |ids| == |entries|
  {
    seq(|entries|, i requires 0 <= i < |entries| => entries[i].id)
  }

  /** The snapshot a plan entry refers to, if it is stored, is sound and is the planned one. */
  function SnapshotFor(sdk: Sdk, objects: map<ObjectKey, string>, network: string, p: Outline,
      e: Entry): Option<Snapshot> {
    var key := ObjectKey(network, Members, e.sha256);
    if key !in objects || !BytesFit(sdk, objects[key], e.sha256) then None
    else
      var s := sdk.snapshot(objects[key]);
      if s.None? || s.value.genesis != p.genesis || s.value.finalizedHeight != p.height || s.value.anchorId != e.id
         || s.value.rootHash != e.root || s.value.manifestHash != e.manifest then None
      else s
  }

  function ReadsSnapshots(sdk: Sdk, objects: map<ObjectKey, string>, network: string, p: Outline): SnapshotReader {
    e => SnapshotFor(sdk, objects, network, p, e)
  }

  /** The receipts of the snapshots of the first `n` entries, or None when one is missing or differs. */
  function Receipts(read: SnapshotReader, entries: seq<Entry>, n: nat): Option<seq<string>>
    requires n <= |entries|
  {
    if n == 0 then Some([])
    else
      var init, s := Receipts(read, entries, n - 1), read(entries[n - 1]);
      if init.Some? && s.Some? then Some(init.value + s.value.receipts) else None
  }

  predicate NoRepeats(s: seq<string>) { forall i, j | 0 <= i < j < |s| :: s[i] != s[j] }

  /** Every referenced snapshot is found as planned, and no receipt occurs twice in them. */
  predicate RefersWell(read: SnapshotReader, entries: seq<Entry>) {
    var receipts := Receipts(read, entries, |entries|);
    receipts.Some? && NoRepeats(receipts.value)
  }

  function PlanAbout(sdk: Sdk, network: string, body: string): Option<About> {
    var p := OutlineOf(sdk, network, body);
    if p.None? then None
    else
      var entries := PlanEntries(sdk, p.value);
      Labelled(sdk, p.value, if entries.Some? then Some(Ids(entries.value)) else None)
  }

  predicate PlanRefersWell(sdk: Sdk, objects: map<ObjectKey, string>, network: string, body: string) {
    var p := OutlineOf(sdk, network, body);
    && p.Some? && PlanEntries(sdk, p.value).Some?
    && RefersWell(ReadsSnapshots(sdk, objects, network, p.value), PlanEntries(sdk, p.value).value)
  }

  // ------------------------------------------------------------ checkedObject

  function Checked(sdk: Sdk, k: ObjectKey, body: string): Option<About> {
    if !BytesFit(sdk, body, k.digest) then None
    else
      match k.kind
      case Members => Member(sdk, body)
      case Sets => SetAbout(sdk, k.network, body)
      case Plans => PlanAbout(sdk, k.network, body)
  }

  /** With `references`, a plan must also refer to stored snapshots. */
  function CheckedWith(sdk: Sdk, objects: map<ObjectKey, string>, k: ObjectKey, body: string,
      references: bool): Option<About> {
    if references && k.kind.Plans? && !PlanRefersWell(sdk, objects, k.network, body) then None
    else Checked(sdk, k, body)
  }

  /** The receipts of one snapshot, added to those seen; false when one was seen before. */
  method AddReceipts(seen: set<string>, more: seq<string>, ghost before: seq<string>)
    returns (ok: bool, all: set<string>)
    requires NoRepeats(before) && seen == (set r | r in before)
    ensures ok <==> NoRepeats(before + more)
    ensures ok ==> all == set r | r in before + more
  {
    all := seen;
    var i := 0;
    assert before + more[..0] == before;
    while i < |more|
      invariant 0 <= i <= |more|
      invariant NoRepeats(before + more[..i]) && all == set r | r in before + more[..i]
    {
      assert before + more[..i + 1] == (before + more[..i]) + [more[i]];
      if more[i] in all {
        ghost var j :| 0 <= j < |before + more[..i]| && (before + more[..i])[j] == more[i];
        assert (before + more)[j] == (before + more)[|before| + i];
        return false, all;
      }
      all := all + {more[i]};
      i := i + 1;
    }
    assert more[..i] == more;
    ok := true;
  }

  /** The snapshot of one entry: it must be there, and bring no receipt seen before. */
  method CheckReference(seen: set<string>, ghost before: seq<string>, s: Option<Snapshot>)
    returns (ok: bool, all: set<string>, ghost after: seq<string>)
    requires NoRepeats(before) && seen == (set r | r in before)
    ensures after == if s.Some? then before + s.value.receipts else before
    ensures ok <==> s.Some? && NoRepeats(after)
    ensures ok ==> all == set r | r in after
  {
    after := before;
    if s.None? {
      return false, seen, before;
    }
    after := before + s.value.receipts;
    ok, all := AddReceipts(seen, s.value.receipts, before);
  }

  /** The loop over a plan's entries, which grows `ids` and `receipts`. */
  method CheckEntries(entryOf: EntryReader, snapshotFor: SnapshotReader, batches: seq<Json>, snapshots: seq<Json>,
      references: bool)
    returns (ids: Option<seq<string>>)
    requires |batches| == |snapshots|
    ensures var entries := Entries(entryOf, batches, snapshots, |batches|);
      ids == if entries.Some? && (references ==> RefersWell(snapshotFor, entries.value))
             then Some(Ids(entries.value)) else None
  {
    var found: seq<string>, receipts: set<string> := [], {};
    ghost var entries: seq<Entry>, seen: seq<string> := [], [];
    var i := 0;
    while i < |batches|
      invariant 0 <= i <= |batches| && |entries| == i
      invariant Entries(entryOf, batches, snapshots, i) == Some(entries) && found == Ids(entries)
      invariant references ==> Receipts(snapshotFor, entries, i) == Some(seen)
      invariant references ==> NoRepeats(seen) && receipts == set r | r in seen
    {
      var e := entryOf(batches[i], snapshots[i]);
      if e.None? {
        EntriesStop(entryOf, batches, snapshots, i + 1, |batches|);
        return None;
      }
      found := found + [e.value.id];
      ghost var longer := entries + [e.value];
      if references {
        SameReceipts(snapshotFor, entries, longer, i);
        var ok;
        ok, receipts, seen := CheckReference(receipts, seen, snapshotFor(e.value));
        if !ok {
          ReceiptsStop(entryOf, snapshotFor, batches, snapshots, longer, i + 1);
          return None;
        }
      }
      entries := longer;
      assert Ids(entries) == found;
      i := i + 1;
    }
    ids := Some(found);
  }

  lemma {:induction false} EntriesStop(read: EntryReader, batches: seq<Json>, snapshots: seq<Json>, m: nat, n: nat)
    requires m <= n <= |batches| == |snapshots| && Entries(read, batches, snapshots, m).None?
    ensures Entries(read, batches, snapshots, n).None?
  {
    if m < n { EntriesStop(read, batches, snapshots, m, n - 1); }
  }

  lemma {:induction false} EntriesGrow(read: EntryReader, batches: seq<Json>, snapshots: seq<Json>, m: nat, n: nat)
    requires m <= n <= |batches| == |snapshots| && Entries(read, batches, snapshots, n).Some?
    ensures var longer := Entries(read, batches, snapshots, n).value;
      Entries(read, batches, snapshots, m) == Some(longer[..m])
  {
    var longer := Entries(read, batches, snapshots, n).value;
    if m < n {
      EntriesGrow(read, batches, snapshots, m, n - 1);
      assert longer[..m] == Entries(read, batches, snapshots, n - 1).value[..m];
    } else {
      assert longer[..n] == longer;
    }
  }

  lemma {:induction false} SameReceipts(read: SnapshotReader, a: seq<Entry>, b: seq<Entry>, n: nat)
    requires n <= |a| && n <= |b| && a[..n] == b[..n]
    ensures Receipts(read, a, n) == Receipts(read, b, n)
  {
    if n > 0 {
      assert a[n - 1] == a[..n][n - 1] == b[n - 1];
      assert a[..n - 1] == a[..n][..n - 1] && b[..n - 1] == b[..n][..n - 1];
      SameReceipts(read, a, b, n - 1);
    }
  }

  /** Once the references of a prefix fail, those of the whole plan do. */
  lemma ReceiptsStop(entryOf: EntryReader, read: SnapshotReader, batches: seq<Json>, snapshots: seq<Json>,
      prefix: seq<Entry>, m: nat)
    requires m == |prefix| <= |batches| == |snapshots| && Entries(entryOf, batches, snapshots, m) == Some(prefix)
    requires var r := Receipts(read, prefix, m); r.None? || !NoRepeats(r.value)
    ensures var entries := Entries(entryOf, batches, snapshots, |batches|);
      entries.Some? ==> !RefersWell(read, entries.value)
  {
    var entries := Entries(entryOf, batches, snapshots, |batches|);
    if entries.Some? {
      EntriesGrow(entryOf, batches, snapshots, m, |batches|);
      assert prefix[..m] == prefix;
      SameReceipts(read, prefix, entries.value, m);
      ReceiptsOnlyWorsen(read, entries.value, m, |batches|);
    }
  }

  lemma {:induction false} ReceiptsOnlyWorsen(read: SnapshotReader, entries: seq<Entry>, m: nat, n: nat)
    requires m <= n <= |entries|
    requires var r := Receipts(read, entries, m); r.None? || !NoRepeats(r.value)
    ensures var r := Receipts(read, entries, n); r.None? || !NoRepeats(r.value)
  {
    if m < n {
      ReceiptsOnlyWorsen(read, entries, m, n - 1);
      var before, after := Receipts(read, entries, n - 1), Receipts(read, entries, n);
      if after.Some? {
        var i, j :| 0 <= i < j < |before.value| && before.value[i] == before.value[j];
        assert after.value[i] == after.value[j];
      }
    }
  }

  /** What a plan is about once its entries have been read. */
  function Labelled(sdk: Sdk, p: Outline, ids: Option<seq<string>>): Option<About> {
    var commit := HashOf(p.commit);
    if ids.None? || commit.None? || sdk.commitment(p.genesis, ids.value) != commit.value then None
    else Some(About(p.genesis, p.registry, [commit.value], ""))
  }

  method CheckedPlan(sdk: Sdk, p: Outline, read: SnapshotReader, references: bool) returns (about: Option<About>)
    requires |p.batches| == |p.snapshots|
    ensures var entries := PlanEntries(sdk, p);
      about == if entries.Some? && (references ==> RefersWell(read, entries.value))
        then Labelled(sdk, p, Some(Ids(entries.value))) else None
  {
    var ids := CheckEntries(ReadsEntries(sdk), read, p.batches, p.snapshots, references);
    about := Labelled(sdk, p, ids);
  }

  method CheckedObject(sdk: Sdk, objects: map<ObjectKey, string>, k: ObjectKey, body: string, references: bool)
    returns (about: Option<About>)
    ensures about == CheckedWith(sdk, objects, k, body, references)
  {
    if !BytesFit(sdk, body, k.digest) {
      return None;
    }
    match k.kind
    case Members => about := Member(sdk, body);
    case Sets => about := SetAbout(sdk, k.network, body);
    case Plans =>
      var p := OutlineOf(sdk, k.network, body);
      if p.None? {
        return None;
      }
      about := CheckedPlan(sdk, p.value, ReadsSnapshots(sdk, objects, k.network, p.value), references);
  }
}
