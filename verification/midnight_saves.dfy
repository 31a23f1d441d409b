/**
 * Which saves of src/midnight-proof-store.ts, lines 41-87 and 135-153, are accepted, said of what
 * is written and stored and not of the checks: a snapshot that parses, a set, or a plan whose
 * snapshots are stored as planned and share no receipt.
 */
module MidnightSaves {
  import opened Common
  import opened Hex
  import opened MidnightObjects
  import opened MidnightRuns
  import opened MidnightStore

  // ------------------------------------------------------------ the snapshots of a plan

  /** The snapshot an entry refers to is stored under its digest, in full, and is the planned one. */
  predicate StoredAs(sdk: Sdk, objects: map<ObjectKey, string>, network: string, p: PlanParts, e: Entry, s: Snapshot) {
    var key := ObjectKey(network, Members, e.sha256);
    && key in objects && sdk.size(objects[key]) <= sdk.budget && sdk.digest(objects[key]) == e.sha256
    && sdk.snapshot(objects[key]) == Some(s)
    && s.genesis == p.genesis && s.finalizedHeight == p.height && s.anchorId == e.id && s.rootHash == e.root
    && s.manifestHash == e.manifest
  }

  predicate AllStored(sdk: Sdk, objects: map<ObjectKey, string>, network: string, p: PlanParts, ss: seq<Snapshot>) {
    && |ss| == |p.entries|
    && forall i | 0 <= i < |ss| :: StoredAs(sdk, objects, network, p, p.entries[i], ss[i])
  }

  /** No receipt is listed twice, in one snapshot or in two. */
  predicate ReceiptsDiffer(ss: seq<Snapshot>) {
    forall i, a, j, b | 0 <= i < |ss| && 0 <= a < |ss[i].receipts| && 0 <= j < |ss| && 0 <= b < |ss[j].receipts| ::
      (i == j && a == b) || ss[i].receipts[a] != ss[j].receipts[b]
  }

  function Flat(ss: seq<Snapshot>): seq<string> {
    if ss == [] then [] else Flat(ss[..|ss| - 1]) + ss[|ss| - 1].receipts
  }

  predicate Finds(read: SnapshotReader, entries: seq<Entry>, ss: seq<Snapshot>) {
    |ss| == |entries| && forall i | 0 <= i < |ss| :: read(entries[i]) == Some(ss[i])
  }

  lemma {:induction false} ReceiptsAreFlat(read: SnapshotReader, entries: seq<Entry>, ss: seq<Snapshot>, n: nat)
    requires n <= |entries| && Finds(read, entries, ss)
    ensures Receipts(read, entries, n) == Some(Flat(ss[..n]))
  {
    if n > 0 {
      ReceiptsAreFlat(read, entries, ss, n - 1);
      assert ss[..n][..n - 1] == ss[..n - 1] && ss[..n][n - 1] == ss[n - 1];
    }
  }

  /** A receipt in the list comes from some snapshot. */
  lemma {:induction false} FlatComesFrom(ss: seq<Snapshot>, x: nat) returns (i: nat, a: nat)
    requires x < |Flat(ss)|
    ensures i < |ss| && a < |ss[i].receipts| && ss[i].receipts[a] == Flat(ss)[x]
  {
    var init, last := ss[..|ss| - 1], ss[|ss| - 1];
    if x < |Flat(init)| {
      i, a := FlatComesFrom(init, x);
    } else {
      i, a := |ss| - 1, x - |Flat(init)|;
    }
  }

  lemma {:induction false} FlatHolds(ss: seq<Snapshot>, i: nat, a: nat) returns (x: nat)
    requires i < |ss| && a < |ss[i].receipts|
    ensures x < |Flat(ss)| && Flat(ss)[x] == ss[i].receipts[a]
    ensures i == |ss| - 1 ==> x == |Flat(ss[..i])| + a
    ensures i < |ss| - 1 ==> x < |Flat(ss[..|ss| - 1])|
  {
    if i < |ss| - 1 {
      x := FlatHolds(ss[..|ss| - 1], i, a);
    } else {
      x := |Flat(ss[..i])| + a;
    }
  }

  lemma DifferInInit(ss: seq<Snapshot>)
    requires ss != [] && ReceiptsDiffer(ss)
    ensures ReceiptsDiffer(ss[..|ss| - 1])
  {
    var init := ss[..|ss| - 1];
    forall i, a, j, b | 0 <= i < |init| && 0 <= a < |init[i].receipts| && 0 <= j < |init| && 0 <= b < |init[j].receipts|
      ensures (i == j && a == b) || init[i].receipts[a] != init[j].receipts[b]
    {
      assert init[i] == ss[i] && init[j] == ss[j];
    }
  }

  lemma {:induction false} DifferentAreApart(ss: seq<Snapshot>)
    requires ReceiptsDiffer(ss)
    ensures NoRepeats(Flat(ss))
  {
    if ss != [] {
      var init, last := ss[..|ss| - 1], ss[|ss| - 1];
      DifferInInit(ss);
      DifferentAreApart(init);
      forall x, y | 0 <= x < y < |Flat(ss)| ensures Flat(ss)[x] != Flat(ss)[y] {
        if x >= |Flat(init)| {
          assert ss[|ss| - 1].receipts[x - |Flat(init)|] != ss[|ss| - 1].receipts[y - |Flat(init)|];
        } else if y >= |Flat(init)| {
          var i, a := FlatComesFrom(init, x);
          assert ss[i].receipts[a] != ss[|ss| - 1].receipts[y - |Flat(init)|];
        }
      }
    }
  }

  lemma {:induction false} ApartAreDifferent(ss: seq<Snapshot>, i: nat, a: nat, j: nat, b: nat)
    requires NoRepeats(Flat(ss))
    requires i <= j < |ss| && a < |ss[i].receipts| && b < |ss[j].receipts| && !(i == j && a == b)
    ensures ss[i].receipts[a] != ss[j].receipts[b]
  {
    var init := ss[..|ss| - 1];
    if j < |ss| - 1 {
      assert forall x | 0 <= x < |Flat(init)| :: Flat(init)[x] == Flat(ss)[x];
      ApartAreDifferent(init, i, a, j, b);
    } else {
      var x := FlatHolds(ss, i, a);
      var y := FlatHolds(ss, j, b);
      assert x != y;
    }
  }

  lemma FlatApart(ss: seq<Snapshot>)
    ensures NoRepeats(Flat(ss)) <==> ReceiptsDiffer(ss)
  {
    if ReceiptsDiffer(ss) {
      DifferentAreApart(ss);
    }
    if NoRepeats(Flat(ss)) {
      forall i, a, j, b | 0 <= i < |ss| && 0 <= a < |ss[i].receipts| && 0 <= j < |ss| && 0 <= b < |ss[j].receipts|
        ensures (i == j && a == b) || ss[i].receipts[a] != ss[j].receipts[b]
      {
        if i <= j && !(i == j && a == b) {
          ApartAreDifferent(ss, i, a, j, b);
        } else if j < i {
          ApartAreDifferent(ss, j, b, i, a);
        }
      }
    }
  }

  lemma {:induction false} ReceiptsNeedEach(read: SnapshotReader, entries: seq<Entry>, n: nat, i: nat)
    requires i < n <= |entries| && Receipts(read, entries, n).Some?
    ensures read(entries[i]).Some?
  {
    if i < n - 1 {
      ReceiptsNeedEach(read, entries, n - 1, i);
    }
  }

  /** Every snapshot is read and no receipt repeats: said of the snapshots, not of the list that is built. */
  lemma RefersExactly(read: SnapshotReader, entries: seq<Entry>)
    ensures RefersWell(read, entries) <==>
      exists ss :: Finds(read, entries, ss) && ReceiptsDiffer(ss)
  {
    if RefersWell(read, entries) {
      forall i | 0 <= i < |entries| ensures read(entries[i]).Some? {
        ReceiptsNeedEach(read, entries, |entries|, i);
      }
      var ss := seq(|entries|, i requires 0 <= i < |entries| && read(entries[i]).Some? => read(entries[i]).value);
      ReceiptsAreFlat(read, entries, ss, |entries|);
      assert ss[..|ss|] == ss;
      FlatApart(ss);
    }
    forall ss | Finds(read, entries, ss) && ReceiptsDiffer(ss) ensures RefersWell(read, entries) {
      ReceiptsAreFlat(read, entries, ss, |entries|);
      assert ss[..|ss|] == ss;
      FlatApart(ss);
    }
  }

  lemma StoredIsFound(sdk: Sdk, objects: map<ObjectKey, string>, network: string, p: PlanParts, e: Entry, s: Snapshot)
    ensures StoredAs(sdk, objects, network, p, e, s) <==>
      ReadsSnapshots(sdk, objects, network, OutlineWritten(sdk, p))(e) == Some(s)
  {
  }

  lemma AllStoredAreFound(sdk: Sdk, objects: map<ObjectKey, string>, network: string, p: PlanParts, ss: seq<Snapshot>)
    ensures AllStored(sdk, objects, network, p, ss) <==>
      Finds(ReadsSnapshots(sdk, objects, network, OutlineWritten(sdk, p)), p.entries, ss)
  {
    var read := ReadsSnapshots(sdk, objects, network, OutlineWritten(sdk, p));
    forall i | 0 <= i < |ss| && |ss| == |p.entries|
      ensures StoredAs(sdk, objects, network, p, p.entries[i], ss[i]) <==> read(p.entries[i]) == Some(ss[i])
    {
      StoredIsFound(sdk, objects, network, p, p.entries[i], ss[i]);
    }
  }

  lemma PlanIsReferring(sdk: Sdk, objects: map<ObjectKey, string>, network: string, body: string, p: PlanParts)
    requires PlanFits(sdk, p) && sdk.json(body) == Some(PlanJson(sdk, network, p))
    ensures PlanRefersWell(sdk, objects, network, body) <==>
      RefersWell(ReadsSnapshots(sdk, objects, network, OutlineWritten(sdk, p)), p.entries)
  {
    OutlineIsRead(sdk, network, body, p);
    PlanEntriesAreRead(sdk, p.entries);
  }

  lemma PlanRefersExactly(sdk: Sdk, objects: map<ObjectKey, string>, network: string, body: string, p: PlanParts)
    requires PlanFits(sdk, p) && sdk.json(body) == Some(PlanJson(sdk, network, p))
    ensures PlanRefersWell(sdk, objects, network, body) <==>
      exists ss :: AllStored(sdk, objects, network, p, ss) && ReceiptsDiffer(ss)
  {
    PlanIsReferring(sdk, objects, network, body, p);
    var read := ReadsSnapshots(sdk, objects, network, OutlineWritten(sdk, p));
    RefersExactly(read, p.entries);
    forall ss ensures AllStored(sdk, objects, network, p, ss) <==> Finds(read, p.entries, ss) {
      AllStoredAreFound(sdk, objects, network, p, ss);
    }
  }

  // ------------------------------------------------------------ what is accepted

  predicate InScope(k: ObjectKey) { (k.network == "mainnet" || k.network == "preprod") && IsLowerHex64(k.digest) }

  /** The text under a key is the text with that digest, and no larger than the budget. */
  predicate BodyOf(sdk: Sdk, k: ObjectKey, body: string) {
    sdk.digest(body) == k.digest && sdk.size(body) <= sdk.budget
  }

  ghost predicate IsSet(sdk: Sdk, network: string, body: string, p: SetParts) {
    SetFits(p) && IsLowerHex64(sdk.commitment(p.genesis, p.ids)) && sdk.json(body) == Some(SetJson(sdk, network, p))
  }

  ghost predicate IsPlan(sdk: Sdk, network: string, body: string, p: PlanParts) {
    && PlanFits(sdk, p) && IsLowerHex64(sdk.commitment(p.genesis, Ids(p.entries)))
    && sdk.json(body) == Some(PlanJson(sdk, network, p))
  }

  /** What a body must be to be saved under this kind. */
  ghost predicate Acceptable(sdk: Sdk, objects: map<ObjectKey, string>, k: ObjectKey, body: string) {
    match k.kind
    case Members => sdk.snapshot(body).Some?
    case Sets => exists p :: IsSet(sdk, k.network, body, p)
    case Plans =>
      exists p, ss ::
        IsPlan(sdk, k.network, body, p) && AllStored(sdk, objects, k.network, p, ss) && ReceiptsDiffer(ss)
  }

  lemma PlanAcceptedExactly(sdk: Sdk, objects: map<ObjectKey, string>, k: ObjectKey, body: string)
    requires k.kind.Plans?
    ensures PlanRefersWell(sdk, objects, k.network, body) && PlanAbout(sdk, k.network, body).Some? <==>
      Acceptable(sdk, objects, k, body)
  {
    PlanExactly(sdk, k.network, body);
    forall p | IsPlan(sdk, k.network, body, p)
      ensures PlanRefersWell(sdk, objects, k.network, body) <==>
        exists ss :: AllStored(sdk, objects, k.network, p, ss) && ReceiptsDiffer(ss)
    {
      PlanRefersExactly(sdk, objects, k.network, body, p);
    }
    if PlanAbout(sdk, k.network, body).Some? {
      var p := AcceptedPlanWasWritten(sdk, k.network, body);
      assert IsPlan(sdk, k.network, body, p);
    }
  }

  lemma CheckedExactly(sdk: Sdk, objects: map<ObjectKey, string>, k: ObjectKey, body: string)
    ensures CheckedWith(sdk, objects, k, body, true).Some? <==>
      BodyOf(sdk, k, body) && Acceptable(sdk, objects, k, body)
  {
    match k.kind
    case Members =>
    case Sets =>
      SetExactly(sdk, k.network, body);
      if SetAbout(sdk, k.network, body).Some? {
        var p := AcceptedSetWasWritten(sdk, k.network, body);
        assert IsSet(sdk, k.network, body, p);
      }
    case Plans => PlanAcceptedExactly(sdk, objects, k, body);
  }

  /** A save is accepted exactly in scope, for an acceptable body that is not another one under its key. */
  lemma SavedExactly(sdk: Sdk, s: Store, k: ObjectKey, body: string)
    ensures Saved(sdk, s, k, body).Ok? <==>
      && InScope(k) && BodyOf(sdk, k, body) && Acceptable(sdk, s.objects, k, body)
      && (k in s.objects ==> s.objects[k] == body)
    ensures Saved(sdk, s, k, body) == Err(BadScope) <==> !InScope(k)
    ensures Saved(sdk, s, k, body) == Err(Conflict) <==>
      && InScope(k) && BodyOf(sdk, k, body) && Acceptable(sdk, s.objects, k, body)
      && k in s.objects && s.objects[k] != body
    ensures Saved(sdk, s, k, body).Ok? ==> Saved(sdk, s, k, body).value.objects == s.objects[k := body]
  {
    CheckedExactly(sdk, s.objects, k, body);
  }
}
