/**
 * Sets and plans as they are written, and that the checks of src/midnight-proof-store.ts, lines
 * 40-83, accept exactly what is written so: the reader of each kind inverts its writer.
 */
module MidnightObjects {
  import opened Common
  import opened Hex
  import opened Json
  import opened MidnightStore

  // ------------------------------------------------------------ lists of hashes

  function Texts(hashes: seq<string>): (items: seq<Json>)
    ensures |items| == |hashes| && forall i | 0 <= i < |items| :: items[i] == Str(hashes[i])
  {
    seq(|hashes|, i requires 0 <= i < |hashes| => Str(hashes[i]))
  }

  predicate AllHashes(hashes: seq<string>) { forall i | 0 <= i < |hashes| :: IsLowerHex64(hashes[i]) }

  /** A list of hashes that is read holds the texts of the hashes read. */
  lemma {:induction false} HashesWereTexts(items: seq<Json>, i: nat)
    requires HashesOf(items).Some? && i < |items|
    ensures items[i] == Str(HashesOf(items).value[i]) && IsLowerHex64(HashesOf(items).value[i])
  {
    var init := items[..|items| - 1];
    if i < |items| - 1 {
      HashesWereTexts(init, i);
      assert init[i] == items[i];
    }
  }

  lemma {:induction false} TextsAreHashes(items: seq<Json>)
    requires forall i | 0 <= i < |items| :: items[i].Str? && IsLowerHex64(items[i].s)
    ensures HashesOf(items).Some?
  {
    if items != [] {
      TextsAreHashes(items[..|items| - 1]);
    }
  }

  lemma HashesExactly(items: seq<Json>)
    ensures HashesOf(items).Some? <==> forall i | 0 <= i < |items| :: items[i].Str? && IsLowerHex64(items[i].s)
    ensures HashesOf(items).Some? ==> AllHashes(HashesOf(items).value) && items == Texts(HashesOf(items).value)
  {
    if HashesOf(items).Some? {
      forall i | 0 <= i < |items|
        ensures items[i] == Str(HashesOf(items).value[i]) && IsLowerHex64(HashesOf(items).value[i])
      {
        HashesWereTexts(items, i);
      }
    } else if forall i | 0 <= i < |items| :: items[i].Str? && IsLowerHex64(items[i].s) {
      TextsAreHashes(items);
    }
  }

  lemma TextsDiffer(a: seq<string>, b: seq<string>)
    requires Texts(a) == Texts(b)
    ensures a == b
  {
    assert |a| == |Texts(a)| == |b|;
    forall i | 0 <= i < |a| ensures a[i] == b[i] {
      assert Str(a[i]) == Texts(a)[i] == Texts(b)[i] == Str(b[i]);
    }
  }

  lemma TextsAreRead(hashes: seq<string>)
    requires AllHashes(hashes)
    ensures HashesOf(Texts(hashes)) == Some(hashes)
  {
    var items := Texts(hashes);
    forall i | 0 <= i < |items| ensures items[i].Str? && IsLowerHex64(items[i].s) {
      assert IsLowerHex64(hashes[i]);
    }
    HashesExactly(items);
    TextsDiffer(HashesOf(items).value, hashes);
  }

  // ------------------------------------------------------------ sets

  /** What a set object says. */
  datatype SetParts = SetParts(
    genesis: string, ids: seq<string>, registry: string, txHash: string, blockHash: string, height: int)

  predicate SetFits(p: SetParts) {
    && IsLowerHex64(p.genesis) && IsLowerHex64(p.registry) && IsLowerHex64(p.txHash) && IsLowerHex64(p.blockHash)
    && 1 <= |p.ids| <= 1024 && AllHashes(p.ids) && 0 <= p.height <= MAX_SAFE
  }

  function MidnightJson(p: SetParts): Json {
    Obj(map["registry" := Str(p.registry), "txHash" := Str(p.txHash), "blockHeight" := Num(p.height),
            "blockHash" := Str(p.blockHash)])
  }

  /** A set object, with the commitment to its genesis and ids. */
  function SetJson(sdk: Sdk, network: string, p: SetParts): Json {
    Obj(map["network" := Str(network), "materiosGenesis" := Str(p.genesis),
            "commitment" := Str(sdk.commitment(p.genesis, p.ids)), "anchorIds" := Arr(Texts(p.ids)),
            "midnight" := MidnightJson(p)])
  }

  lemma SetKeys(sdk: Sdk, network: string, p: SetParts)
    ensures SetJson(sdk, network, p).fields.Keys ==
      {"network", "materiosGenesis", "commitment", "anchorIds", "midnight"}
    ensures MidnightJson(p).fields.Keys == {"registry", "txHash", "blockHeight", "blockHash"}
  {
  }

  lemma SetIsRead(sdk: Sdk, network: string, body: string, p: SetParts)
    requires SetFits(p) && IsLowerHex64(sdk.commitment(p.genesis, p.ids))
    requires sdk.json(body) == Some(SetJson(sdk, network, p))
    ensures SetAbout(sdk, network, body) == Some(About(p.genesis, p.registry, p.ids, ""))
  {
    SetKeys(sdk, network, p);
    TextsAreRead(p.ids);
  }

  /** The parts of a midnight object that was read. */
  lemma MidnightWritten(v: Json, p: SetParts)
    requires v.Obj? && v.fields.Keys == {"registry", "txHash", "blockHeight", "blockHash"}
    requires v.fields["registry"] == Str(p.registry) && v.fields["txHash"] == Str(p.txHash)
    requires v.fields["blockHeight"] == Num(p.height) && v.fields["blockHash"] == Str(p.blockHash)
    ensures v == MidnightJson(p)
  {
  }

  lemma SetWritten(sdk: Sdk, network: string, v: Json, p: SetParts)
    requires v.Obj? && v.fields.Keys == {"network", "materiosGenesis", "commitment", "anchorIds", "midnight"}
    requires v.fields["network"] == Str(network) && v.fields["materiosGenesis"] == Str(p.genesis)
    requires v.fields["commitment"] == Str(sdk.commitment(p.genesis, p.ids))
    requires v.fields["anchorIds"] == Arr(Texts(p.ids)) && v.fields["midnight"] == MidnightJson(p)
    ensures v == SetJson(sdk, network, p)
  {
  }

  /** Whatever set is accepted was written from parts that fit. */
  lemma AcceptedSetWasWritten(sdk: Sdk, network: string, body: string) returns (p: SetParts)
    requires SetAbout(sdk, network, body).Some?
    ensures SetFits(p) && IsLowerHex64(sdk.commitment(p.genesis, p.ids))
    ensures sdk.json(body) == Some(SetJson(sdk, network, p))
  {
    var v := sdk.json(body).value;
    var f := v.fields;
    var m := Field(f, "midnight").fields;
    var ids := HashesOf(Field(f, "anchorIds").items).value;
    HashesExactly(Field(f, "anchorIds").items);
    p := SetParts(HashOf(Field(f, "materiosGenesis")).value, ids, HashOf(Field(m, "registry")).value,
      HashOf(Field(m, "txHash")).value, HashOf(Field(m, "blockHash")).value, Field(m, "blockHeight").n);
    MidnightWritten(f["midnight"], p);
    SetWritten(sdk, network, v, p);
  }

  /** A set is accepted exactly if it is written from parts that fit, and is about its ids. */
  lemma SetExactly(sdk: Sdk, network: string, body: string)
    ensures SetAbout(sdk, network, body).Some? <==>
      exists p :: SetFits(p) && IsLowerHex64(sdk.commitment(p.genesis, p.ids))
        && sdk.json(body) == Some(SetJson(sdk, network, p))
    ensures forall p | SetFits(p) && IsLowerHex64(sdk.commitment(p.genesis, p.ids))
        && sdk.json(body) == Some(SetJson(sdk, network, p)) ::
      SetAbout(sdk, network, body) == Some(About(p.genesis, p.registry, p.ids, ""))
  {
    if SetAbout(sdk, network, body).Some? {
      var p := AcceptedSetWasWritten(sdk, network, body);
    }
    forall p | SetFits(p) && IsLowerHex64(sdk.commitment(p.genesis, p.ids))
      && sdk.json(body) == Some(SetJson(sdk, network, p))
      ensures SetAbout(sdk, network, body) == Some(About(p.genesis, p.registry, p.ids, ""))
    {
      SetIsRead(sdk, network, body, p);
    }
  }

  // ------------------------------------------------------------ plans

  /** What a plan says: its batches are entries of an anchor id, a root, a manifest and a snapshot's digest. */
  datatype PlanParts = PlanParts(
    genesis: string, height: int, blockHash: string, registry: string, entries: seq<Entry>)

  predicate EntryFits(sdk: Sdk, e: Entry) {
    && IsLowerHex64(e.id) && IsLowerHex64(e.root) && IsLowerHex64(e.manifest) && IsLowerHex64(e.sha256)
    && sdk.anchor(e.root, e.manifest) == e.id
  }

  predicate PlanFits(sdk: Sdk, p: PlanParts) {
    && IsLowerHex64(p.genesis) && IsLowerHex64(p.registry) && 0 <= p.height <= MAX_SAFE
    && |p.blockHash| == 66 && p.blockHash[..2] == "0x" && IsLowerHex64(p.blockHash[2..])
    && 1 <= |p.entries| <= 64 && forall e | e in p.entries :: EntryFits(sdk, e)
  }

  function BatchJson(e: Entry): Json {
    Obj(map["anchorId" := Str(e.id), "rootHash" := Str(e.root), "manifestHash" := Str(e.manifest)])
  }

  function ReferenceJson(e: Entry): Json {
    Obj(map["anchorId" := Str(e.id), "key" := Str("members/" + e.sha256), "sha256" := Str(e.sha256)])
  }

  function Batches(entries: seq<Entry>): (items: seq<Json>)
    ensures |items| == |entries| && forall i | 0 <= i < |items| :: items[i] == BatchJson(entries[i])
  {
    seq(|entries|, i requires 0 <= i < |entries| => BatchJson(entries[i]))
  }

  function References(entries: seq<Entry>): (items: seq<Json>)
    ensures |items| == |entries| && forall i | 0 <= i < |items| :: items[i] == ReferenceJson(entries[i])
  {
    seq(|entries|, i requires 0 <= i < |entries| => ReferenceJson(entries[i]))
  }

  function CensusJson(p: PlanParts): Json {
    Obj(map["genesis" := Str(p.genesis), "blockHeight" := Num(p.height), "blockHash" := Str(p.blockHash)])
  }

  function EntryJson(sdk: Sdk, p: PlanParts): Json {
    Obj(map["kind" := Num(3), "label" := Str(sdk.commitment(p.genesis, Ids(p.entries))),
            "materiosGenesis" := Str(p.genesis), "batches" := Arr(Batches(p.entries))])
  }

  function PlanBody(sdk: Sdk, p: PlanParts): Json {
    Obj(map["registry" := Str(p.registry), "entries" := Arr([EntryJson(sdk, p)])])
  }

  /** A plan object, labelled with the commitment to its genesis and the ids of its batches. */
  function PlanJson(sdk: Sdk, network: string, p: PlanParts): Json {
    Obj(map["format" := Str("orynq-midnight-plan/v1"), "network" := Str(network), "census" := CensusJson(p),
            "plan" := PlanBody(sdk, p), "snapshots" := Arr(References(p.entries))])
  }

  /** One planned batch and its reference, written and read. */
  lemma EntryExactly(sdk: Sdk, batch: Json, snapshot: Json)
    ensures EntryOf(sdk, batch, snapshot).Some? ==>
      var e := EntryOf(sdk, batch, snapshot).value;
      EntryFits(sdk, e) && batch == BatchJson(e) && snapshot == ReferenceJson(e)
  {
    if EntryOf(sdk, batch, snapshot).Some? {
      var e := EntryOf(sdk, batch, snapshot).value;
      assert batch.fields == BatchJson(e).fields;
      assert snapshot.fields == ReferenceJson(e).fields;
    }
  }

  lemma EntryIsRead(sdk: Sdk, e: Entry)
    requires EntryFits(sdk, e)
    ensures EntryOf(sdk, BatchJson(e), ReferenceJson(e)) == Some(e)
  {
    assert BatchJson(e).fields.Keys == {"anchorId", "rootHash", "manifestHash"};
    assert ReferenceJson(e).fields.Keys == {"anchorId", "key", "sha256"};
  }

  lemma OneMoreEntry(read: EntryReader, batches: seq<Json>, snapshots: seq<Json>, n: nat)
    requires 0 < n <= |batches| == |snapshots|
    ensures var init, last := Entries(read, batches, snapshots, n - 1), read(batches[n - 1], snapshots[n - 1]);
      Entries(read, batches, snapshots, n) == if init.Some? && last.Some? then Some(init.value + [last.value]) else None
  {
  }

  /** Entries that are read one by one as listed are read together as listed. */
  lemma {:induction false} EntriesAreRead(read: EntryReader, batches: seq<Json>, snapshots: seq<Json>,
      entries: seq<Entry>, n: nat)
    requires n <= |entries| == |batches| == |snapshots|
    requires forall i | 0 <= i < |entries| :: read(batches[i], snapshots[i]) == Some(entries[i])
    ensures Entries(read, batches, snapshots, n) == Some(entries[..n])
  {
    if n > 0 {
      EntriesAreRead(read, batches, snapshots, entries, n - 1);
      OneMoreEntry(read, batches, snapshots, n);
      assert entries[..n] == entries[..n - 1] + [entries[n - 1]];
    }
  }

  /** Entries that are read together are read one by one. */
  lemma {:induction false} EntriesWereRead(read: EntryReader, batches: seq<Json>, snapshots: seq<Json>, n: nat, i: nat)
    requires i < n <= |batches| == |snapshots| && Entries(read, batches, snapshots, n).Some?
    ensures read(batches[i], snapshots[i]) == Some(Entries(read, batches, snapshots, n).value[i])
  {
    OneMoreEntry(read, batches, snapshots, n);
    if i < n - 1 {
      EntriesWereRead(read, batches, snapshots, n - 1, i);
    }
  }

  lemma PlanEntriesAreRead(sdk: Sdk, entries: seq<Entry>)
    requires forall e | e in entries :: EntryFits(sdk, e)
    ensures Entries(ReadsEntries(sdk), Batches(entries), References(entries), |entries|) == Some(entries)
  {
    var read := ReadsEntries(sdk);
    forall i | 0 <= i < |entries| ensures read(Batches(entries)[i], References(entries)[i]) == Some(entries[i]) {
      assert entries[i] in entries;
      EntryIsRead(sdk, entries[i]);
    }
    EntriesAreRead(read, Batches(entries), References(entries), entries, |entries|);
    assert entries[..|entries|] == entries;
  }

  /** The first `n` batches and references are what would be written for the entries. */
  ghost predicate Wrote(sdk: Sdk, batches: seq<Json>, snapshots: seq<Json>, entries: seq<Entry>, n: nat)
    requires n <= |batches| == |snapshots| == |entries|
  {
    n == 0 ||
    (&& Wrote(sdk, batches, snapshots, entries, n - 1) && EntryFits(sdk, entries[n - 1])
     && batches[n - 1] == BatchJson(entries[n - 1]) && snapshots[n - 1] == ReferenceJson(entries[n - 1]))
  }

  lemma {:induction false} WroteEach(sdk: Sdk, batches: seq<Json>, snapshots: seq<Json>, entries: seq<Entry>,
      n: nat, i: nat)
    requires i < n <= |batches| == |snapshots| == |entries| && Wrote(sdk, batches, snapshots, entries, n)
    ensures EntryFits(sdk, entries[i])
    ensures batches[i] == BatchJson(entries[i]) && snapshots[i] == ReferenceJson(entries[i])
  {
    if i < n - 1 {
      WroteEach(sdk, batches, snapshots, entries, n - 1, i);
    }
  }

  lemma WroteAll(sdk: Sdk, batches: seq<Json>, snapshots: seq<Json>, entries: seq<Entry>)
    requires |batches| == |snapshots| == |entries| && Wrote(sdk, batches, snapshots, entries, |entries|)
    ensures batches == Batches(entries) && snapshots == References(entries)
    ensures forall e | e in entries :: EntryFits(sdk, e)
  {
    forall i | 0 <= i < |entries|
      ensures EntryFits(sdk, entries[i]) && batches[i] == BatchJson(entries[i])
      ensures snapshots[i] == ReferenceJson(entries[i])
    {
      WroteEach(sdk, batches, snapshots, entries, |entries|, i);
    }
  }

  lemma EntryWasWritten(sdk: Sdk, batches: seq<Json>, snapshots: seq<Json>, entries: seq<Entry>, i: nat)
    requires i < |batches| == |snapshots| == |entries|
    requires Entries(ReadsEntries(sdk), batches, snapshots, |batches|) == Some(entries)
    ensures EntryFits(sdk, entries[i])
    ensures batches[i] == BatchJson(entries[i]) && snapshots[i] == ReferenceJson(entries[i])
  {
    EntriesWereRead(ReadsEntries(sdk), batches, snapshots, |batches|, i);
    assert EntryOf(sdk, batches[i], snapshots[i]) == Some(entries[i]);
    EntryExactly(sdk, batches[i], snapshots[i]);
  }

  lemma {:induction false} EntriesWereWritten(sdk: Sdk, batches: seq<Json>, snapshots: seq<Json>,
      entries: seq<Entry>, n: nat)
    requires n <= |batches| == |snapshots| == |entries|
    requires Entries(ReadsEntries(sdk), batches, snapshots, |batches|) == Some(entries)
    ensures Wrote(sdk, batches, snapshots, entries, n)
  {
    if n > 0 {
      EntriesWereWritten(sdk, batches, snapshots, entries, n - 1);
      EntryWasWritten(sdk, batches, snapshots, entries, n - 1);
    }
  }

  function OutlineWritten(sdk: Sdk, p: PlanParts): Outline {
    Outline(p.genesis, p.height, p.registry, Str(sdk.commitment(p.genesis, Ids(p.entries))), Batches(p.entries),
      References(p.entries))
  }

  lemma PlanKeys(sdk: Sdk, network: string, p: PlanParts)
    ensures PlanJson(sdk, network, p).fields.Keys == {"format", "network", "census", "plan", "snapshots"}
    ensures CensusJson(p).fields.Keys == {"genesis", "blockHeight", "blockHash"}
    ensures PlanBody(sdk, p).fields.Keys == {"registry", "entries"}
    ensures EntryJson(sdk, p).fields.Keys == {"kind", "label", "materiosGenesis", "batches"}
  {
  }

  lemma EntryOutlineIsRead(sdk: Sdk, network: string, p: PlanParts)
    requires PlanFits(sdk, p)
    ensures EntryOutline(PlanJson(sdk, network, p).fields, p.genesis, p.height, p.registry, EntryJson(sdk, p)) ==
      Some(OutlineWritten(sdk, p))
  {
    PlanKeys(sdk, network, p);
  }

  lemma OutlineIsRead(sdk: Sdk, network: string, body: string, p: PlanParts)
    requires PlanFits(sdk, p) && sdk.json(body) == Some(PlanJson(sdk, network, p))
    ensures OutlineOf(sdk, network, body) == Some(OutlineWritten(sdk, p))
  {
    PlanKeys(sdk, network, p);
    EntryOutlineIsRead(sdk, network, p);
    assert p.blockHash[0] == p.blockHash[..2][0] && p.blockHash[1] == p.blockHash[..2][1];
  }

  lemma PlanIsRead(sdk: Sdk, network: string, body: string, p: PlanParts)
    requires PlanFits(sdk, p) && IsLowerHex64(sdk.commitment(p.genesis, Ids(p.entries)))
    requires sdk.json(body) == Some(PlanJson(sdk, network, p))
    ensures PlanAbout(sdk, network, body) ==
      Some(About(p.genesis, p.registry, [sdk.commitment(p.genesis, Ids(p.entries))], ""))
  {
    OutlineIsRead(sdk, network, body, p);
    PlanEntriesAreRead(sdk, p.entries);
  }

  lemma CensusWritten(v: Json, p: PlanParts)
    requires v.Obj? && v.fields.Keys == {"genesis", "blockHeight", "blockHash"}
    requires v.fields["genesis"] == Str(p.genesis) && v.fields["blockHeight"] == Num(p.height)
    requires v.fields["blockHash"] == Str(p.blockHash)
    ensures v == CensusJson(p)
  {
  }

  lemma EntryWritten(sdk: Sdk, v: Json, p: PlanParts)
    requires v.Obj? && v.fields.Keys == {"kind", "label", "materiosGenesis", "batches"}
    requires v.fields["kind"] == Num(3) && v.fields["materiosGenesis"] == Str(p.genesis)
    requires v.fields["label"] == Str(sdk.commitment(p.genesis, Ids(p.entries)))
    requires v.fields["batches"] == Arr(Batches(p.entries))
    ensures v == EntryJson(sdk, p)
  {
  }

  lemma PlanWritten(sdk: Sdk, network: string, v: Json, p: PlanParts)
    requires v.Obj? && v.fields.Keys == {"format", "network", "census", "plan", "snapshots"}
    requires v.fields["format"] == Str("orynq-midnight-plan/v1") && v.fields["network"] == Str(network)
    requires v.fields["census"] == CensusJson(p) && v.fields["snapshots"] == Arr(References(p.entries))
    requires v.fields["plan"].Obj? && v.fields["plan"].fields.Keys == {"registry", "entries"}
    requires v.fields["plan"].fields["registry"] == Str(p.registry)
    requires v.fields["plan"].fields["entries"] == Arr([EntryJson(sdk, p)])
    ensures v == PlanJson(sdk, network, p)
  {
    assert v.fields["plan"].fields == PlanBody(sdk, p).fields;
  }

  /** Whatever plan is accepted was written from parts that fit. */
  lemma AcceptedPlanWasWritten(sdk: Sdk, network: string, body: string) returns (p: PlanParts)
    requires PlanAbout(sdk, network, body).Some?
    ensures PlanFits(sdk, p) && IsLowerHex64(sdk.commitment(p.genesis, Ids(p.entries)))
    ensures sdk.json(body) == Some(PlanJson(sdk, network, p))
  {
    var outline := OutlineOf(sdk, network, body).value;
    var entries := PlanEntries(sdk, outline).value;
    EntriesWereWritten(sdk, outline.batches, outline.snapshots, entries, |entries|);
    WroteAll(sdk, outline.batches, outline.snapshots, entries);
    p := PartsOf(sdk, network, body, outline, entries);
  }

  lemma PartsOf(sdk: Sdk, network: string, body: string, outline: Outline, entries: seq<Entry>) returns (p: PlanParts)
    requires OutlineOf(sdk, network, body) == Some(outline)
    requires outline.batches == Batches(entries) && outline.snapshots == References(entries)
    requires outline.commit == Str(sdk.commitment(outline.genesis, Ids(entries)))
    requires forall e | e in entries :: EntryFits(sdk, e)
    ensures PlanFits(sdk, p) && p.genesis == outline.genesis && p.entries == entries
    ensures sdk.json(body) == Some(PlanJson(sdk, network, p))
  {
    var v := sdk.json(body).value;
    var census, plan := v.fields["census"], v.fields["plan"];
    var items := plan.fields["entries"].items;
    p := PlanParts(outline.genesis, outline.height, census.fields["blockHash"].s, outline.registry, entries);
    CensusWritten(census, p);
    EntryWritten(sdk, items[0], p);
    assert items == [EntryJson(sdk, p)];
    assert p.blockHash[..2] == "0x";
    PlanWritten(sdk, network, v, p);
  }

  /** A plan is accepted exactly if it is written from parts that fit, and is about its commitment. */
  lemma PlanExactly(sdk: Sdk, network: string, body: string)
    ensures PlanAbout(sdk, network, body).Some? <==>
      exists p :: PlanFits(sdk, p) && IsLowerHex64(sdk.commitment(p.genesis, Ids(p.entries)))
        && sdk.json(body) == Some(PlanJson(sdk, network, p))
    ensures forall p | PlanFits(sdk, p) && IsLowerHex64(sdk.commitment(p.genesis, Ids(p.entries)))
        && sdk.json(body) == Some(PlanJson(sdk, network, p)) ::
      PlanAbout(sdk, network, body) ==
        Some(About(p.genesis, p.registry, [sdk.commitment(p.genesis, Ids(p.entries))], ""))
  {
    if PlanAbout(sdk, network, body).Some? {
      var p := AcceptedPlanWasWritten(sdk, network, body);
    }
    forall p | PlanFits(sdk, p) && IsLowerHex64(sdk.commitment(p.genesis, Ids(p.entries)))
      && sdk.json(body) == Some(PlanJson(sdk, network, p))
      ensures PlanAbout(sdk, network, body) ==
        Some(About(p.genesis, p.registry, [sdk.commitment(p.genesis, Ids(p.entries))], ""))
    {
      PlanIsRead(sdk, network, body, p);
    }
  }
}
