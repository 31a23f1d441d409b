/**
 * What a merge leaves of the two records, stated field by field: src/batch-record.ts, lines
 * 60-85. Of the three fields that name a record's first Cardano claim the earlier writer's stay,
 * of all others the later writer's; and the claims of both are listed, the earlier ones first.
 */
module BatchMerge {
  import opened Common
  import opened Hex
  import opened Json
  import opened BatchRecord
  import opened BatchRuns
  import opened BatchStore

  predicate IsClaimField(name: string) {
    name == "cardanoNetwork" || name == "cardanoTxHash" || name == "cardanoSubmittedAt"
  }

  /** The record has a value under this name: neither null nor the empty text. */
  predicate States(r: Fields, name: string) {
    name in r && !r[name].Undefined? && !r[name].Null? && r[name] != Str("")
  }

  lemma KeepOne(previous: Fields, merged: Fields, field: string, name: string)
    ensures var r := Keep(previous, merged, field);
      && (name == field && States(previous, field) ==> name in r && r[name] == previous[name])
      && (!(name == field && States(previous, field)) ==>
            (name in r <==> name in merged) && (name in r ==> r[name] == merged[name]))
  {
  }

  /** The merged record before its claims are listed. */
  lemma MergedFieldsAt(previous: Fields, incoming: Fields, name: string)
    ensures var r := MergedFields(previous, incoming);
      if IsClaimField(name) && States(previous, name) then name in r && r[name] == previous[name]
      else if name in incoming then name in r && r[name] == incoming[name]
      else (name in r <==> name in previous) && (name in r ==> r[name] == previous[name])
  {
    var network := Keep(previous, previous + incoming, "cardanoNetwork");
    var tx := Keep(previous, network, "cardanoTxHash");
    KeepOne(previous, previous + incoming, "cardanoNetwork", name);
    KeepOne(previous, network, "cardanoTxHash", name);
    KeepOne(previous, tx, "cardanoSubmittedAt", name);
  }

  /**
   * Which writer's fields a merged record has: the earlier record's network, transaction and
   * time wherever it states them, else the incoming record's value, else the earlier one's;
   * and no field that neither has.
   */
  lemma MergeKeepsFields(o: Oracles, previous: Fields, incoming: Fields, name: string)
    requires Merge(o, previous, incoming).Ok? && name != "cardanoClaims"
    ensures var r := Merge(o, previous, incoming).value;
      if IsClaimField(name) && States(previous, name) then name in r && r[name] == previous[name]
      else if name in incoming then name in r && r[name] == incoming[name]
      else (name in r <==> name in previous) && (name in r ==> r[name] == previous[name])
  {
    MergedFieldsAt(previous, incoming, name);
    ListElsewhere(o, previous, incoming, name);
  }

  lemma ListElsewhere(o: Oracles, previous: Fields, incoming: Fields, name: string)
    requires name != "cardanoClaims"
    ensures var r, m := WithClaims(o, previous, incoming), MergedFields(previous, incoming);
      (name in r <==> name in m) && (name in r ==> r[name] == m[name])
  {
    var list := Arr(StoredAll(JoinedClaims(o, previous, incoming)));
    var m := MergedFields(previous, incoming);
    assert name in m["cardanoClaims" := list] <==> name in m;
  }

  // ------------------------------------------------------------ the claims a merged record lists

  /** A claim that reads back from what is stored for it. */
  predicate ReadsBack(o: Oracles, c: CardanoClaim) { ClaimIn(o, Stored(c)) == Some(c) }

  predicate AllReadBack(o: Oracles, claims: seq<CardanoClaim>) { forall c | c in claims :: ReadsBack(o, c) }

  predicate DifferentTxs(claims: seq<CardanoClaim>) {
    forall i, j | 0 <= i < j < |claims| :: claims[i].key != claims[j].key
  }

  /** The claims of transactions that are not among these. */
  function Unclaimed(claims: seq<CardanoClaim>, keys: set<ClaimKey>): seq<CardanoClaim> {
    if claims == [] then []
    else
      var init, last := Unclaimed(claims[..|claims| - 1], keys), claims[|claims| - 1];
      if last.key in keys then init else init + [last]
  }

  lemma ClaimReadsBack(o: Oracles, candidate: Json)
    requires ClaimIn(o, candidate).Some?
    ensures ReadsBack(o, ClaimIn(o, candidate).value)
  {
    var c := ClaimIn(o, candidate).value;
    assert "mainnet"[0] != "preprod"[0];
    assert KeyNamed(Stored(c).fields) == Some(c.key);
  }

  lemma {:induction false} ReadClaimsAreSound(o: Oracles, candidates: seq<Json>)
    ensures AllReadBack(o, Distinct(o, candidates)) && DifferentTxs(Distinct(o, candidates))
  {
    if candidates != [] {
      var init := candidates[..|candidates| - 1];
      ReadClaimsAreSound(o, init);
      var last := ClaimIn(o, candidates[|candidates| - 1]);
      if last.Some? {
        ClaimReadsBack(o, candidates[|candidates| - 1]);
        forall c | c in Distinct(o, init) ensures c.key in Keys(Distinct(o, init)) {
          KeyOfMember(Distinct(o, init), c);
        }
      }
    }
  }

  lemma {:induction false} KeysOfUnclaimed(claims: seq<CardanoClaim>, keys: set<ClaimKey>, k: ClaimKey)
    requires k in Keys(Unclaimed(claims, keys))
    ensures exists i :: 0 <= i < |claims| && claims[i].key == k
  {
    var init, last := claims[..|claims| - 1], claims[|claims| - 1];
    var rest := Unclaimed(init, keys);
    if last.key !in keys { assert (rest + [last])[..|rest|] == rest; }
    if last.key != k || last.key in keys { KeysOfUnclaimed(init, keys, k); }
  }

  lemma {:induction false} KeysOfBoth(a: seq<CardanoClaim>, b: seq<CardanoClaim>)
    ensures Keys(a + b) == Keys(a) + Keys(b)
  {
    if b == [] {
      assert a + b == a;
    } else {
      KeysOfBoth(a, b[..|b| - 1]);
      assert (a + b)[..|a + b| - 1] == a + b[..|b| - 1];
    }
  }

  lemma OneMoreStored(o: Oracles, candidates: seq<Json>, c: CardanoClaim)
    requires ReadsBack(o, c)
    ensures var first := Distinct(o, candidates);
      Distinct(o, candidates + [Stored(c)]) == if c.key in Keys(first) then first else first + [c]
  {
    var more := candidates + [Stored(c)];
    assert more[..|more| - 1] == candidates && more[|more| - 1] == Stored(c);
  }

  lemma StoredOneMore(claims: seq<CardanoClaim>)
    requires claims != []
    ensures StoredAll(claims) == StoredAll(claims[..|claims| - 1]) + [Stored(claims[|claims| - 1])]
  {
  }

  lemma FollowsOne(first: seq<CardanoClaim>, claims: seq<CardanoClaim>)
    requires claims != [] && DifferentTxs(claims)
    ensures var init, last := claims[..|claims| - 1], claims[|claims| - 1];
      var before := first + Unclaimed(init, Keys(first));
      first + Unclaimed(claims, Keys(first)) == if last.key in Keys(before) then before else before + [last]
  {
    var init, last := claims[..|claims| - 1], claims[|claims| - 1];
    var rest := Unclaimed(init, Keys(first));
    KeysOfBoth(first, rest);
    if last.key in Keys(rest) { KeysOfUnclaimed(init, Keys(first), last.key); }
    assert first + (rest + [last]) == first + rest + [last];
  }

  /** Stored claims read after other candidates: those of transactions not read yet, in their order. */
  lemma {:induction false} StoredClaimsFollow(o: Oracles, candidates: seq<Json>, claims: seq<CardanoClaim>)
    requires AllReadBack(o, claims) && DifferentTxs(claims)
    ensures var first := Distinct(o, candidates);
      Distinct(o, candidates + StoredAll(claims)) == first + Unclaimed(claims, Keys(first))
    decreases |claims|
  {
    if claims == [] {
      assert candidates + StoredAll(claims) == candidates;
    } else {
      var init, last := claims[..|claims| - 1], claims[|claims| - 1];
      StoredClaimsFollow(o, candidates, init);
      assert last in claims && ReadsBack(o, last);
      StoredOneMore(claims);
      assert candidates + StoredAll(claims) == candidates + StoredAll(init) + [Stored(last)];
      OneMoreStored(o, candidates + StoredAll(init), last);
      FollowsOne(Distinct(o, candidates), claims);
    }
  }

  lemma {:induction false} NothingClaimedYet(claims: seq<CardanoClaim>)
    ensures Unclaimed(claims, {}) == claims
  {
    if claims != [] {
      NothingClaimedYet(claims[..|claims| - 1]);
      assert claims == claims[..|claims| - 1] + [claims[|claims| - 1]];
    }
  }

  lemma NoneRead(o: Oracles, head: Json)
    requires ClaimIn(o, head).None?
    ensures Distinct(o, [head]) == []
  {
    var one := [head];
    assert one[..0] == [];
  }

  lemma OwnClaimsComeFirst(o: Oracles, head: Json, mine: seq<CardanoClaim>)
    requires ClaimIn(o, head).None? && AllReadBack(o, mine) && DifferentTxs(mine)
    ensures Distinct(o, [head] + StoredAll(mine)) == mine
  {
    NoneRead(o, head);
    StoredClaimsFollow(o, [head], mine);
    NothingClaimedYet(mine);
    assert Keys([]) == {};
  }

  lemma Regrouped(head: Json, a: seq<Json>, b: seq<Json>)
    ensures [head] + (a + b) == [head] + a + b
  {
  }

  lemma StoredClaimsJoin(o: Oracles, head: Json, mine: seq<CardanoClaim>, theirs: seq<CardanoClaim>)
    requires ClaimIn(o, head).None?
    requires AllReadBack(o, mine) && DifferentTxs(mine) && AllReadBack(o, theirs) && DifferentTxs(theirs)
    ensures Distinct(o, [head] + (StoredAll(mine) + StoredAll(theirs))) == mine + Unclaimed(theirs, Keys(mine))
  {
    OwnClaimsComeFirst(o, head, mine);
    StoredClaimsFollow(o, [head] + StoredAll(mine), theirs);
    Regrouped(head, StoredAll(mine), StoredAll(theirs));
  }

  lemma ListClaimsNothing(o: Oracles, list: Json)
    ensures ClaimIn(o, Obj(map["cardanoClaims" := list])).None?
  {
  }

  /** The joined claims: all of the earlier record, then those of the other for transactions it does not claim. */
  lemma JoinedExactly(o: Oracles, previous: Fields, incoming: Fields)
    ensures JoinedClaims(o, previous, incoming) ==
      Claims(o, previous) + Unclaimed(Claims(o, incoming), ClaimedTxs(o, previous))
  {
    var mine, theirs := Claims(o, previous), Claims(o, incoming);
    ReadClaimsAreSound(o, Candidates(previous));
    ReadClaimsAreSound(o, Candidates(incoming));
    var list := StoredAll(mine) + StoredAll(theirs);
    ListClaimsNothing(o, Arr(list));
    StoredClaimsJoin(o, Obj(map["cardanoClaims" := Arr(list)]), mine, theirs);
    assert Candidates(map["cardanoClaims" := Arr(list)]) == [Obj(map["cardanoClaims" := Arr(list)])] + list;
  }

  /**
   * A merged record lists every claim of the earlier record with its own time, then the other
   * record's claims of further transactions; it is refused exactly when these are more than 32
   * or its text is longer than 2 MiB.
   */
  lemma MergeListsClaims(o: Oracles, previous: Fields, incoming: Fields)
    ensures var claims := Claims(o, previous) + Unclaimed(Claims(o, incoming), ClaimedTxs(o, previous));
      var r := Merge(o, previous, incoming);
      && (r.Ok? ==> |claims| <= 32 && o.size(r.value) <= 2_097_152)
      && (r.Ok? && claims != [] ==> Field(r.value, "cardanoClaims") == Arr(StoredAll(claims)))
      && (|claims| > 32 ==> r == Err(OverCapacity))
      && (r.Err? ==> r.error.OverCapacity?)
  {
    JoinedExactly(o, previous, incoming);
  }

  // ------------------------------------------------------------ what later saves cannot change

  /** A save of an id merges into the file of that name. */
  lemma SaveMergesIntoFile(o: Oracles, w: World, e: Event, k: string)
    requires e.Save? && Canonical(e.anchorId) == k && k in w.store.files && w.store.files[k].Record?
    ensures Writes(o, w, e) ==>
      e.metadata.Obj? && Merge(o, w.store.files[k].fields, e.metadata.fields) == Ok(EntryOf(o, w, e).fields)
  {
  }

  /** A save over the file of an id keeps what the file states of its first claim. */
  lemma SaveKeepsStated(o: Oracles, w: World, e: Event, k: string, name: string)
    requires e.Save? && IsLowerHex64(k) && IsClaimField(name)
    requires k in w.store.files && w.store.files[k].Record? && States(w.store.files[k].fields, name)
    ensures var files := Next(o, w, e).store.files;
      k in files && files[k].Record? && States(files[k].fields, name)
      && files[k].fields[name] == w.store.files[k].fields[name]
  {
    if Writes(o, w, e) {
      var x := EntryOf(o, w, e);
      WrittenFiles(o, w.store, x.id, x.fields, e.crash);
      if x.id == k {
        SaveMergesIntoFile(o, w, e, k);
        MergeKeepsFields(o, w.store.files[k].fields, e.metadata.fields, name);
      }
    }
  }

  lemma StepKeepsStated(o: Oracles, w: World, e: Event, k: string, name: string)
    requires Possible(w, e) && IsLowerHex64(k) && IsClaimField(name)
    requires k in w.store.files && w.store.files[k].Record? && States(w.store.files[k].fields, name)
    ensures var files := Next(o, w, e).store.files;
      k in files && files[k].Record? && States(files[k].fields, name)
      && files[k].fields[name] == w.store.files[k].fields[name]
  {
    match e
    case Save(_, _, _) => SaveKeepsStated(o, w, e, k, name);
    case ListFiles(_, _) =>
    case IndexListed(p) => BackfillFiles(w.store, w.listings[p], |w.listings[p]|);
    case SaveClaim(id, value) => ClaimKeeps(o, w.store, id, value);
  }

  /**
   * Once the file of an id states a network, a transaction or a time at its top level, no run of
   * saves, crashes and backfills by any processes changes it.
   */
  lemma {:induction false} StatedClaimStays(o: Oracles, w: World, es: seq<Event>, k: string, name: string)
    requires CanRun(o, w, es) && IsLowerHex64(k) && IsClaimField(name)
    requires k in w.store.files && w.store.files[k].Record? && States(w.store.files[k].fields, name)
    ensures var files := After(o, w, es).store.files;
      k in files && files[k].Record? && States(files[k].fields, name)
      && files[k].fields[name] == w.store.files[k].fields[name]
    decreases |es|
  {
    if es != [] {
      StatedClaimStays(o, w, es[..|es| - 1], k, name);
      StepKeepsStated(o, After(o, w, es[..|es| - 1]), es[|es| - 1], k, name);
    }
  }
}
