/**
 * src/batch-record.ts: which batch records are stored, and how a saved record is merged with
 * the one already on disk. A record is a JSON object; its hashes come from an SDK that is not
 * part of this model, so they are the functions of `Oracles` and nothing is assumed of them.
 */
module BatchRecord {
  import opened Common
  import opened Hex
  import opened Json
  import Merkle

  type Fields = map<string, Json>

  /** The checkpoint manifest an anchor id commits to. */
  datatype Manifest = Manifest(network: string, count: nat, from: int, genesis: string, root: string, to: int)

  /**
   * `pair` is sha256 of two concatenated digests, `manifest` the SDK's manifest hash and
   * `anchor` its anchor id of a root and a manifest hash; all print 64 hex digits. `size` is
   * the byte length of a record's JSON text and `isDate` whether Date.parse reads a text.
   */
  datatype Oracles = Oracles(
    pair: (string, string) -> string,
    manifest: Manifest -> string,
    anchor: (string, string) -> string,
    size: Fields -> nat,
    isDate: string -> bool)

  datatype Refusal = Malformed | OverCapacity

  const BATCH_BYTE_BUDGET: nat := 2 * 1024 * 1024
  const MAX_LEAVES: nat := 4096
  const MAX_CLAIMS: nat := 32

  // ------------------------------------------------------------ validateBatch

  function Hash(v: Json): Option<string> { if v.Str? then Hash32(v.s) else None }

  /** The hashes of a list, unless one of them is malformed. */
  function Hashes(items: seq<Json>): (r: Option<seq<string>>)
    ensures r.Some? ==> |r.value| == |items|
    ensures r.Some? ==> forall i | 0 <= i < |items| :: Hash(items[i]) == Some(r.value[i])
  {
    if items == [] then Some([])
    else
      var init, last := Hashes(items[..|items| - 1]), Hash(items[|items| - 1]);
      if init.Some? && last.Some? then Some(init.value + [last.value]) else None
  }

  function Root(r: Fields): Option<string> { Hash(Field(r, "rootHash")) }

  /** The batch's leaves: between 1 and 4096 hashes, as many as it says. */
  function LeafHashes(r: Fields): (leaves: Option<seq<string>>)
    ensures leaves.Some? ==> 1 <= |leaves.value| <= MAX_LEAVES && Field(r, "leafCount") == Num(|leaves.value|)
  {
    var l := Field(r, "leafHashes");
    if !l.Arr? || Field(r, "leafCount") != Num(|l.items|) || !(1 <= |l.items| <= MAX_LEAVES) then None
    else Hashes(l.items)
  }

  function Blocks(r: Fields): Option<(int, int)> {
    var start, end := Field(r, "blockRangeStart"), Field(r, "blockRangeEnd");
    if IsSafeInt(start) && IsSafeInt(end) && 0 <= start.n <= end.n then Some((start.n, end.n)) else None
  }

  const GENESIS: seq<string> := [
    "0e46e33f639a56cc" + "8780fd871d9a15e1" + "6d99af248526f907" + "cb560cb40849f7bf",
    "bc0531cb31128156" + "5036fb397a376f0e" + "0fa37005589655f9" + "7a7924b2729a164c"]

  function Present(values: seq<Json>): seq<Json> {
    if values == [] then []
    else if values[0].Undefined? then Present(values[1..])
    else [values[0]] + Present(values[1..])
  }

  /** The geneses to try: the one the record states, or both that are known when it states none. */
  function Geneses(r: Fields): Option<seq<string>> {
    var stated := Hashes(Present([Field(r, "materiosGenesis"), Field(r, "genesis"), Field(r, "materios_chain_id")]));
    if stated.None? then None
    else if stated.value == [] then Some(GENESIS)
    else if forall i | 0 <= i < |stated.value| :: stated.value[i] == stated.value[0] then Some(stated.value[..1])
    else None
  }

  function Network(r: Fields): Option<string> {
    var n := Field(r, "cardanoNetworkId");
    if n.Undefined? || n.Null? then Some("") else if n.Str? then Some(n.s) else None
  }

  function ManifestOf(r: Fields, genesis: string): Option<Manifest> {
    if Network(r).None? || LeafHashes(r).None? || Blocks(r).None? || Root(r).None? then None
    else Some(Manifest(Network(r).value, |LeafHashes(r).value|, Blocks(r).value.0, genesis, Root(r).value,
      Blocks(r).value.1))
  }

  predicate StatedHashesFit(key: string, r: Fields) {
    && (Field(r, "anchorId").Undefined? || Hash(Field(r, "anchorId")) == Some(key))
    && (Field(r, "manifestHash").Undefined? || Hash(Field(r, "manifestHash")).Some?)
  }

  /** The manifest over `genesis` derives the key, and is the stated one when one is stated. */
  predicate Derives(o: Oracles, key: string, r: Fields, genesis: string) {
    && ManifestOf(r, genesis).Some?
    && (Field(r, "manifestHash").Undefined?
        || Hash(Field(r, "manifestHash")) == Some(o.manifest(ManifestOf(r, genesis).value)))
    && o.anchor(Root(r).value, o.manifest(ManifestOf(r, genesis).value)) == key
  }

  predicate TreeFits(o: Oracles, r: Fields) {
    LeafHashes(r).Some? && Root(r).Some? && Merkle.Root(o.pair, Merkle.ZeroRoot(), LeafHashes(r).value) == Root(r).value
  }

  /** A record that may be stored under `key`. */
  ghost predicate Valid(o: Oracles, key: string, r: Fields) {
    && StatedHashesFit(key, r)
    && TreeFits(o, r)
    && Geneses(r).Some?
    && exists i :: 0 <= i < |Geneses(r).value| && Derives(o, key, r, Geneses(r).value[i])
  }

  /** `validateBatch`: tries one genesis after another. */
  method ValidateBatch(o: Oracles, key: string, r: Fields) returns (ok: bool)
    ensures ok <==> Valid(o, key, r)
  {
    if !StatedHashesFit(key, r) || !TreeFits(o, r) || Geneses(r).None? {
      return false;
    }
    var geneses := Geneses(r).value;
    var i := 0;
    while i < |geneses|
      invariant 0 <= i <= |geneses|
      invariant forall j | 0 <= j < i :: !Derives(o, key, r, geneses[j])
    {
      if Derives(o, key, r, geneses[i]) {
        return true;
      }
      i := i + 1;
    }
    ok := false;
  }

  // ------------------------------------------------------------ the id binds the batch

  /** Why two batches share an id: they are one batch, or some hash has a collision. */
  datatype Clash =
    | SameBatch
    | AnchorClash(root0: string, digest0: string, root1: string, digest1: string)
    | ManifestClash(left: Manifest, right: Manifest)
    | MerkleClash(collision: Merkle.Collision<string>)

  predicate Witnessed(o: Oracles, c: Clash) {
    match c
    case SameBatch => true
    case AnchorClash(root0, digest0, root1, digest1) =>
      (root0, digest0) != (root1, digest1) && o.anchor(root0, digest0) == o.anchor(root1, digest1)
    case ManifestClash(left, right) => left != right && o.manifest(left) == o.manifest(right)
    case MerkleClash(collision) => Merkle.Collides(o.pair, collision)
  }

  /** The same root, leaves, network and block range. */
  predicate SameContent(a: Fields, b: Fields) {
    Root(a) == Root(b) && LeafHashes(a) == LeafHashes(b) && Blocks(a) == Blocks(b) && Network(a) == Network(b)
  }

  /** Two valid records of one id have one content, or the returned inputs collide under a hash. */
  function Compare(o: Oracles, key: string, a: Fields, b: Fields, ga: string, gb: string): (c: Clash)
    requires TreeFits(o, a) && Derives(o, key, a, ga)
    requires TreeFits(o, b) && Derives(o, key, b, gb)
    ensures Witnessed(o, c)
    ensures c.SameBatch? ==> SameContent(a, b) && ga == gb
  {
    var ma, mb := ManifestOf(a, ga).value, ManifestOf(b, gb).value;
    if (Root(a).value, o.manifest(ma)) != (Root(b).value, o.manifest(mb)) then
      AnchorClash(Root(a).value, o.manifest(ma), Root(b).value, o.manifest(mb))
    else if ma != mb then ManifestClash(ma, mb)
    else if LeafHashes(a).value != LeafHashes(b).value then
      MerkleClash(Merkle.FindCollision(o.pair, Merkle.ZeroRoot(), LeafHashes(a).value, LeafHashes(b).value))
    else SameBatch
  }

  /** A re-save under one id cannot change the batch without a hash collision. */
  lemma IdBindsBatch(o: Oracles, key: string, a: Fields, b: Fields) returns (c: Clash)
    requires Valid(o, key, a) && Valid(o, key, b)
    ensures Witnessed(o, c)
    ensures c.SameBatch? ==> SameContent(a, b)
  {
    var i :| 0 <= i < |Geneses(a).value| && Derives(o, key, a, Geneses(a).value[i]);
    var j :| 0 <= j < |Geneses(b).value| && Derives(o, key, b, Geneses(b).value[j]);
    c := Compare(o, key, a, b, Geneses(a).value[i], Geneses(b).value[j]);
  }

  // ------------------------------------------------------------ Cardano claims

  datatype ClaimKey = ClaimKey(mainnet: bool, tx: string)
  datatype CardanoClaim = CardanoClaim(key: ClaimKey, submittedAt: Option<string>)

  /** The transaction an object names, if it names one on a known network. */
  function KeyNamed(r: Fields): Option<ClaimKey> {
    var network, tx := Field(r, "cardanoNetwork"), Hash(Field(r, "cardanoTxHash"));
    if (network == Str("mainnet") || network == Str("preprod")) && tx.Some?
    then Some(ClaimKey(network == Str("mainnet"), tx.value)) else None
  }

  function ClaimIn(o: Oracles, candidate: Json): Option<CardanoClaim> {
    if !candidate.Obj? || KeyNamed(candidate.fields).None? then None
    else
      var at := Field(candidate.fields, "cardanoSubmittedAt");
      Some(CardanoClaim(KeyNamed(candidate.fields).value,
                        if at.Str? && |at.s| <= 64 && o.isDate(at.s) then Some(at.s) else None))
  }

  function Keys(claims: seq<CardanoClaim>): set<ClaimKey> {
    if claims == [] then {} else Keys(claims[..|claims| - 1]) + {claims[|claims| - 1].key}
  }

  /** The claims a list of candidates makes, the first of each transaction. */
  function Distinct(o: Oracles, candidates: seq<Json>): seq<CardanoClaim> {
    if candidates == [] then []
    else
      var init, last := Distinct(o, candidates[..|candidates| - 1]), ClaimIn(o, candidates[|candidates| - 1]);
      if last.None? || last.value.key in Keys(init) then init else init + [last.value]
  }

  function Listed(r: Fields): seq<Json> {
    if Field(r, "cardanoClaims").Arr? then Field(r, "cardanoClaims").items else []
  }

  function Candidates(r: Fields): seq<Json> { [Obj(r)] + Listed(r) }

  function Claims(o: Oracles, r: Fields): seq<CardanoClaim> { Distinct(o, Candidates(r)) }

  /** `cardanoClaims`, which fills a map in insertion order. */
  method CardanoClaims(o: Oracles, r: Fields) returns (claims: seq<CardanoClaim>)
    ensures claims == Claims(o, r)
  {
    var candidates := Candidates(r);
    claims := [];
    var i := 0;
    while i < |candidates|
      invariant 0 <= i <= |candidates|
      invariant claims == Distinct(o, candidates[..i])
    {
      assert candidates[..i + 1][..i] == candidates[..i];
      var claim := ClaimIn(o, candidates[i]);
      if claim.Some? && claim.value.key !in Keys(claims) {
        claims := claims + [claim.value];
      }
      i := i + 1;
    }
    assert candidates[..i] == candidates;
  }

  /** The transactions a record claims. */
  function ClaimedTxs(o: Oracles, r: Fields): set<ClaimKey> { Keys(Claims(o, r)) }

  /** The transactions a list of candidates names. */
  function KeysIn(o: Oracles, candidates: seq<Json>): set<ClaimKey> {
    if candidates == [] then {}
    else
      var last := ClaimIn(o, candidates[|candidates| - 1]);
      KeysIn(o, candidates[..|candidates| - 1]) + (if last.Some? then {last.value.key} else {})
  }

  lemma {:induction false} DistinctKeys(o: Oracles, candidates: seq<Json>)
    ensures Keys(Distinct(o, candidates)) == KeysIn(o, candidates)
  {
    if candidates != [] {
      var init := candidates[..|candidates| - 1];
      DistinctKeys(o, init);
      var last := ClaimIn(o, candidates[|candidates| - 1]);
      if last.Some? {
        assert (Distinct(o, init) + [last.value])[..|Distinct(o, init)|] == Distinct(o, init);
      }
    }
  }

  /** Every transaction is claimed once, as the first candidate naming it does. */
  lemma {:induction false} FirstClaimWins(o: Oracles, candidates: seq<Json>, j: nat)
    requires j < |candidates| && ClaimIn(o, candidates[j]).Some?
    requires forall i | 0 <= i < j && ClaimIn(o, candidates[i]).Some? ::
      ClaimIn(o, candidates[i]).value.key != ClaimIn(o, candidates[j]).value.key
    ensures ClaimIn(o, candidates[j]).value in Distinct(o, candidates)
    ensures forall c | c in Distinct(o, candidates) && c.key == ClaimIn(o, candidates[j]).value.key ::
      c == ClaimIn(o, candidates[j]).value
    decreases |candidates|
  {
    var init, claim := candidates[..|candidates| - 1], ClaimIn(o, candidates[j]).value;
    DistinctKeys(o, init);
    forall c | c in Distinct(o, init) ensures c.key in KeysIn(o, init) { KeyOfMember(Distinct(o, init), c); }
    if j < |init| {
      FirstClaimWins(o, init, j);
      assert claim.key in KeysIn(o, init);
    } else {
      NotNamed(o, init, claim.key);
    }
  }

  lemma {:induction false} KeyOfMember(claims: seq<CardanoClaim>, c: CardanoClaim)
    requires c in claims
    ensures c.key in Keys(claims)
  {
    if c != claims[|claims| - 1] { KeyOfMember(claims[..|claims| - 1], c); }
  }

  lemma {:induction false} NotNamed(o: Oracles, candidates: seq<Json>, k: ClaimKey)
    requires forall i | 0 <= i < |candidates| && ClaimIn(o, candidates[i]).Some? ::
      ClaimIn(o, candidates[i]).value.key != k
    ensures k !in KeysIn(o, candidates)
  {
    if candidates != [] { NotNamed(o, candidates[..|candidates| - 1], k); }
  }

  lemma {:induction false} KeysInBoth(o: Oracles, a: seq<Json>, b: seq<Json>)
    ensures KeysIn(o, a + b) == KeysIn(o, a) + KeysIn(o, b)
  {
    if b == [] {
      assert a + b == a;
    } else {
      KeysInBoth(o, a, b[..|b| - 1]);
      assert (a + b)[..|a + b| - 1] == a + b[..|b| - 1];
    }
  }

  /** A claim as the record stores it. */
  function Stored(c: CardanoClaim): Json {
    var named := map["cardanoNetwork" := Str(if c.key.mainnet then "mainnet" else "preprod"),
      "cardanoTxHash" := Str(c.key.tx)];
    Obj(if c.submittedAt.Some? then named["cardanoSubmittedAt" := Str(c.submittedAt.value)] else named)
  }

  function StoredAll(claims: seq<CardanoClaim>): (r: seq<Json>)
    ensures |r| == |claims| && forall i | 0 <= i < |r| :: r[i] == Stored(claims[i])
  {
    seq(|claims|, i requires 0 <= i < |claims| => Stored(claims[i]))
  }

  /** `parseCardanoClaim`: a claim sent on its own must hold these fields and nothing else. */
  function ParseClaim(o: Oracles, v: Json): Result<CardanoClaim, Refusal> {
    if !v.Obj? then Err(Malformed)
    else if o.size(v.fields) > 1024 then Err(OverCapacity)
    else
      var at := Field(v.fields, "cardanoSubmittedAt");
      if !(v.fields.Keys <= {"cardanoNetwork", "cardanoTxHash", "cardanoSubmittedAt"}) || KeyNamed(v.fields).None?
         || !(at.Undefined? || (at.Str? && |at.s| <= 64 && o.isDate(at.s)))
      then Err(Malformed)
      else Ok(CardanoClaim(KeyNamed(v.fields).value, if at.Str? then Some(at.s) else None))
  }

  // ------------------------------------------------------------ mergeBatch

  /** Whether the earlier record's value of a field is kept. */
  predicate Kept(previous: Fields, field: string) {
    !Field(previous, field).Undefined? && !Field(previous, field).Null? && Field(previous, field) != Str("")
  }

  function Keep(previous: Fields, merged: Fields, field: string): Fields {
    if Kept(previous, field) then merged[field := Field(previous, field)] else merged
  }

  function MergedFields(previous: Fields, incoming: Fields): Fields {
    Keep(previous, Keep(previous, Keep(previous, previous + incoming, "cardanoNetwork"), "cardanoTxHash"),
      "cardanoSubmittedAt")
  }

  /** Both records' claims, the earlier record's first. */
  function JoinedClaims(o: Oracles, previous: Fields, incoming: Fields): seq<CardanoClaim> {
    Claims(o, map["cardanoClaims" := Arr(StoredAll(Claims(o, previous)) + StoredAll(Claims(o, incoming)))])
  }

  /** The merged fields, with the joined claims when there are any. */
  function WithClaims(o: Oracles, previous: Fields, incoming: Fields): Fields {
    var claims := JoinedClaims(o, previous, incoming);
    if claims != [] then MergedFields(previous, incoming)["cardanoClaims" := Arr(StoredAll(claims))]
    else MergedFields(previous, incoming)
  }

  function Merge(o: Oracles, previous: Fields, incoming: Fields): Result<Fields, Refusal> {
    var full := WithClaims(o, previous, incoming);
    if |JoinedClaims(o, previous, incoming)| > MAX_CLAIMS || o.size(full) > BATCH_BYTE_BUDGET then Err(OverCapacity)
    else Ok(full)
  }

  /** `mergeBatch`, which assigns the merged record's fields one after another. */
  method MergeBatch(o: Oracles, previous: Option<Fields>, incoming: Fields) returns (r: Result<Fields, Refusal>)
    ensures r == Merge(o, if previous.Some? then previous.value else map[], incoming)
  {
    var earlier := if previous.Some? then previous.value else map[];
    var merged := earlier + incoming;
    var fields := ["cardanoNetwork", "cardanoTxHash", "cardanoSubmittedAt"];
    var i := 0;
    while i < 3
      invariant 0 <= i <= 3
      invariant i == 0 ==> merged == earlier + incoming
      invariant i == 1 ==> merged == Keep(earlier, earlier + incoming, "cardanoNetwork")
      invariant i == 2 ==> merged == Keep(earlier, Keep(earlier, earlier + incoming, "cardanoNetwork"), "cardanoTxHash")
      invariant i == 3 ==> merged == MergedFields(earlier, incoming)
    {
      if Kept(earlier, fields[i]) {
        merged := merged[fields[i] := Field(earlier, fields[i])];
      }
      i := i + 1;
    }
    var mine := CardanoClaims(o, earlier);
    var theirs := CardanoClaims(o, incoming);
    var claims := CardanoClaims(o, map["cardanoClaims" := Arr(StoredAll(mine) + StoredAll(theirs))]);
    if |claims| > MAX_CLAIMS {
      return Err(OverCapacity);
    }
    if |claims| > 0 {
      merged := merged["cardanoClaims" := Arr(StoredAll(claims))];
    }
    if o.size(merged) > BATCH_BYTE_BUDGET {
      return Err(OverCapacity);
    }
    r := Ok(merged);
  }

  // ------------------------------------------------------------ claims only grow

  predicate AllNamed(claims: seq<CardanoClaim>) { forall c | c in claims :: IsLowerHex64(c.key.tx) }

  lemma StoredClaimReads(o: Oracles, c: CardanoClaim)
    requires IsLowerHex64(c.key.tx)
    ensures ClaimIn(o, Stored(c)).Some? && ClaimIn(o, Stored(c)).value.key == c.key
  {
    assert "mainnet"[0] != "preprod"[0];
  }

  /** The transactions of a stored claim list are those of the claims. */
  lemma {:induction false} StoredListKeys(o: Oracles, claims: seq<CardanoClaim>)
    requires AllNamed(claims)
    ensures KeysIn(o, StoredAll(claims)) == Keys(claims)
  {
    if claims != [] {
      var init, last := claims[..|claims| - 1], claims[|claims| - 1];
      StoredListKeys(o, init);
      StoredClaimReads(o, last);
      assert StoredAll(claims)[..|claims| - 1] == StoredAll(init);
    }
  }

  lemma {:induction false} DistinctAreNamed(o: Oracles, candidates: seq<Json>)
    ensures AllNamed(Distinct(o, candidates))
  {
    if candidates != [] { DistinctAreNamed(o, candidates[..|candidates| - 1]); }
  }

  function TopKey(r: Fields): set<ClaimKey> { if KeyNamed(r).Some? then {KeyNamed(r).value} else {} }

  lemma OneCandidate(o: Oracles, r: Fields)
    ensures KeysIn(o, [Obj(r)]) == TopKey(r)
  {
    var one := [Obj(r)];
    assert KeysIn(o, one[..0]) == {};
  }

  /** The transactions a record names at its top level and in its list. */
  lemma CandidateKeys(o: Oracles, r: Fields)
    ensures ClaimedTxs(o, r) == TopKey(r) + KeysIn(o, Listed(r))
  {
    DistinctKeys(o, Candidates(r));
    KeysInBoth(o, [Obj(r)], Listed(r));
    OneCandidate(o, r);
  }

  lemma ListAlone(o: Oracles, items: seq<Json>)
    ensures ClaimedTxs(o, map["cardanoClaims" := Arr(items)]) == KeysIn(o, items)
  {
    CandidateKeys(o, map["cardanoClaims" := Arr(items)]);
  }

  lemma JoinedKeys(o: Oracles, previous: Fields, incoming: Fields)
    ensures Keys(JoinedClaims(o, previous, incoming)) == ClaimedTxs(o, previous) + ClaimedTxs(o, incoming)
    ensures AllNamed(JoinedClaims(o, previous, incoming))
  {
    var mine, theirs := Claims(o, previous), Claims(o, incoming);
    DistinctAreNamed(o, Candidates(previous));
    DistinctAreNamed(o, Candidates(incoming));
    StoredListKeys(o, mine);
    StoredListKeys(o, theirs);
    KeysInBoth(o, StoredAll(mine), StoredAll(theirs));
    ListAlone(o, StoredAll(mine) + StoredAll(theirs));
    DistinctAreNamed(o, Candidates(map["cardanoClaims" := Arr(StoredAll(mine) + StoredAll(theirs))]));
  }

  lemma ListDoesNotNameTop(r: Fields, list: Json)
    ensures KeyNamed(r["cardanoClaims" := list]) == KeyNamed(r)
  {
  }

  lemma MergedList(previous: Fields, incoming: Fields)
    ensures Listed(MergedFields(previous, incoming)) ==
      Listed(if "cardanoClaims" in incoming then incoming else previous)
  {
  }

  lemma NoClaimsToJoin(o: Oracles, previous: Fields, incoming: Fields)
    requires JoinedClaims(o, previous, incoming) == []
    ensures KeysIn(o, Listed(MergedFields(previous, incoming))) == {}
    ensures ClaimedTxs(o, previous) == {} == ClaimedTxs(o, incoming)
  {
    JoinedKeys(o, previous, incoming);
    assert Keys([]) == {};
    MergedList(previous, incoming);
    CandidateKeys(o, previous);
    CandidateKeys(o, incoming);
  }

  /**
   * The transactions of a merged record are those of both records, and the one its top-level
   * fields name, which may come from different writers.
   */
  lemma MergeKeepsClaims(o: Oracles, previous: Fields, incoming: Fields)
    ensures ClaimedTxs(o, WithClaims(o, previous, incoming)) ==
      ClaimedTxs(o, previous) + ClaimedTxs(o, incoming) + TopKey(MergedFields(previous, incoming))
  {
    var merged, claims := MergedFields(previous, incoming), JoinedClaims(o, previous, incoming);
    CandidateKeys(o, WithClaims(o, previous, incoming));
    if claims != [] {
      JoinedKeys(o, previous, incoming);
      ListDoesNotNameTop(merged, Arr(StoredAll(claims)));
      StoredListKeys(o, claims);
      assert Listed(WithClaims(o, previous, incoming)) == StoredAll(claims);
    } else {
      NoClaimsToJoin(o, previous, incoming);
    }
  }

  /** A claim neither record makes can appear: the network of one writer beside the transaction of another. */
  lemma MixedClaimCanAppear(o: Oracles, tx: string)
    requires IsLowerHex64(tx)
    ensures var previous := map["cardanoNetwork" := Str("mainnet")];
      var incoming := map["cardanoTxHash" := Str(tx)];
      && ClaimedTxs(o, previous) == {} && ClaimedTxs(o, incoming) == {}
      && ClaimedTxs(o, WithClaims(o, previous, incoming)) == {ClaimKey(true, tx)}
  {
    var previous := map["cardanoNetwork" := Str("mainnet")];
    var incoming := map["cardanoTxHash" := Str(tx)];
    CandidateKeys(o, previous);
    CandidateKeys(o, incoming);
    assert Field(MergedFields(previous, incoming), "cardanoNetwork") == Str("mainnet");
    assert Field(MergedFields(previous, incoming), "cardanoTxHash") == Str(tx);
    MergeKeepsClaims(o, previous, incoming);
  }
}
