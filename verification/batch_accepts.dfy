/**
 * Which batch records and which claims src/batch-record.ts accepts, lines 15-71, said of the
 * texts and numbers they hold and not of the functions that read them.
 */
module BatchAccepts {
  import opened BatchRecord
  import opened Common
  import opened Hex
  import opened Json
  import Merkle

  // ------------------------------------------------------------ a hash that is written

  /** The hash's digits, with letters of either case. */
  predicate SameDigits(digits: string, hash: string) {
    && |digits| == |hash| == 64 && Plain(hash)
    && forall i | 0 <= i < 64 :: digits[i] == hash[i] || ('a' <= hash[i] <= 'f' && digits[i] == hash[i] - 'a' + 'A')
  }

  /** `v` is the text of a hash: its 64 digits, behind "0x" or nothing. */
  predicate Writes(v: Json, hash: string) {
    v.Str? && (SameDigits(v.s, hash) || (|v.s| == 66 && v.s[..2] == "0x" && SameDigits(v.s[2..], hash)))
  }

  lemma DigitExactly(d: char, h: char)
    ensures (('0' <= h <= '9' || 'a' <= h <= 'f') && (d == h || ('a' <= h <= 'f' && d == h - 'a' + 'A'))) <==>
      IsHexDigit(d) && LowerChar(d) == h
  {
  }

  lemma DigitsExactly(digits: string, hash: string)
    ensures SameDigits(digits, hash) <==> IsHex64(digits) && Lower(digits) == hash
  {
    if |digits| == |hash| == 64 {
      forall i | 0 <= i < 64
        ensures (('0' <= hash[i] <= '9' || 'a' <= hash[i] <= 'f')
                 && (digits[i] == hash[i] || ('a' <= hash[i] <= 'f' && digits[i] == hash[i] - 'a' + 'A'))) <==>
          IsHexDigit(digits[i]) && LowerChar(digits[i]) == hash[i]
      {
        DigitExactly(digits[i], hash[i]);
      }
      assert Lower(digits) == hash <==> forall i | 0 <= i < 64 :: LowerChar(digits[i]) == hash[i];
    }
  }

  lemma LowerKeepsHex(digits: string)
    ensures IsHex64(Lower(digits)) <==> IsHex64(digits)
  {
    if IsHex64(Lower(digits)) {
      forall i | 0 <= i < |digits| ensures IsHexDigit(digits[i]) {
        assert IsHexDigit(Lower(digits)[i]);
      }
    }
  }

  lemma HashExactly(v: Json, hash: string)
    ensures Hash(v) == Some(hash) <==> Writes(v, hash)
  {
    if v.Str? {
      DigitsExactly(v.s, hash);
      DigitsExactly(Strip0x(v.s), hash);
      assert |v.s| > 1 ==> (v.s[..2] == "0x" <==> v.s[0] == '0' && v.s[1] == 'x');
    }
  }

  /** A field that is there says this hash. */
  predicate MaySay(r: Fields, field: string, hash: string) {
    Field(r, field) == Undefined || Writes(Field(r, field), hash)
  }

  // ------------------------------------------------------------ a batch that is stated

  datatype Batch = Batch(root: string, leaves: seq<string>, from: int, to: int, network: string, genesis: string)

  function ManifestFor(b: Batch): Manifest { Manifest(b.network, |b.leaves|, b.from, b.genesis, b.root, b.to) }

  predicate StatesLeaves(r: Fields, leaves: seq<string>) {
    && 1 <= |leaves| <= 4096 && Field(r, "leafCount") == Num(|leaves|)
    && Field(r, "leafHashes").Arr? && |Field(r, "leafHashes").items| == |leaves|
    && forall i | 0 <= i < |leaves| :: Writes(Field(r, "leafHashes").items[i], leaves[i])
  }

  predicate StatesBlocks(r: Fields, from: int, to: int) {
    && Field(r, "blockRangeStart") == Num(from) && Field(r, "blockRangeEnd") == Num(to)
    && 0 <= from <= to <= 9_007_199_254_740_991
  }

  predicate StatesNetwork(r: Fields, network: string) {
    var n := Field(r, "cardanoNetworkId");
    n == Str(network) || (network == "" && n in {Undefined, Null})
  }

  predicate NamesGenesis(r: Fields, field: string) { Field(r, field) != Undefined }

  /** Every genesis the record states is this one; a record that states none may mean either known one. */
  predicate StatesGenesis(r: Fields, genesis: string) {
    && MaySay(r, "materiosGenesis", genesis) && MaySay(r, "genesis", genesis) && MaySay(r, "materios_chain_id", genesis)
    && (NamesGenesis(r, "materiosGenesis") || NamesGenesis(r, "genesis") || NamesGenesis(r, "materios_chain_id")
        || genesis == "0e46e33f639a56cc" + "8780fd871d9a15e1" + "6d99af248526f907" + "cb560cb40849f7bf"
        || genesis == "bc0531cb31128156" + "5036fb397a376f0e" + "0fa37005589655f9" + "7a7924b2729a164c")
  }

  /** What a record stored under `key` says. */
  predicate States(r: Fields, b: Batch) {
    && Writes(Field(r, "rootHash"), b.root) && StatesLeaves(r, b.leaves) && StatesBlocks(r, b.from, b.to)
    && StatesNetwork(r, b.network) && StatesGenesis(r, b.genesis)
  }

  /** The leaves make the root, the batch's manifest makes the key, and what is stated of both agrees. */
  ghost predicate Belongs(o: Oracles, key: string, r: Fields, b: Batch) {
    && Merkle.Root(o.pair, Merkle.ZeroRoot(), b.leaves) == b.root
    && o.anchor(b.root, o.manifest(ManifestFor(b))) == key
    && MaySay(r, "anchorId", key) && MaySay(r, "manifestHash", o.manifest(ManifestFor(b)))
  }

  lemma LeavesExactly(r: Fields, leaves: seq<string>)
    ensures LeafHashes(r) == Some(leaves) <==> StatesLeaves(r, leaves)
  {
    var l := Field(r, "leafHashes");
    if StatesLeaves(r, leaves) {
      forall i | 0 <= i < |leaves| ensures Hash(l.items[i]) == Some(leaves[i]) {
        HashExactly(l.items[i], leaves[i]);
      }
      HashesOfAll(l.items, leaves);
    }
    if LeafHashes(r) == Some(leaves) {
      forall i | 0 <= i < |leaves| ensures Writes(l.items[i], leaves[i]) {
        HashExactly(l.items[i], leaves[i]);
      }
    }
  }

  lemma HashesOneMore(items: seq<Json>, n: nat)
    requires |items| == n + 1
    ensures var init, last := Hashes(items[..n]), Hash(items[n]);
      Hashes(items) == if init.Some? && last.Some? then Some(init.value + [last.value]) else None
  {
  }

  lemma {:induction false} HashesOfAll(items: seq<Json>, hashes: seq<string>)
    requires |items| == |hashes| && forall i | 0 <= i < |items| :: Hash(items[i]) == Some(hashes[i])
    ensures Hashes(items) == Some(hashes)
  {
    if items != [] {
      var n := |items| - 1;
      HashesOfAll(items[..n], hashes[..n]);
      HashesOneMore(items, n);
      assert hashes == hashes[..n] + [hashes[n]];
    }
  }

  lemma BlocksExactly(r: Fields, from: int, to: int)
    ensures Blocks(r) == Some((from, to)) <==> StatesBlocks(r, from, to)
  {
  }

  lemma NetworkExactly(r: Fields, network: string)
    ensures Network(r) == Some(network) <==> StatesNetwork(r, network)
  {
  }

  lemma PartsExactly(r: Fields, b: Batch)
    ensures (&& LeafHashes(r) == Some(b.leaves) && Root(r) == Some(b.root) && Blocks(r) == Some((b.from, b.to))
             && Network(r) == Some(b.network)) <==>
            (&& Writes(Field(r, "rootHash"), b.root) && StatesLeaves(r, b.leaves) && StatesBlocks(r, b.from, b.to)
             && StatesNetwork(r, b.network))
  {
    HashExactly(Field(r, "rootHash"), b.root);
    LeavesExactly(r, b.leaves);
    BlocksExactly(r, b.from, b.to);
    NetworkExactly(r, b.network);
  }

  // ------------------------------------------------------------ the genesis it may mean

  lemma {:induction false} PresentExactly(values: seq<Json>, v: Json)
    ensures v in Present(values) <==> v in values && v != Undefined
  {
    if values != [] {
      PresentExactly(values[1..], v);
      assert values == [values[0]] + values[1..];
    }
  }

  lemma {:induction false} HashesNeedAll(items: seq<Json>)
    requires forall i | 0 <= i < |items| :: Hash(items[i]).Some?
    ensures Hashes(items).Some?
  {
    if items != [] {
      var n := |items| - 1;
      HashesNeedAll(items[..n]);
      HashesOneMore(items, n);
    }
  }

  /** The geneses stated are all this one. */
  predicate AllSay(values: seq<Json>, genesis: string) {
    values != [] && forall v | v in values :: Hash(v) == Some(genesis)
  }

  lemma StatedGenesisExactly(values: seq<Json>, genesis: string)
    requires values != []
    ensures AllSay(values, genesis) <==>
      && Hashes(values).Some? && (forall i | 0 <= i < |values| :: Hashes(values).value[i] == Hashes(values).value[0])
      && Hashes(values).value[0] == genesis
  {
    if AllSay(values, genesis) {
      HashesNeedAll(values);
    }
    if Hashes(values).Some? {
      var hashes := Hashes(values).value;
      assert forall i | 0 <= i < |values| :: Hash(values[i]) == Some(hashes[i]) && values[i] in values;
      if hashes[0] == genesis && forall i | 0 <= i < |values| :: hashes[i] == hashes[0] {
        forall v | v in values ensures Hash(v) == Some(genesis) {
          var i :| 0 <= i < |values| && values[i] == v;
        }
      }
    }
  }

  function GenesisFields(r: Fields): seq<Json> {
    [Field(r, "materiosGenesis"), Field(r, "genesis"), Field(r, "materios_chain_id")]
  }

  lemma GenesisFieldsSay(r: Fields, genesis: string)
    ensures Present(GenesisFields(r)) == [] <==>
      !NamesGenesis(r, "materiosGenesis") && !NamesGenesis(r, "genesis") && !NamesGenesis(r, "materios_chain_id")
    ensures Present(GenesisFields(r)) != [] ==>
      (AllSay(Present(GenesisFields(r)), genesis) <==>
        && MaySay(r, "materiosGenesis", genesis) && MaySay(r, "genesis", genesis)
        && MaySay(r, "materios_chain_id", genesis))
  {
    var values, present := GenesisFields(r), Present(GenesisFields(r));
    forall v ensures v in present <==> v in values && v != Undefined {
      PresentExactly(values, v);
    }
    forall v ensures Hash(v) == Some(genesis) <==> Writes(v, genesis) {
      HashExactly(v, genesis);
    }
    assert values[0] in values && values[1] in values && values[2] in values;
    assert present != [] ==> present[0] in present;
  }

  lemma GenesisExactly(r: Fields, genesis: string)
    ensures Geneses(r).Some? && genesis in Geneses(r).value <==> StatesGenesis(r, genesis)
  {
    var values := Present(GenesisFields(r));
    GenesisFieldsSay(r, genesis);
    if values != [] {
      StatedGenesisExactly(values, genesis);
      if Geneses(r).Some? {
        assert Geneses(r).value == [Hashes(values).value[0]];
      }
    } else {
      assert Hashes(values) == Some([]);
      assert GENESIS[0] in GENESIS && GENESIS[1] in GENESIS;
    }
  }

  // ------------------------------------------------------------ what is stored

  lemma StatedFits(o: Oracles, key: string, r: Fields, b: Batch)
    ensures StatedHashesFit(key, r) ==> MaySay(r, "anchorId", key)
    ensures MaySay(r, "anchorId", key) && MaySay(r, "manifestHash", o.manifest(ManifestFor(b))) ==>
      StatedHashesFit(key, r)
    ensures MaySay(r, "manifestHash", o.manifest(ManifestFor(b))) <==>
      Field(r, "manifestHash").Undefined? || Hash(Field(r, "manifestHash")) == Some(o.manifest(ManifestFor(b)))
  {
    HashExactly(Field(r, "anchorId"), key);
    HashExactly(Field(r, "manifestHash"), o.manifest(ManifestFor(b)));
  }

  lemma StatedBatchIsValid(o: Oracles, key: string, r: Fields, b: Batch)
    requires States(r, b) && Belongs(o, key, r, b)
    ensures Valid(o, key, r)
  {
    PartsExactly(r, b);
    GenesisExactly(r, b.genesis);
    StatedFits(o, key, r, b);
    var i :| 0 <= i < |Geneses(r).value| && Geneses(r).value[i] == b.genesis;
    assert ManifestOf(r, b.genesis) == Some(ManifestFor(b));
    assert Derives(o, key, r, Geneses(r).value[i]);
  }

  lemma ValidStatesBatch(o: Oracles, key: string, r: Fields) returns (b: Batch)
    requires Valid(o, key, r)
    ensures States(r, b) && Belongs(o, key, r, b)
  {
    var i :| 0 <= i < |Geneses(r).value| && Derives(o, key, r, Geneses(r).value[i]);
    var m := ManifestOf(r, Geneses(r).value[i]).value;
    b := Batch(m.root, LeafHashes(r).value, m.from, m.to, m.network, m.genesis);
    assert ManifestFor(b) == m;
    PartsExactly(r, b);
    GenesisExactly(r, b.genesis);
    StatedFits(o, key, r, b);
  }

  /** A record is stored under a key exactly if it states a batch that belongs there. */
  lemma ValidExactly(o: Oracles, key: string, r: Fields)
    ensures Valid(o, key, r) <==> exists b :: States(r, b) && Belongs(o, key, r, b)
  {
    if Valid(o, key, r) {
      var b := ValidStatesBatch(o, key, r);
    }
    forall b | States(r, b) && Belongs(o, key, r, b) ensures Valid(o, key, r) {
      StatedBatchIsValid(o, key, r, b);
    }
  }

  // ------------------------------------------------------------ claims

  /** The time a claim is said to be sent at, if it is a date of at most 64 characters. */
  ghost predicate SaysTime(o: Oracles, r: Fields, at: Option<string>) {
    match at
    case Some(text) => Field(r, "cardanoSubmittedAt") == Str(text) && |text| <= 64 && o.isDate(text)
    case None => forall text :: Field(r, "cardanoSubmittedAt") == Str(text) ==> |text| > 64 || !o.isDate(text)
  }

  ghost predicate SaysClaim(o: Oracles, r: Fields, c: CardanoClaim) {
    && Field(r, "cardanoNetwork") == Str(if c.key.mainnet then "mainnet" else "preprod")
    && Writes(Field(r, "cardanoTxHash"), c.key.tx) && SaysTime(o, r, c.submittedAt)
  }

  lemma KeyNamedExactly(r: Fields, k: ClaimKey)
    ensures KeyNamed(r) == Some(k) <==>
      Field(r, "cardanoNetwork") == Str(if k.mainnet then "mainnet" else "preprod")
      && Writes(Field(r, "cardanoTxHash"), k.tx)
  {
    HashExactly(Field(r, "cardanoTxHash"), k.tx);
    assert "mainnet"[0] != "preprod"[0];
  }

  /** An object makes a claim exactly if it names a network, a transaction and, where it is a date, a time. */
  lemma ClaimExactly(o: Oracles, r: Fields, c: CardanoClaim)
    ensures ClaimIn(o, Obj(r)) == Some(c) <==> SaysClaim(o, r, c)
  {
    KeyNamedExactly(r, c.key);
    var at := Field(r, "cardanoSubmittedAt");
    assert SaysTime(o, r, c.submittedAt) <==>
      c.submittedAt == if at.Str? && |at.s| <= 64 && o.isDate(at.s) then Some(at.s) else None;
  }

  lemma TimeExactly(o: Oracles, r: Fields, at: Option<string>)
    ensures SaysTime(o, r, at) && (at.None? ==> Field(r, "cardanoSubmittedAt") == Undefined) <==>
      var sent := Field(r, "cardanoSubmittedAt");
      && (sent.Undefined? || (sent.Str? && |sent.s| <= 64 && o.isDate(sent.s)))
      && at == if sent.Str? then Some(sent.s) else None
  {
  }

  /** A claim sent on its own also holds no other field, at most 1,024 bytes, and no time that is not a date. */
  lemma ParsedExactly(o: Oracles, r: Fields, c: CardanoClaim)
    ensures ParseClaim(o, Obj(r)) == Ok(c) <==>
      && o.size(r) <= 1024 && SaysClaim(o, r, c)
      && (forall field | field in r :: field in {"cardanoNetwork", "cardanoTxHash", "cardanoSubmittedAt"})
      && (c.submittedAt.None? ==> Field(r, "cardanoSubmittedAt") == Undefined)
  {
    TimeExactly(o, r, c.submittedAt);
    KeyNamedExactly(r, c.key);
    assert r.Keys <= {"cardanoNetwork", "cardanoTxHash", "cardanoSubmittedAt"} <==>
      forall field | field in r :: field in {"cardanoNetwork", "cardanoTxHash", "cardanoSubmittedAt"};
  }

  lemma TooLargeExactly(o: Oracles, r: Fields)
    ensures ParseClaim(o, Obj(r)) == Err(OverCapacity) <==> o.size(r) > 1024
  {
  }

  lemma OnlyObjectsClaim(o: Oracles, v: Json)
    requires !v.Obj?
    ensures ClaimIn(o, v).None? && ParseClaim(o, v) == Err(Malformed)
  {
  }
}
