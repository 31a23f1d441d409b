/**
 * src/l1-anchor-verify.ts: the verdict on a batch's Cardano anchor. Batch records and Koios
 * answers are untrusted JSON. sha256 of two concatenated 32-byte values, given and returned
 * as 64 lower-case hex digits, is the function `h`; nothing is assumed of it.
 */
module L1Anchor {
  import opened Common
  import opened Hex
  import opened Json
  import Merkle

  datatype Claim = Claim(txHash: string, batch: map<string, Json>, leaf: string, genesis: string)

  /** `ok` is None for a check that could not be established. */
  datatype Check = Check(name: string, ok: Option<bool>)

  datatype AnchorRecord = AnchorRecord(chain: Json, root: Json, manifest: Json, leaves: Json, blocks: Json)

  datatype Observation = Observation(
    blockHeight: Option<int>, confirmations: Option<int>, tipTime: int, anchorRecord: Option<AnchorRecord>,
      inputs: seq<string>)

  datatype Lookup = Found(obs: Observation) | Unavailable

  datatype Status = Verified | Pending | Failed | Unknown

  datatype Verdict = Verdict(status: Status, checks: seq<Check>, anchorId: Option<string>)

  const ROOT_ONLY_TXS: set<string> := {
    "a44d975fa72955cf" + "46a883adf0fd2721" + "e35a8b7f0c1d2366" + "a56ad0872742ae19",
    "b06b835778e304cc" + "917d0d4865a1351e" + "eb64b35df75d57a3" + "4b4aeb1a228c1390" }

  const LOST_AFTER_MS: int := 3_600_000
  const CLOCK_SKEW_MS: int := 300_000

  // ------------------------------------------------------------ normal forms

  predicate IsSpace(c: char) {
    || c == ' ' || '\t' <= c <= '\r' || c == '\U{A0}' || c == '\U{1680}' || '\U{2000}' <= c <= '\U{200A}'
    || c == '\U{2028}' || c == '\U{2029}' || c == '\U{202F}' || c == '\U{205F}' || c == '\U{3000}' || c == '\U{FEFF}'
  }

  function TrimStart(s: string): string {
    if s != "" && IsSpace(s[0]) then TrimStart(s[1..]) else s
  }

  function TrimEnd(s: string): string {
    if s != "" && IsSpace(s[|s| - 1]) then TrimEnd(s[..|s| - 1]) else s
  }

  function NormHex(v: Json): string {
    if v.Str? then Strip0x(Lower(TrimEnd(TrimStart(v.s)))) else ""
  }

  /** Blanks, tabs, line ends and the other white space of ECMAScript, section 11.2 and 11.3 of ECMA-262. */
  const BLANKS: set<char> := {
    ' ', '\t', '\U{B}', '\U{C}', '\n', '\r', '\U{A0}', '\U{1680}', '\U{2000}', '\U{2001}', '\U{2002}', '\U{2003}',
    '\U{2004}', '\U{2005}', '\U{2006}', '\U{2007}', '\U{2008}', '\U{2009}', '\U{200A}', '\U{2028}', '\U{2029}',
    '\U{202F}', '\U{205F}', '\U{3000}', '\U{FEFF}' }

  predicate Blank(s: string) { forall i | 0 <= i < |s| :: s[i] in BLANKS }

  lemma BlankIsSpace(c: char)
    requires c in BLANKS
    ensures IsSpace(c)
  {
  }

  lemma {:induction false} BlankStartGoes(blank: string, s: string)
    requires Blank(blank) && s != "" && !IsSpace(s[0])
    ensures TrimStart(blank + s) == s
  {
    if blank == "" {
      assert blank + s == s;
    } else {
      BlankIsSpace(blank[0]);
      assert (blank + s)[1..] == blank[1..] + s;
      BlankStartGoes(blank[1..], s);
    }
  }

  lemma {:induction false} BlankEndGoes(s: string, blank: string)
    requires Blank(blank) && s != "" && !IsSpace(s[|s| - 1])
    ensures TrimEnd(s + blank) == s
  {
    if blank == "" {
      assert s + blank == s;
    } else {
      var init, last := blank[..|blank| - 1], blank[|blank| - 1];
      BlankIsSpace(last);
      assert (s + blank)[..|s| + |init|] == s + init && (s + blank)[|s| + |init|] == last;
      BlankEndGoes(s, init);
    }
  }

  lemma SpelledDigits(text: string, h: string)
    requires SpellsHex(text, h) && h != ""
    ensures text != "" && !IsSpace(text[0]) && !IsSpace(text[|text| - 1])
    ensures Strip0x(Lower(text)) == h
  {
    assert |text| > 1 ==> (text[..2] == "0x" <==> text[0] == '0' && text[1] == 'x');
    assert |text| > 1 ==> (text[..2] == "0X" <==> text[0] == '0' && text[1] == 'X');
    var d := |text| - |h|;
    assert text[d] == h[0] || ('a' <= h[0] <= 'f' && text[d] == h[0] - 'a' + 'A');
    assert text[|text| - 1] == h[|h| - 1] || ('a' <= h[|h| - 1] <= 'f' && text[|text| - 1] == h[|h| - 1] - 'a' + 'A');
    assert Lower(text)[d..] == h;
  }

  lemma BlanksGo(before: string, text: string, after: string)
    requires Blank(before) && Blank(after) && text != "" && !IsSpace(text[0]) && !IsSpace(text[|text| - 1])
    ensures TrimEnd(TrimStart(before + text + after)) == text
  {
    assert before + text + after == before + (text + after);
    BlankStartGoes(before, text + after);
    BlankEndGoes(text, after);
  }

  /** However a hash is spelled, and whatever white space stands around it, it is compared as its digits. */
  lemma SpelledIsNormal(before: string, text: string, after: string, h: string)
    requires Blank(before) && Blank(after) && SpellsHex(text, h) && h != ""
    ensures NormHex(Str(before + text + after)) == h
  {
    SpelledDigits(text, h);
    BlanksGo(before, text, after);
  }

  function NormAll(items: seq<Json>): (r: seq<string>)
    ensures |r| == |items|
  {
    seq(|items|, i requires 0 <= i < |items| => NormHex(items[i]))
  }

  predicate IsBlockNumber(v: Json) { IsSafeInt(v) && v.n >= 0 }

  // ------------------------------------------------------------ the batch record itself

  function Leaves(c: Claim): seq<string> {
    var l := Field(c.batch, "leafHashes");
    if l.Arr? then NormAll(l.items) else []
  }

  function RootOf(c: Claim): string { NormHex(Field(c.batch, "rootHash")) }

  predicate AllHex(hashes: seq<string>) { forall i | 0 <= i < |hashes| :: IsLowerHex64(hashes[i]) }

  predicate IsRange(from: Json, to: Json) { IsBlockNumber(from) && IsBlockNumber(to) && from.n <= to.n }

  predicate WellFormed(c: Claim) {
    && IsLowerHex64(RootOf(c))
    && |Leaves(c)| > 0 && AllHex(Leaves(c))
    && Field(c.batch, "leafCount") == Num(|Leaves(c)|)
    && IsRange(Field(c.batch, "blockRangeStart"), Field(c.batch, "blockRangeEnd"))
    && (Field(c.batch, "anchorId").Undefined? || IsLowerHex64(NormHex(Field(c.batch, "anchorId"))))
  }

  /** The record states a list of hashes, their number and a range of blocks, and an anchor id or none. */
  ghost predicate StatesBatch(c: Claim, leaves: seq<string>, from: int, to: int) {
    var items := Field(c.batch, "leafHashes");
    && items.Arr? && |items.items| == |leaves| > 0
    && (forall i | 0 <= i < |leaves| :: NormHex(items.items[i]) == leaves[i] && IsLowerHex64(leaves[i]))
    && Field(c.batch, "leafCount") == Num(|leaves|)
    && Field(c.batch, "blockRangeStart") == Num(from) && Field(c.batch, "blockRangeEnd") == Num(to)
    && 0 <= from <= to <= 9_007_199_254_740_991
    && IsLowerHex64(NormHex(Field(c.batch, "rootHash")))
    && ("anchorId" in c.batch ==> c.batch["anchorId"].Undefined? || IsLowerHex64(NormHex(c.batch["anchorId"])))
  }

  /** A record is well formed exactly if it states a batch, whose leaves are then the ones compared. */
  lemma WellFormedExactly(c: Claim)
    ensures WellFormed(c) <==> exists leaves, from, to :: StatesBatch(c, leaves, from, to)
    ensures forall leaves, from, to | StatesBatch(c, leaves, from, to) :: Leaves(c) == leaves
  {
    if WellFormed(c) {
      assert StatesBatch(c, Leaves(c), Field(c.batch, "blockRangeStart").n, Field(c.batch, "blockRangeEnd").n);
    }
    forall leaves, from, to | StatesBatch(c, leaves, from, to) ensures Leaves(c) == leaves && WellFormed(c) {
    }
  }

  predicate RootRecomputes(h: (string, string) -> string, c: Claim) {
    Merkle.Root(h, Merkle.ZeroRoot(), Leaves(c)) == RootOf(c)
  }

  predicate LeafListed(c: Claim) { NormHex(Str(c.leaf)) in Leaves(c) }

  function BatchChecks(h: (string, string) -> string, c: Claim): seq<Check> {
    if !WellFormed(c) then [Check("batch_record", Some(false))]
    else
      [Check("batch_record", Some(true)), Check("merkle_root", Some(RootRecomputes(h, c))),
        Check("leaf_included", Some(LeafListed(c)))]
  }

  // ------------------------------------------------------------ against the tx's record

  function AnchorIdCheck(named: Json, derived: Option<string>): Check {
    Check("anchor_id",
      if derived.None? then Some(false)
      else if named.Undefined? then None
      else Some(NormHex(named) == derived.value))
  }

  predicate SameBlocks(blocks: Json, from: Json, to: Json) {
    blocks.Arr? && |blocks.items| == 2 && blocks.items[0] == from && blocks.items[1] == to
  }

  function DerivedId(h: (string, string) -> string, c: Claim, r: AnchorRecord): Option<string> {
    var manifest := NormHex(r.manifest);
    if IsLowerHex64(manifest) then Some(h(RootOf(c), manifest)) else None
  }

  /** The verdict each comparison with the tx's record must reach. */
  function RecordResult(h: (string, string) -> string, c: Claim, r: AnchorRecord): (seq<Check>, Option<string>) {
    var rootMatches := NormHex(r.root) == RootOf(c);
    var head := [Check("anchor_record", Some(true)), Check("root", Some(rootMatches))];
    if c.txHash in ROOT_ONLY_TXS then
      (head + [Check("leaves", None), Check("blocks", None), Check("chain", None), Check("anchor_id", None)], None)
    else
      var compared := head + [
        Check("leaves", Some(r.leaves == Field(c.batch, "leafCount"))),
        Check("blocks", Some(SameBlocks(r.blocks, Field(c.batch, "blockRangeStart"), Field(c.batch, "blockRangeEnd")))),
        Check("chain", Some(NormHex(r.chain) == NormHex(Str(c.genesis))))];
      if !rootMatches then (compared + [Check("anchor_id", None)], None)
      else (compared + [AnchorIdCheck(Field(c.batch, "anchorId"), DerivedId(h, c, r))], DerivedId(h, c, r))
  }

  function FundingCheck(inputs: seq<string>, wallets: seq<string>): Check {
    Check("funding_wallet",
      if wallets == [] then None
      else Some(inputs != [] && forall i | 0 <= i < |inputs| :: inputs[i] in wallets))
  }

  /** Whether a tx that cannot be found will not land any more. */
  predicate Lost(c: Claim, obs: Observation, parseDate: string -> Option<int>, now: int) {
    var stamp := Field(c.batch, "cardanoSubmittedAt");
    var sentAt := if stamp.Str? then parseDate(stamp.s) else None;
    sentAt.None? || sentAt.value > now + CLOCK_SKEW_MS || obs.tipTime * 1000 >= sentAt.value + LOST_AFTER_MS
  }

  predicate Failing(checks: seq<Check>) {
    exists i :: 0 <= i < |checks| && checks[i].ok == Some(false)
  }

  function TxRecord(h: (string, string) -> string, c: Claim, obs: Observation): (seq<Check>, Option<string>) {
    if obs.anchorRecord.Some? then RecordResult(h, c, obs.anchorRecord.value)
    else ([Check("anchor_record", Some(false))], None)
  }

  function All(local: seq<Check>, record: seq<Check>, funding: Check): seq<Check> {
    local + [Check("tx_in_block", Some(true))] + record + [funding]
  }

  function Verify(h: (string, string) -> string, c: Claim, lookup: Lookup, wallets: seq<string>,
                  parseDate: string -> Option<int>, now: int): Verdict
  {
    var local := BatchChecks(h, c);
    if Failing(local) then Verdict(Failed, local, None)
    else if lookup.Unavailable? then Verdict(Unknown, local + [Check("tx_in_block", None)], None)
    else
      var obs := lookup.obs;
      if obs.blockHeight.None? then
        if Lost(c, obs, parseDate, now) then Verdict(Failed, local + [Check("tx_in_block", Some(false))], None)
        else Verdict(Pending, local + [Check("tx_in_block", None)], None)
      else
        var r := TxRecord(h, c, obs);
        var funding := FundingCheck(obs.inputs, wallets);
        var checks := All(local, r.0, funding);
        if Failing(checks) then Verdict(Failed, checks, r.1)
        else if funding.ok.None? then Verdict(Unknown, checks, r.1)
        else Verdict(Verified, checks, r.1)
  }

  // ------------------------------------------------------------ what a verified claim is worth

  /** The tx's record names the batch. */
  ghost predicate RecordMatches(h: (string, string) -> string, c: Claim, r: AnchorRecord) {
    && NormHex(r.root) == RootOf(c)
    && r.leaves == Field(c.batch, "leafCount")
    && SameBlocks(r.blocks, Field(c.batch, "blockRangeStart"), Field(c.batch, "blockRangeEnd"))
    && NormHex(r.chain) == NormHex(Str(c.genesis))
    && IsLowerHex64(NormHex(r.manifest))
    && (Field(c.batch, "anchorId").Undefined?
        || NormHex(Field(c.batch, "anchorId")) == h(RootOf(c), NormHex(r.manifest)))
  }

  /** Everything a verified claim has established, apart from the root-only exceptions. */
  ghost predicate Established(h: (string, string) -> string, c: Claim, r: AnchorRecord) {
    WellFormed(c) && RootRecomputes(h, c) && LeafListed(c) && RecordMatches(h, c, r)
  }

  ghost predicate Funded(inputs: seq<string>, wallets: seq<string>) {
    wallets != [] && inputs != [] && forall i | 0 <= i < |inputs| :: inputs[i] in wallets
  }

  lemma LocalExactly(h: (string, string) -> string, c: Claim)
    ensures Failing(BatchChecks(h, c)) <==> !(WellFormed(c) && RootRecomputes(h, c) && LeafListed(c))
  {
    var checks := BatchChecks(h, c);
    assert checks[0].ok == Some(WellFormed(c));
    if WellFormed(c) {
      assert checks[1].ok == Some(RootRecomputes(h, c));
      assert checks[2].ok == Some(LeafListed(c));
    }
  }

  lemma RecordExactly(h: (string, string) -> string, c: Claim, r: AnchorRecord)
    requires c.txHash !in ROOT_ONLY_TXS
    ensures Failing(RecordResult(h, c, r).0) <==> !RecordMatches(h, c, r)
  {
    var checks := RecordResult(h, c, r).0;
    assert |checks| == 6 && checks[0].ok == Some(true) && checks[1].ok == Some(NormHex(r.root) == RootOf(c));
    assert checks[2].ok == Some(r.leaves == Field(c.batch, "leafCount"));
    assert checks[3].ok == Some(SameBlocks(r.blocks, Field(c.batch, "blockRangeStart"),
      Field(c.batch, "blockRangeEnd")));
    assert checks[4].ok == Some(NormHex(r.chain) == NormHex(Str(c.genesis)));
    if NormHex(r.root) == RootOf(c) {
      assert checks[5] == AnchorIdCheck(Field(c.batch, "anchorId"), DerivedId(h, c, r));
    }
  }

  /** A claim verifies exactly when everything is established and anchor wallets alone fund the tx. */
  lemma VerifiedExactly(h: (string, string) -> string, c: Claim, lookup: Lookup, wallets: seq<string>,
      parseDate: string -> Option<int>, now: int)
    requires c.txHash !in ROOT_ONLY_TXS
    ensures Verify(h, c, lookup, wallets, parseDate, now).status.Verified? <==>
      && lookup.Found? && lookup.obs.blockHeight.Some? && lookup.obs.anchorRecord.Some?
      && Established(h, c, lookup.obs.anchorRecord.value)
      && Funded(lookup.obs.inputs, wallets)
  {
    LocalExactly(h, c);
    if lookup.Found? {
      FailingParts(BatchChecks(h, c), TxRecord(h, c, lookup.obs).0, FundingCheck(lookup.obs.inputs, wallets));
      if lookup.obs.anchorRecord.Some? {
        RecordExactly(h, c, lookup.obs.anchorRecord.value);
      } else {
        assert TxRecord(h, c, lookup.obs).0[0].ok == Some(false);
      }
    }
  }

  lemma FailingParts(local: seq<Check>, record: seq<Check>, funding: Check)
    ensures Failing(All(local, record, funding)) <==>
      Failing(local) || Failing(record) || funding.ok == Some(false)
  {
    var checks := All(local, record, funding);
    if i :| 0 <= i < |local| && local[i].ok == Some(false) {
      assert checks[i] == local[i];
    }
    if i :| 0 <= i < |record| && record[i].ok == Some(false) {
      assert checks[|local| + 1 + i] == record[i];
    }
    if funding.ok == Some(false) {
      assert checks[|checks| - 1] == funding;
    }
    if i :| 0 <= i < |checks| && checks[i].ok == Some(false) {
      assert i < |local| ==> local[i] == checks[i];
      assert |local| < i < |checks| - 1 ==> record[i - |local| - 1] == checks[i];
    }
  }

  /** What the comparisons mean: a root-only transaction is compared by its root alone. */
  lemma RecordMeans(h: (string, string) -> string, c: Claim, r: AnchorRecord)
    ensures !Failing(RecordResult(h, c, r).0) <==>
      if c.txHash in ROOT_ONLY_TXS then NormHex(r.root) == RootOf(c) else RecordMatches(h, c, r)
  {
    if c.txHash !in ROOT_ONLY_TXS {
      RecordExactly(h, c, r);
    } else if NormHex(r.root) == RootOf(c) {
      RootOnlyRecord(h, c, r);
    } else {
      assert RecordResult(h, c, r).0[1].ok == Some(false);
    }
  }

  /** `recordChecks`, which pushes one check after another. */
  method RecordChecks(h: (string, string) -> string, c: Claim, r: AnchorRecord)
    returns (checks: seq<Check>, anchorId: Option<string>)
    ensures checks == RecordResult(h, c, r).0 && anchorId == RecordResult(h, c, r).1
    ensures !Failing(checks) <==>
      if c.txHash in ROOT_ONLY_TXS then NormHex(r.root) == RootOf(c) else RecordMatches(h, c, r)
    ensures anchorId.Some? <==>
      c.txHash !in ROOT_ONLY_TXS && NormHex(r.root) == RootOf(c) && IsLowerHex64(NormHex(r.manifest))
    ensures anchorId.Some? ==> anchorId.value == h(NormHex(r.root), NormHex(r.manifest))
  {
    RecordMeans(h, c, r);
    var root := RootOf(c);
    var rootMatches := NormHex(r.root) == root;
    checks := [Check("anchor_record", Some(true)), Check("root", Some(rootMatches))];
    if c.txHash in ROOT_ONLY_TXS {
      checks := checks + [Check("leaves", None)];
      checks := checks + [Check("blocks", None)];
      checks := checks + [Check("chain", None)];
      checks := checks + [Check("anchor_id", None)];
      anchorId := None;
      return;
    }
    checks := checks + [Check("leaves", Some(r.leaves == Field(c.batch, "leafCount")))];
    var from, to := Field(c.batch, "blockRangeStart"), Field(c.batch, "blockRangeEnd");
    checks := checks + [Check("blocks", Some(SameBlocks(r.blocks, from, to)))];
    checks := checks + [Check("chain", Some(NormHex(r.chain) == NormHex(Str(c.genesis))))];
    if !rootMatches {
      checks := checks + [Check("anchor_id", None)];
      return checks, None;
    }
    var manifest := NormHex(r.manifest);
    anchorId := if IsLowerHex64(manifest) then Some(h(root, manifest)) else None;
    checks := checks + [AnchorIdCheck(Field(c.batch, "anchorId"), anchorId)];
  }

  /** The first check that failed. */
  method FindFailure(checks: seq<Check>) returns (failure: Option<Check>)
    ensures failure.Some? <==> Failing(checks)
    ensures failure.Some? ==> failure.value in checks && failure.value.ok == Some(false)
  {
    var i := 0;
    while i < |checks|
      invariant 0 <= i <= |checks| && forall j | 0 <= j < i :: checks[j].ok != Some(false)
    {
      if checks[i].ok == Some(false) {
        return Some(checks[i]);
      }
      i := i + 1;
    }
    failure := None;
  }

  /** The batch checks that need no lookup. */
  ghost predicate BatchHolds(h: (string, string) -> string, c: Claim) {
    WellFormed(c) && RootRecomputes(h, c) && LeafListed(c)
  }

  /** The batch names the time its tx was sent: not in the future by over five minutes, and under an hour ago. */
  ghost predicate MayStillLand(c: Claim, obs: Observation, parseDate: string -> Option<int>, now: int) {
    && Field(c.batch, "cardanoSubmittedAt").Str?
    && var sentAt := parseDate(Field(c.batch, "cardanoSubmittedAt").s);
    && sentAt.Some? && sentAt.value <= now + 300_000 && obs.tipTime * 1000 < sentAt.value + 3_600_000
  }

  /** The record names the batch; of the two root-only transactions it is asked for the root alone. */
  ghost predicate RecordFits(h: (string, string) -> string, c: Claim, r: AnchorRecord) {
    if c.txHash in ROOT_ONLY_TXS then NormHex(r.root) == RootOf(c) else RecordMatches(h, c, r)
  }

  /** A tx in a block whose record does not fail the claim. */
  ghost predicate Anchors(h: (string, string) -> string, c: Claim, obs: Observation) {
    obs.blockHeight.Some? && obs.anchorRecord.Some? && RecordFits(h, c, obs.anchorRecord.value)
  }

  lemma RecordFitsExactly(h: (string, string) -> string, c: Claim, r: AnchorRecord)
    ensures Failing(RecordResult(h, c, r).0) <==> !RecordFits(h, c, r)
  {
    if c.txHash in ROOT_ONLY_TXS {
      var checks := RecordResult(h, c, r).0;
      assert |checks| == 6 && checks[1].ok == Some(NormHex(r.root) == RootOf(c));
    } else {
      RecordExactly(h, c, r);
    }
  }

  lemma InBlockExactly(h: (string, string) -> string, c: Claim, obs: Observation, wallets: seq<string>)
    requires obs.blockHeight.Some? && BatchHolds(h, c)
    ensures Failing(All(BatchChecks(h, c), TxRecord(h, c, obs).0, FundingCheck(obs.inputs, wallets))) <==>
      !Anchors(h, c, obs) || (wallets != [] && !Funded(obs.inputs, wallets))
  {
    LocalExactly(h, c);
    FailingParts(BatchChecks(h, c), TxRecord(h, c, obs).0, FundingCheck(obs.inputs, wallets));
    if obs.anchorRecord.Some? {
      RecordFitsExactly(h, c, obs.anchorRecord.value);
    } else {
      assert TxRecord(h, c, obs).0[0].ok == Some(false);
    }
  }

  /**
   * The answer, case by case, root-only transactions included. A claim whose batch does not hold
   * fails. It is pending while its tx is in no block but may still land; it is unknown when the
   * chain cannot be asked or no wallets are configured; it is verified with its tx in a block,
   * its record fitting and wallets alone funding it; and it fails otherwise.
   */
  lemma OutcomeExactly(h: (string, string) -> string, c: Claim, lookup: Lookup, wallets: seq<string>,
      parseDate: string -> Option<int>, now: int)
    ensures Verify(h, c, lookup, wallets, parseDate, now).status ==
      if !BatchHolds(h, c) then Failed
      else if lookup.Unavailable? then Unknown
      else if lookup.obs.blockHeight.None? then
        if MayStillLand(c, lookup.obs, parseDate, now) then Pending else Failed
      else if !Anchors(h, c, lookup.obs) then Failed
      else if wallets == [] then Unknown
      else if Funded(lookup.obs.inputs, wallets) then Verified
      else Failed
    ensures Verify(h, c, lookup, wallets, parseDate, now).anchorId.Some? <==>
      && BatchHolds(h, c) && lookup.Found? && lookup.obs.blockHeight.Some? && lookup.obs.anchorRecord.Some?
      && c.txHash !in ROOT_ONLY_TXS
      && NormHex(lookup.obs.anchorRecord.value.root) == RootOf(c)
      && IsLowerHex64(NormHex(lookup.obs.anchorRecord.value.manifest))
  {
    LocalExactly(h, c);
    if lookup.Found? && lookup.obs.blockHeight.Some? && BatchHolds(h, c) {
      InBlockExactly(h, c, lookup.obs, wallets);
    }
  }

  /** A claim fails exactly if a reported check failed. */
  lemma FailsByItsChecks(h: (string, string) -> string, c: Claim, lookup: Lookup, wallets: seq<string>,
      parseDate: string -> Option<int>, now: int)
    ensures var v := Verify(h, c, lookup, wallets, parseDate, now);
      v.status.Failed? <==> exists i :: 0 <= i < |v.checks| && v.checks[i].ok == Some(false)
  {
    var v := Verify(h, c, lookup, wallets, parseDate, now);
    var local := BatchChecks(h, c);
    if !Failing(local) && v.status.Failed? && lookup.obs.blockHeight.None? {
      assert v.checks[|local|].ok == Some(false);
    }
    assert !Failing(local) ==> forall i | 0 <= i < |local| :: local[i].ok != Some(false);
  }

  /** What is reported of the tx: in a block, lost, or not known yet. */
  ghost function TxCheck(c: Claim, lookup: Lookup, parseDate: string -> Option<int>, now: int): Check {
    Check("tx_in_block",
      if lookup.Unavailable? then None
      else if lookup.obs.blockHeight.Some? then Some(true)
      else if MayStillLand(c, lookup.obs, parseDate, now) then None
      else Some(false))
  }

  lemma TxFollowsBatch(h: (string, string) -> string, c: Claim, lookup: Lookup, wallets: seq<string>,
      parseDate: string -> Option<int>, now: int)
    requires !Failing(BatchChecks(h, c))
    ensures var v, n := Verify(h, c, lookup, wallets, parseDate, now), |BatchChecks(h, c)|;
      n < |v.checks| && v.checks[n] == TxCheck(c, lookup, parseDate, now)
  {
  }

  lemma TxIsReported(h: (string, string) -> string, c: Claim, lookup: Lookup, wallets: seq<string>,
      parseDate: string -> Option<int>, now: int)
    requires BatchHolds(h, c)
    ensures TxCheck(c, lookup, parseDate, now) in Verify(h, c, lookup, wallets, parseDate, now).checks
  {
    LocalExactly(h, c);
    TxFollowsBatch(h, c, lookup, wallets, parseDate, now);
  }

  /** `verifyL1Anchor`, with what the lookup of the transaction found. */
  method VerifyL1Anchor(h: (string, string) -> string, c: Claim, lookup: Lookup, wallets: seq<string>,
                        parseDate: string -> Option<int>, now: int)
    returns (v: Verdict)
    ensures v == Verify(h, c, lookup, wallets, parseDate, now)
    ensures c.txHash !in ROOT_ONLY_TXS ==>
      (v.status.Verified? <==>
         && lookup.Found? && lookup.obs.blockHeight.Some? && lookup.obs.anchorRecord.Some?
         && Established(h, c, lookup.obs.anchorRecord.value)
         && Funded(lookup.obs.inputs, wallets))
    ensures v.status.Pending? <==>
      BatchHolds(h, c) && lookup.Found? && lookup.obs.blockHeight.None? && MayStillLand(c, lookup.obs, parseDate, now)
    ensures v.status.Unknown? <==>
      BatchHolds(h, c) && (lookup.Unavailable? || (wallets == [] && Anchors(h, c, lookup.obs)))
    ensures v.anchorId.Some? ==>
      && lookup.Found? && lookup.obs.anchorRecord.Some? && c.txHash !in ROOT_ONLY_TXS
      && v.anchorId.value == h(RootOf(c), NormHex(lookup.obs.anchorRecord.value.manifest))
  {
    OutcomeExactly(h, c, lookup, wallets, parseDate, now);
    var local := BatchChecks(h, c);
    var localFailure := FindFailure(local);
    if localFailure.Some? {
      return Verdict(Failed, local, None);
    }
    if lookup.Unavailable? {
      return Verdict(Unknown, local + [Check("tx_in_block", None)], None);
    }
    var obs := lookup.obs;
    if obs.blockHeight.None? {
      if Lost(c, obs, parseDate, now) {
        return Verdict(Failed, local + [Check("tx_in_block", Some(false))], None);
      }
      return Verdict(Pending, local + [Check("tx_in_block", None)], None);
    }
    var recordResult, anchorId := [Check("anchor_record", Some(false))], None;
    if obs.anchorRecord.Some? {
      recordResult, anchorId := RecordChecks(h, c, obs.anchorRecord.value);
    }
    var funding := FundingCheck(obs.inputs, wallets);
    var checks := local + [Check("tx_in_block", Some(true))] + recordResult + [funding];
    var failure := FindFailure(checks);
    var status := if failure.Some? then Failed else if funding.ok.None? then Unknown else Verified;
    v := Verdict(status, checks, anchorId);
  }

  /**
   * Outside the root-only exceptions an anchor record names one batch: claims that verify
   * against equal records have the same block range, genesis and stated anchor id, and the
   * same leaves unless the returned pair of inputs collides under the hash.
   */
  lemma VerifiedClaimsAgree(h: (string, string) -> string, a: Claim, b: Claim, x: Observation, y: Observation,
                            wallets: seq<string>, parseDate: string -> Option<int>, now: int, later: int)
    requires a.txHash !in ROOT_ONLY_TXS && b.txHash !in ROOT_ONLY_TXS
    requires Verify(h, a, Found(x), wallets, parseDate, now).status.Verified?
    requires Verify(h, b, Found(y), wallets, parseDate, later).status.Verified?
    requires x.anchorRecord == y.anchorRecord
    ensures |Leaves(a)| == |Leaves(b)| > 0
    ensures Merkle.Root(h, Merkle.ZeroRoot(), Leaves(a)) == Merkle.Root(h, Merkle.ZeroRoot(), Leaves(b))
    ensures Leaves(a) == Leaves(b)
      || Merkle.Collides(h, Merkle.FindCollision(h, Merkle.ZeroRoot(), Leaves(a), Leaves(b)))
    ensures Field(a.batch, "blockRangeStart") == Field(b.batch, "blockRangeStart")
    ensures Field(a.batch, "blockRangeEnd") == Field(b.batch, "blockRangeEnd")
    ensures NormHex(Str(a.genesis)) == NormHex(Str(b.genesis))
    ensures NormHex(Str(a.leaf)) in Leaves(a) && NormHex(Str(b.leaf)) in Leaves(b)
    ensures forall i | 0 <= i < |x.inputs| :: x.inputs[i] in wallets
    ensures forall i | 0 <= i < |y.inputs| :: y.inputs[i] in wallets
    ensures Field(a.batch, "anchorId").Undefined? || Field(b.batch, "anchorId").Undefined?
      || NormHex(Field(a.batch, "anchorId")) == NormHex(Field(b.batch, "anchorId"))
  {
    VerifiedExactly(h, a, Found(x), wallets, parseDate, now);
    VerifiedExactly(h, b, Found(y), wallets, parseDate, later);
  }

  // ------------------------------------------------------------ the exceptions do not bind

  function RootOnlyClaim(tx: string, leaves: seq<string>, root: string): Claim
    requires leaves != []
  {
    Claim(tx,
      map["rootHash" := Str(root),
          "leafHashes" := Arr(seq(|leaves|, i requires 0 <= i < |leaves| => Str(leaves[i]))),
          "leafCount" := Num(|leaves|),
          "blockRangeStart" := Num(0),
          "blockRangeEnd" := Num(0)],
      leaves[0], "")
  }

  /** A tx in a block, funded by one wallet, whose record names a root and nothing else. */
  function RootOnlyTx(root: string, wallet: string): (obs: Observation)
    ensures obs.anchorRecord.Some?
  {
    Observation(Some(1), Some(1), 0, Some(AnchorRecord(Null, Str(root), Null, Null, Null)), [wallet])
  }

  lemma HexIsNormal(s: string)
    requires IsLowerHex64(s)
    ensures NormHex(Str(s)) == s
  {
    assert !IsSpace(s[0]) && !IsSpace(s[63]);
    assert s[1] != 'x';
  }

  lemma RootOnlyRecord(h: (string, string) -> string, c: Claim, r: AnchorRecord)
    requires c.txHash in ROOT_ONLY_TXS && NormHex(r.root) == RootOf(c)
    ensures !Failing(RecordResult(h, c, r).0)
  {
    assert forall i | 0 <= i < |RecordResult(h, c, r).0| :: RecordResult(h, c, r).0[i].ok != Some(false);
  }

  lemma RootOnlyClaimWellFormed(h: (string, string) -> string, tx: string, leaves: seq<string>)
    requires leaves != [] && AllHex(leaves)
    requires IsLowerHex64(Merkle.Root(h, Merkle.ZeroRoot(), leaves))
    ensures var c := RootOnlyClaim(tx, leaves, Merkle.Root(h, Merkle.ZeroRoot(), leaves));
      Leaves(c) == leaves && WellFormed(c) && RootRecomputes(h, c) && LeafListed(c)
  {
    var root := Merkle.Root(h, Merkle.ZeroRoot(), leaves);
    var c := RootOnlyClaim(tx, leaves, root);
    HexIsNormal(root);
    HexIsNormal(leaves[0]);
    forall i | 0 <= i < |leaves| ensures NormHex(Str(leaves[i])) == leaves[i] { HexIsNormal(leaves[i]); }
    assert Leaves(c) == leaves;
  }

  lemma RootOnlyClaimVerifies(h: (string, string) -> string, tx: string, leaves: seq<string>, wallet: string,
                              parseDate: string -> Option<int>, now: int)
    requires tx in ROOT_ONLY_TXS && leaves != [] && AllHex(leaves)
    requires IsLowerHex64(Merkle.Root(h, Merkle.ZeroRoot(), leaves))
    ensures var root := Merkle.Root(h, Merkle.ZeroRoot(), leaves);
      var lookup := Found(RootOnlyTx(root, wallet));
      Verify(h, RootOnlyClaim(tx, leaves, root), lookup, [wallet], parseDate, now).status.Verified?
    ensures Leaves(RootOnlyClaim(tx, leaves, Merkle.Root(h, Merkle.ZeroRoot(), leaves))) == leaves
  {
    var root := Merkle.Root(h, Merkle.ZeroRoot(), leaves);
    var c := RootOnlyClaim(tx, leaves, root);
    HexIsNormal(root);
    RootOnlyClaimWellFormed(h, tx, leaves);
    LocalExactly(h, c);
    RootOnlyRecord(h, c, RootOnlyTx(root, wallet).anchorRecord.value);
    FailingParts(BatchChecks(h, c), TxRecord(h, c, RootOnlyTx(root, wallet)).0, FundingCheck([wallet], [wallet]));
  }

  /**
   * A root-only anchor does not name its batch: lists of 2k + 1 and 2k + 2 leaves verify
   * against one record, and no collision is needed.
   */
  lemma RootOnlyDoesNotBind(h: (string, string) -> string, tx: string, leaves: seq<string>, wallet: string,
                            parseDate: string -> Option<int>, now: int)
    requires tx in ROOT_ONLY_TXS && |leaves| % 2 == 1 && |leaves| > 1
    requires AllHex(leaves)
    requires IsLowerHex64(Merkle.Root(h, Merkle.ZeroRoot(), leaves))
    ensures exists a, b, obs ::
      && Verify(h, a, Found(obs), [wallet], parseDate, now).status.Verified?
      && Verify(h, b, Found(obs), [wallet], parseDate, now).status.Verified?
      && Leaves(a) == leaves && Leaves(b) == leaves + [leaves[|leaves| - 1]]
  {
    var more := leaves + [leaves[|leaves| - 1]];
    var root := Merkle.Root(h, Merkle.ZeroRoot(), leaves);
    Merkle.RootKeptByDuplicate(h, Merkle.ZeroRoot(), leaves);
    RootOnlyClaimVerifies(h, tx, leaves, wallet, parseDate, now);
    RootOnlyClaimVerifies(h, tx, more, wallet, parseDate, now);
    var obs := RootOnlyTx(root, wallet);
    assert Verify(h, RootOnlyClaim(tx, leaves, root), Found(obs), [wallet], parseDate, now).status.Verified?;
    assert Verify(h, RootOnlyClaim(tx, more, root), Found(obs), [wallet], parseDate, now).status.Verified?;
  }
}
