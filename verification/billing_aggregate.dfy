/**
 * src/routes/billing.ts and src/billing/aggregate.ts: rows joined with what the chain says of
 * them, and the totals of a list of joined records. Sums are exact.
 */
module BillingAggregate {
  import opened Common
  import opened BillingPages
  import opened Keyset

  datatype Attestation = Certified | Pending | Unknown

  /** What the chain says of a content hash. */
  datatype ChainStatus = ChainStatus(contentHash: string, status: Attestation, certHash: Option<string>)
  datatype TrustScore = TrustScore(contentHash: string, score: Option<int>)

  datatype Record = Record(row: Row, status: Attestation, anchor: Option<string>, trust: Option<int>)

  // ------------------------------------------------------------ the join

  /** The last status named for a content hash, which is the one a map filled in order keeps. */
  function LastStatus(statuses: seq<ChainStatus>, hash: string): Option<ChainStatus> {
    if statuses == [] then None
    else if statuses[|statuses| - 1].contentHash == hash then Some(statuses[|statuses| - 1])
    else LastStatus(statuses[..|statuses| - 1], hash)
  }

  function LastScore(scores: seq<TrustScore>, hash: string): Option<int> {
    if scores == [] then None
    else if scores[|scores| - 1].contentHash == hash then scores[|scores| - 1].score
    else LastScore(scores[..|scores| - 1], hash)
  }

  /** A certificate hash that is there and not empty. */
  function Cert(s: ChainStatus): Option<string> { if s.certHash == Some("") then None else s.certHash }

  /** The Cardano transaction found last for a certificate; `txs` answers the statuses in order. */
  function LastAnchor(statuses: seq<ChainStatus>, txs: seq<Option<string>>, cert: string): Option<string> {
    if statuses == [] then None
    else
      var i := |statuses| - 1;
      if Cert(statuses[i]) == Some(cert) then (if i < |txs| then txs[i] else None)
      else LastAnchor(statuses[..i], txs, cert)
  }

  function Joined(statuses: seq<ChainStatus>, txs: seq<Option<string>>, scores: seq<TrustScore>, r: Row): Record {
    var found := LastStatus(statuses, r.contentHash);
    var chain := if found.Some? then found.value else ChainStatus(r.contentHash, Unknown, None);
    Record(r, chain.status,
           if chain.status.Certified? && Cert(chain).Some? then LastAnchor(statuses, txs, Cert(chain).value) else None,
           LastScore(scores, r.contentHash))
  }

  function JoinedAll(statuses: seq<ChainStatus>, txs: seq<Option<string>>, scores: seq<TrustScore>,
      rows: seq<Row>): (records: seq<Record>)
    ensures |records| == |rows|
    ensures forall i | 0 <= i < |rows| :: records[i] == Joined(statuses, txs, scores, rows[i])
  {
    seq(|rows|, i requires 0 <= i < |rows| => Joined(statuses, txs, scores, rows[i]))
  }

  /** The handler's join: three maps filled in loops, then one record for each row. */
  method JoinRecords(statuses: seq<ChainStatus>, txs: seq<Option<string>>, scores: seq<TrustScore>, rows: seq<Row>)
    returns (records: seq<Record>)
    ensures records == JoinedAll(statuses, txs, scores, rows)
  {
    var chainByContent := IndexStatuses(statuses);
    var trustByContent := IndexScores(scores);
    var anchorByCert := IndexAnchors(statuses, txs);
    records := [];
    var i := 0;
    while i < |rows|
      invariant 0 <= i <= |rows| && |records| == i
      invariant forall j | 0 <= j < i :: records[j] == Joined(statuses, txs, scores, rows[j])
    {
      var r := rows[i];
      var chain := if r.contentHash in chainByContent then chainByContent[r.contentHash]
        else ChainStatus(r.contentHash, Unknown, None);
      var anchor: Option<string> := None;
      if chain.status.Certified? && Cert(chain).Some? {
        anchor := if Cert(chain).value in anchorByCert then anchorByCert[Cert(chain).value] else None;
      }
      var trust := if r.contentHash in trustByContent then trustByContent[r.contentHash] else None;
      records := records + [Record(r, chain.status, anchor, trust)];
      i := i + 1;
    }
  }

  method IndexStatuses(statuses: seq<ChainStatus>) returns (m: map<string, ChainStatus>)
    ensures forall h :: if h in m then LastStatus(statuses, h) == Some(m[h]) else LastStatus(statuses, h).None?
  {
    m := map[];
    var i := 0;
    while i < |statuses|
      invariant 0 <= i <= |statuses|
      invariant forall h :: if h in m then LastStatus(statuses[..i], h) == Some(m[h])
        else LastStatus(statuses[..i], h).None?
    {
      assert statuses[..i + 1][..i] == statuses[..i];
      m := m[statuses[i].contentHash := statuses[i]];
      i := i + 1;
    }
    assert statuses[..i] == statuses;
  }

  method IndexScores(scores: seq<TrustScore>) returns (m: map<string, Option<int>>)
    ensures forall h :: LastScore(scores, h) == if h in m then m[h] else None
  {
    m := map[];
    var i := 0;
    while i < |scores|
      invariant 0 <= i <= |scores|
      invariant forall h :: LastScore(scores[..i], h) == if h in m then m[h] else None
    {
      assert scores[..i + 1][..i] == scores[..i];
      m := m[scores[i].contentHash := scores[i].score];
      i := i + 1;
    }
    assert scores[..i] == scores;
  }

  method IndexAnchors(statuses: seq<ChainStatus>, txs: seq<Option<string>>) returns (m: map<string, Option<string>>)
    ensures forall c :: LastAnchor(statuses, txs, c) == if c in m then m[c] else None
  {
    m := map[];
    var i := 0;
    while i < |statuses|
      invariant 0 <= i <= |statuses|
      invariant forall c :: LastAnchor(statuses[..i], txs, c) == if c in m then m[c] else None
    {
      assert statuses[..i + 1][..i] == statuses[..i];
      if Cert(statuses[i]).Some? {
        m := m[Cert(statuses[i]).value := if i < |txs| then txs[i] else None];
      }
      i := i + 1;
    }
    assert statuses[..i] == statuses;
  }

  // ------------------------------------------------------------ totals

  datatype Totals = Totals(
    records: nat, certified: nat, anchored: nat, teeAttested: nat,
    cpu: real, ram: real, disk: real, netIn: int, netOut: int, gpu: real,
    first: Option<int>, last: Option<int>, workers: set<string>)

  const ZERO: Totals := Totals(0, 0, 0, 0, 0.0, 0.0, 0.0, 0, 0, 0.0, None, None, {})

  function Earlier(a: Option<int>, b: Option<int>): Option<int> {
    if a.None? then b else if b.None? then a else if b.value < a.value then b else a
  }

  function Later(a: Option<int>, b: Option<int>): Option<int> {
    if a.None? then b else if b.None? then a else if b.value > a.value then b else a
  }

  /** The totals of two lists together. */
  function Sum(a: Totals, b: Totals): Totals {
    Totals(a.records + b.records, a.certified + b.certified, a.anchored + b.anchored, a.teeAttested + b.teeAttested,
           a.cpu + b.cpu, a.ram + b.ram, a.disk + b.disk, a.netIn + b.netIn, a.netOut + b.netOut, a.gpu + b.gpu,
           Earlier(a.first, b.first), Later(a.last, b.last), a.workers + b.workers)
  }

  function Of(r: Record): Totals {
    Totals(1, if r.status.Certified? then 1 else 0, if r.anchor.Some? then 1 else 0,
           if r.trust.Some? && r.trust.value >= 1 then 1 else 0,
           r.row.cpu, r.row.ram, r.row.disk, r.row.netIn, r.row.netOut, r.row.gpu, Some(r.row.start), Some(r.row.start),
             {r.row.worker})
  }

  /** What a list of records adds up to. */
  function Total(records: seq<Record>): Totals {
    if records == [] then ZERO else Sum(Total(records[..|records| - 1]), Of(records[|records| - 1]))
  }

  /** One turn of the pass: the record's fields are added one after another. */
  method Count(before: Totals, r: Record) returns (t: Totals)
    ensures t == Sum(before, Of(r))
  {
    t := before.(records := before.records + 1);
    if r.status.Certified? {
      t := t.(certified := t.certified + 1);
    }
    if r.anchor.Some? {
      t := t.(anchored := t.anchored + 1);
    }
    if r.trust.Some? && r.trust.value >= 1 {
      t := t.(teeAttested := t.teeAttested + 1);
    }
    t := t.(cpu := t.cpu + r.row.cpu, ram := t.ram + r.row.ram, disk := t.disk + r.row.disk,
            netIn := t.netIn + r.row.netIn, netOut := t.netOut + r.row.netOut, gpu := t.gpu + r.row.gpu);
    if t.first.None? || r.row.start < t.first.value {
      t := t.(first := Some(r.row.start));
    }
    if t.last.None? || r.row.start > t.last.value {
      t := t.(last := Some(r.row.start));
    }
    t := t.(workers := t.workers + {r.row.worker});
  }

  /** `aggregateRecords`: one pass; the response answers the number of workers. */
  method AggregateRecords(records: seq<Record>) returns (t: Totals, uniqueWorkers: nat)
    ensures t == Total(records) && uniqueWorkers == |t.workers|
  {
    t := ZERO;
    var i := 0;
    while i < |records|
      invariant 0 <= i <= |records| && t == Total(records[..i])
    {
      OneMoreRecord(records[..i + 1], records[..i], records[i]);
      t := Count(t, records[i]);
      i := i + 1;
    }
    assert records[..i] == records;
    uniqueWorkers := |t.workers|;
  }

  // ------------------------------------------------------------ what the totals mean

  /** The places of the records of one kind. */
  function Where(records: seq<Record>, kind: Record -> bool): set<int> {
    set i | 0 <= i < |records| && kind(records[i])
  }

  lemma WhereGrows(records: seq<Record>, kind: Record -> bool)
    requires records != []
    ensures var init, n := records[..|records| - 1], |records| - 1;
      |Where(records, kind)| == |Where(init, kind)| + (if kind(records[n]) then 1 else 0)
  {
    var init, n := records[..|records| - 1], |records| - 1;
    assert Where(records, kind) == Where(init, kind) + if kind(records[n]) then {n} else {};
  }

  predicate IsCertified(r: Record) { r.status == Certified }

  predicate IsAnchored(r: Record) { r.anchor != None }

  /** At least one trusted environment vouched for the record; no answer and a score of zero do not. */
  predicate IsAttested(r: Record) { r.trust.Some? && 0 < r.trust.value }

  lemma {:induction false} CountsMean(records: seq<Record>)
    ensures Total(records).records == |records|
    ensures Total(records).certified == |Where(records, IsCertified)|
    ensures Total(records).anchored == |Where(records, IsAnchored)|
    ensures Total(records).teeAttested == |Where(records, IsAttested)|
  {
    if records != [] {
      CountsMean(records[..|records| - 1]);
      WhereGrows(records, IsCertified);
      WhereGrows(records, IsAnchored);
      WhereGrows(records, IsAttested);
    }
  }

  /** One field of every record, added up. */
  function Adds(records: seq<Record>, field: Row -> real): real {
    if records == [] then 0.0 else Adds(records[..|records| - 1], field) + field(records[|records| - 1].row)
  }

  lemma {:induction false} SumsMean(records: seq<Record>)
    ensures Total(records).cpu == Adds(records, (r: Row) => r.cpu)
    ensures Total(records).ram == Adds(records, (r: Row) => r.ram)
    ensures Total(records).disk == Adds(records, (r: Row) => r.disk)
    ensures Total(records).gpu == Adds(records, (r: Row) => r.gpu)
    ensures Total(records).netIn as real == Adds(records, (r: Row) => r.netIn as real)
    ensures Total(records).netOut as real == Adds(records, (r: Row) => r.netOut as real)
  {
    if records != [] {
      SumsMean(records[..|records| - 1]);
    }
  }

  /** The earliest and the latest start are those of some records, and bound all of them. */
  lemma {:induction false} ExtremesMean(records: seq<Record>)
    ensures var t := Total(records);
      && (records == [] ==> t.first.None? && t.last.None?)
      && (records != [] ==>
        && t.first.Some? && (forall r | r in records :: t.first.value <= r.row.start)
        && t.last.Some? && (forall r | r in records :: r.row.start <= t.last.value)
        && (exists r :: r in records && r.row.start == t.first.value)
        && (exists r :: r in records && r.row.start == t.last.value))
  {
    if records != [] {
      var init, last := records[..|records| - 1], records[|records| - 1];
      ExtremesMean(init);
      assert records == init + [last];
      assert forall r | r in records :: r in init || r == last;
      assert last in records && forall r | r in init :: r in records;
    }
  }

  lemma {:induction false} WorkersMean(records: seq<Record>)
    ensures Total(records).workers == set r | r in records :: r.row.worker
  {
    if records != [] {
      WorkersMean(records[..|records| - 1]);
      assert records == records[..|records| - 1] + [records[|records| - 1]];
    }
  }

  // ------------------------------------------------------------ pages add up

  lemma SumAssociates(a: Totals, b: Totals, c: Totals)
    ensures Sum(Sum(a, b), c) == Sum(a, Sum(b, c))
    ensures Sum(a, ZERO) == a == Sum(ZERO, a)
  {
    assert a.workers + b.workers + c.workers == a.workers + (b.workers + c.workers);
  }

  /** `all` is `a` followed by `b`. */
  ghost predicate Follows(all: seq<Record>, a: seq<Record>, b: seq<Record>) {
    && |all| == |a| + |b|
    && (forall i | 0 <= i < |a| :: all[i] == a[i])
    && (forall i | 0 <= i < |b| :: all[|a| + i] == b[i])
  }

  lemma {:induction false} TotalOfBoth(all: seq<Record>, a: seq<Record>, b: seq<Record>)
    requires Follows(all, a, b)
    ensures Total(all) == Sum(Total(a), Total(b))
    decreases |b|
  {
    if b == [] {
      assert all == a;
      SumAssociates(Total(a), ZERO, ZERO);
    } else {
      var init, shorter := b[..|b| - 1], all[..|all| - 1];
      assert Follows(shorter, a, init);
      TotalOfBoth(shorter, a, init);
      OneMoreRecord(all, shorter, b[|b| - 1]);
      OneMoreRecord(b, init, b[|b| - 1]);
      SumAssociates(Total(a), Total(init), Of(b[|b| - 1]));
    }
  }

  lemma OneMoreRecord(longer: seq<Record>, records: seq<Record>, last: Record)
    requires |longer| == |records| + 1 && longer[|records|] == last
    requires forall i | 0 <= i < |records| :: longer[i] == records[i]
    ensures Total(longer) == Sum(Total(records), Of(last))
  {
    assert longer[..|records|] == records;
  }

  function SumOfPages(pages: seq<seq<Record>>): Totals {
    if pages == [] then ZERO else Sum(Total(pages[0]), SumOfPages(pages[1..]))
  }

  /** The totals of the pages add up to the totals of the unpaged list. */
  lemma {:induction false} PagesAddUp(pages: seq<seq<Record>>)
    ensures SumOfPages(pages) == Total(Concat(pages))
  {
    if pages != [] {
      PagesAddUp(pages[1..]);
      TotalOfBoth(Concat(pages), pages[0], Concat(pages[1..]));
    }
  }

  // ------------------------------------------------------------ a page asks for its own hashes

  datatype Answer = Answer(status: Attestation, cert: Option<string>)

  /** What the chain answers for a content hash, and the transaction its checkpoints give a certificate. */
  datatype Chain = Chain(receipt: string -> Answer, anchor: string -> Option<string>, score: string -> Option<int>)

  /** The hashes of a list, each once. */
  function Unique(hashes: seq<string>): (u: seq<string>)
    ensures forall h :: h in u <==> h in hashes
  {
    if hashes == [] then []
    else
      var init, last := Unique(hashes[..|hashes| - 1]), hashes[|hashes| - 1];
      if last in init then init else init + [last]
  }

  function HashesOf(rows: seq<Row>): (hashes: seq<string>)
    ensures |hashes| == |rows| && forall i | 0 <= i < |rows| :: hashes[i] == rows[i].contentHash
  {
    seq(|rows|, i requires 0 <= i < |rows| => rows[i].contentHash)
  }

  /** `queryReceiptStatuses`. */
  function Statuses(chain: Chain, hashes: seq<string>): (s: seq<ChainStatus>)
    ensures |s| == |hashes|
    ensures forall i | 0 <= i < |s| ::
      s[i] == ChainStatus(hashes[i], chain.receipt(hashes[i]).status, chain.receipt(hashes[i]).cert)
  {
    seq(|hashes|, i requires 0 <= i < |hashes| =>
      ChainStatus(hashes[i], chain.receipt(hashes[i]).status, chain.receipt(hashes[i]).cert))
  }

  /** `queryCompositeTrustScores`. */
  function Scores(chain: Chain, hashes: seq<string>): (s: seq<TrustScore>)
    ensures |s| == |hashes| && forall i | 0 <= i < |s| :: s[i] == TrustScore(hashes[i], chain.score(hashes[i]))
  {
    seq(|hashes|, i requires 0 <= i < |hashes| => TrustScore(hashes[i], chain.score(hashes[i])))
  }

  /** `resolveAnchorTxs`, which skips what is no certificate. */
  function AnchorTxs(chain: Chain, statuses: seq<ChainStatus>): (txs: seq<Option<string>>)
    ensures |txs| == |statuses|
    ensures forall i | 0 <= i < |txs| && Cert(statuses[i]).Some? :: txs[i] == chain.anchor(Cert(statuses[i]).value)
  {
    seq(|statuses|, i requires 0 <= i < |statuses| =>
      if Cert(statuses[i]).Some? then chain.anchor(Cert(statuses[i]).value) else None)
  }

  /** A row beside what the chain says of it. */
  function Seen(chain: Chain, r: Row): Record {
    var a := chain.receipt(r.contentHash);
    var cert := if a.cert == Some("") then None else a.cert;
    Record(r, a.status, if a.status.Certified? && cert.Some? then chain.anchor(cert.value) else None,
           chain.score(r.contentHash))
  }

  function SeenAll(chain: Chain, rows: seq<Row>): (records: seq<Record>)
    ensures |records| == |rows| && forall i | 0 <= i < |rows| :: records[i] == Seen(chain, rows[i])
  {
    seq(|rows|, i requires 0 <= i < |rows| => Seen(chain, rows[i]))
  }

  lemma {:induction false} LastOfStatuses(chain: Chain, hashes: seq<string>, h: string)
    requires h in hashes
    ensures LastStatus(Statuses(chain, hashes), h) ==
      Some(ChainStatus(h, chain.receipt(h).status, chain.receipt(h).cert))
  {
    var n := |hashes| - 1;
    if hashes[n] != h {
      LastOfStatuses(chain, hashes[..n], h);
      assert Statuses(chain, hashes)[..n] == Statuses(chain, hashes[..n]);
    }
  }

  lemma {:induction false} LastOfScores(chain: Chain, hashes: seq<string>, h: string)
    requires h in hashes
    ensures LastScore(Scores(chain, hashes), h) == chain.score(h)
  {
    var n := |hashes| - 1;
    if hashes[n] != h {
      LastOfScores(chain, hashes[..n], h);
      assert Scores(chain, hashes)[..n] == Scores(chain, hashes[..n]);
    }
  }

  lemma {:induction false} LastOfAnchors(chain: Chain, statuses: seq<ChainStatus>, s: ChainStatus)
    requires s in statuses && Cert(s).Some?
    ensures LastAnchor(statuses, AnchorTxs(chain, statuses), Cert(s).value) == chain.anchor(Cert(s).value)
  {
    var n := |statuses| - 1;
    if Cert(statuses[n]) != Cert(s) {
      LastOfAnchors(chain, statuses[..n], s);
      MoreTxs(statuses[..n], AnchorTxs(chain, statuses[..n]), AnchorTxs(chain, statuses), Cert(s).value);
    }
  }

  lemma {:induction false} MoreTxs(statuses: seq<ChainStatus>, txs: seq<Option<string>>, more: seq<Option<string>>,
      cert: string)
    requires |txs| == |statuses| <= |more|
    requires forall i | 0 <= i < |txs| && Cert(statuses[i]).Some? :: txs[i] == more[i]
    ensures LastAnchor(statuses, txs, cert) == LastAnchor(statuses, more, cert)
  {
    if statuses != [] {
      var n := |statuses| - 1;
      if Cert(statuses[n]) != Some(cert) {
        MoreTxs(statuses[..n], txs[..n], more, cert);
        MoreTxs(statuses[..n], txs[..n], txs, cert);
      }
    }
  }

  /** Joined with answers to its own page's hashes, each once, a row is seen as the chain has it. */
  lemma JoinedAsSeen(chain: Chain, rows: seq<Row>, r: Row)
    requires r in rows
    ensures var hashes := Unique(HashesOf(rows));
      var statuses := Statuses(chain, hashes);
      Joined(statuses, AnchorTxs(chain, statuses), Scores(chain, hashes), r) == Seen(chain, r)
  {
    var hashes := Unique(HashesOf(rows));
    var statuses := Statuses(chain, hashes);
    var i :| 0 <= i < |rows| && rows[i] == r;
    assert HashesOf(rows)[i] == r.contentHash;
    LastOfStatuses(chain, hashes, r.contentHash);
    LastOfScores(chain, hashes, r.contentHash);
    var j :| 0 <= j < |hashes| && hashes[j] == r.contentHash;
    if Cert(statuses[j]).Some? { LastOfAnchors(chain, statuses, statuses[j]); }
  }

  /** What the handler does with a page's rows: asks the chain for their hashes, joins and adds up. */
  method AnswerPage(chain: Chain, rows: seq<Row>) returns (records: seq<Record>, t: Totals, uniqueWorkers: nat)
    ensures records == SeenAll(chain, rows) && t == Total(records) && uniqueWorkers == |t.workers|
  {
    var hashes := Unique(HashesOf(rows));
    var statuses := Statuses(chain, hashes);
    records := JoinRecords(statuses, AnchorTxs(chain, statuses), Scores(chain, hashes), rows);
    forall i | 0 <= i < |rows| ensures records[i] == Seen(chain, rows[i]) {
      JoinedAsSeen(chain, rows, rows[i]);
    }
    t, uniqueWorkers := AggregateRecords(records);
  }

  /** The records of each page of a walk. */
  function SeenPages(chain: Chain, shown: seq<seq<Row>>): seq<seq<Record>> {
    if shown == [] then [] else [SeenAll(chain, shown[0])] + SeenPages(chain, shown[1..])
  }

  lemma {:induction false} SeenOfPages(chain: Chain, shown: seq<seq<Row>>)
    ensures Concat(SeenPages(chain, shown)) == SeenAll(chain, Concat(shown))
  {
    if shown != [] {
      SeenOfPages(chain, shown[1..]);
      assert SeenPages(chain, shown)[1..] == SeenPages(chain, shown[1..]);
      assert SeenAll(chain, shown[0] + Concat(shown[1..])) ==
        SeenAll(chain, shown[0]) + SeenAll(chain, Concat(shown[1..]));
    }
  }

  /**
   * A walk over one table, each page joined with what the chain says of that page's hashes:
   * the page totals add up to the totals of the tenant's whole window, joined at once.
   */
  lemma PageTotalsAreTheTotals(
      chain: Chain, pages: seq<Page>, shown: seq<seq<Row>>, t: Table, tenant: string, from: int, to: int)
    requires Keyed(t) && Walk(None, pages) && PagesShow(pages, shown)
    requires forall p | p in pages :: p.live == InWindow(t, tenant, from, to)
    requires forall i | 0 <= i < |shown| :: ShowsRows(t, shown[i])
    ensures SumOfPages(SeenPages(chain, shown)) ==
      Total(SeenAll(chain, RowsAt(t, tenant, from, to, SelectAll(InWindow(t, tenant, from, to)))))
  {
    PagesAddUp(SeenPages(chain, shown));
    SeenOfPages(chain, shown);
    PagesAreTheQuery(pages, shown, t, tenant, from, to);
  }

  // ------------------------------------------------------------ anchored, certified, submitted

  lemma {:induction false} CountsAreNested(records: seq<Record>)
    requires forall r | r in records :: r.anchor.Some? ==> r.status.Certified?
    ensures Total(records).anchored <= Total(records).certified <= Total(records).records == |records|
  {
    if records != [] {
      CountsAreNested(records[..|records| - 1]);
      assert records[|records| - 1] in records;
    }
  }

  /** Of every page: anchored records are among the certified ones, and those among the submitted ones. */
  lemma AnchoredCertifiedSubmitted(statuses: seq<ChainStatus>, txs: seq<Option<string>>, scores: seq<TrustScore>,
      rows: seq<Row>)
    ensures var t := Total(JoinedAll(statuses, txs, scores, rows));
      t.anchored <= t.certified <= t.records == |rows|
  {
    var records := JoinedAll(statuses, txs, scores, rows);
    forall r | r in records ensures r.anchor.Some? ==> r.status.Certified? {
      var i :| 0 <= i < |records| && records[i] == r;
    }
    CountsAreNested(records);
  }
}
