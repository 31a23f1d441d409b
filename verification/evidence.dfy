/**
 * src/receipt_attestation_evidence.ts: evidence about a receipt, one row for each attestor
 * and evidence type, and the vector whose hash every replica must agree on. The row's id and
 * submission time do not enter the vector and are left out.
 */
module Evidence {
  import opened Hex
  import opened TextOrder

  datatype EvidenceType = AmdSevSnp | IntelTdx | ArmTrustzone | ReproducibleBuild | ZkvmExecution

  function Discriminant(t: EvidenceType): nat {
    match t
    case AmdSevSnp => 0
    case IntelTdx => 1
    case ArmTrustzone => 2
    case ReproducibleBuild => 3
    case ZkvmExecution => 4
  }

  datatype Row = Row(receipt: string, kind: EvidenceType, nonce: string, payload: string, pubkey: string,
      signature: string)
  datatype Triple = Triple(receipt: string, pubkey: string, kind: EvidenceType)
  datatype Entry = Entry(kind: EvidenceType, nonce: string, payload: string)
  datatype Outcome = Inserted(row: Row) | Replay(row: Row)

  function Normal(hex: string): string { Lower(StripPrefix(hex)) }

  /** A submission as it is stored. */
  function Stored(s: Row): Row {
    s.(receipt := Normal(s.receipt), nonce := Normal(s.nonce), pubkey := Normal(s.pubkey),
      signature := Normal(s.signature))
  }

  lemma SpelledIsPlain(text: string, h: string)
    requires SpellsHex(text, h)
    ensures Normal(text) == h
  {
    assert |text| > 1 ==> (text[..2] == "0x" <==> text[0] == '0' && text[1] == 'x');
    assert |text| > 1 ==> (text[..2] == "0X" <==> text[0] == '0' && text[1] == 'X');
  }

  /** However its hashes, keys and signature are spelled, a submission is stored in one way. */
  lemma StoredAsSpelled(s: Row, plain: Row)
    requires SpellsHex(s.receipt, plain.receipt) && SpellsHex(s.nonce, plain.nonce)
    requires SpellsHex(s.pubkey, plain.pubkey) && SpellsHex(s.signature, plain.signature)
    requires s.kind == plain.kind && s.payload == plain.payload
    ensures Stored(s) == plain
  {
    SpelledIsPlain(s.receipt, plain.receipt);
    SpelledIsPlain(s.nonce, plain.nonce);
    SpelledIsPlain(s.pubkey, plain.pubkey);
    SpelledIsPlain(s.signature, plain.signature);
  }

  function TripleOf(r: Row): Triple { Triple(r.receipt, r.pubkey, r.kind) }

  // ------------------------------------------------------------ inserts

  function Triples(rows: seq<Row>): set<Triple> {
    if rows == [] then {} else Triples(rows[..|rows| - 1]) + {TripleOf(rows[|rows| - 1])}
  }

  /** The table after one more normalised submission. */
  function Added(rows: seq<Row>, r: Row): seq<Row> { if TripleOf(r) in Triples(rows) then rows else rows + [r] }

  /** The table after a history of normalised submissions. */
  function After(history: seq<Row>): seq<Row> {
    if history == [] then [] else Added(After(history[..|history| - 1]), history[|history| - 1])
  }

  predicate Unique(rows: seq<Row>) { forall i, j | 0 <= i < j < |rows| :: TripleOf(rows[i]) != TripleOf(rows[j]) }

  // ------------------------------------------------------------ the canonical order

  predicate Before(a: Row, b: Row) {
    || Discriminant(a.kind) < Discriminant(b.kind)
    || (Discriminant(a.kind) == Discriminant(b.kind) && TextLess(a.pubkey, b.pubkey))
  }

  predicate StrictlySorted(rows: seq<Row>) { forall i, j | 0 <= i < j < |rows| :: Before(rows[i], rows[j]) }

  lemma TextLessIsStrict(a: string, b: string, c: string)
    ensures !TextLess(a, a)
    ensures TextLess(a, b) && TextLess(b, c) ==> TextLess(a, c)
    ensures TextLess(a, b) || TextLess(b, a) || a == b
  {
    TextOrderIsPlaceOrder(a, a);
    TextOrderIsPlaceOrder(a, b);
    TextOrderIsPlaceOrder(b, a);
    TextOrderIsPlaceOrder(b, c);
    TextOrderIsPlaceOrder(a, c);
  }

  lemma BeforeIsStrict(a: Row, b: Row, c: Row)
    ensures !Before(a, a)
    ensures Before(a, b) && Before(b, c) ==> Before(a, c)
    ensures Before(a, b) || Before(b, a) || (a.kind == b.kind && a.pubkey == b.pubkey)
  {
    TextLessIsStrict(a.pubkey, b.pubkey, c.pubkey);
    assert Discriminant(a.kind) == Discriminant(b.kind) ==> a.kind == b.kind;
  }

  lemma FirstIsLeast(rows: seq<Row>, r: Row)
    requires StrictlySorted(rows) && r in rows
    ensures r == rows[0] || Before(rows[0], r)
  {
  }

  lemma TailHasTheRest(rows: seq<Row>, r: Row)
    requires StrictlySorted(rows) && rows != []
    ensures StrictlySorted(rows[1..])
    ensures r in rows[1..] <==> r in rows && r != rows[0]
  {
    if r in rows && r != rows[0] {
      var i :| 0 <= i < |rows| && rows[i] == r;
      assert rows[1..][i - 1] == r;
    }
    if r in rows[1..] {
      var i :| 0 <= i < |rows| - 1 && rows[1..][i] == r;
      assert Before(rows[0], rows[i + 1]);
      BeforeIsStrict(r, r, r);
    }
  }

  /** There is one way to sort a set of rows. */
  lemma {:induction false} SortedOnce(a: seq<Row>, b: seq<Row>)
    requires StrictlySorted(a) && StrictlySorted(b) && forall r :: r in a <==> r in b
    ensures a == b
  {
    if a == [] {
      assert forall i | 0 <= i < |b| :: b[i] in b;
    } else {
      assert a[0] in b && b != [] && b[0] in a;
      FirstIsLeast(a, b[0]);
      FirstIsLeast(b, a[0]);
      BeforeIsStrict(a[0], b[0], a[0]);
      forall r ensures r in a[1..] <==> r in b[1..] {
        TailHasTheRest(a, r);
        TailHasTheRest(b, r);
      }
      TailHasTheRest(a, a[0]);
      TailHasTheRest(b, b[0]);
      SortedOnce(a[1..], b[1..]);
      assert a == [a[0]] + a[1..] && b == [b[0]] + b[1..];
    }
  }

  lemma {:induction false} MemberTriple(rows: seq<Row>, i: nat)
    requires i < |rows|
    ensures TripleOf(rows[i]) in Triples(rows)
  {
    if i < |rows| - 1 { MemberTriple(rows[..|rows| - 1], i); }
  }

  lemma {:induction false} NoMember(rows: seq<Row>, t: Triple)
    requires forall i | 0 <= i < |rows| :: TripleOf(rows[i]) != t
    ensures t !in Triples(rows)
  {
    if rows != [] { NoMember(rows[..|rows| - 1], t); }
  }

  // ------------------------------------------------------------ the table

  class EvidenceTable {
    var rows: seq<Row>

    ghost predicate Valid()
      reads this
    {
      Unique(rows)
    }

    constructor ()
      ensures Valid() && rows == []
    {
      rows := [];
    }

    method InsertReceiptEvidence(s: Row) returns (outcome: Outcome)
      requires Valid()
      modifies this
      ensures Valid() && rows == Added(old(rows), Stored(s))
      ensures outcome.Inserted? <==> TripleOf(Stored(s)) !in Triples(old(rows))
      ensures outcome.row in rows && TripleOf(outcome.row) == TripleOf(Stored(s))
    {
      var row := Stored(s);
      var i := 0;
      while i < |rows|
        invariant 0 <= i <= |rows|
        invariant TripleOf(row) !in Triples(rows[..i])
      {
        assert rows[..i + 1][..i] == rows[..i];
        if TripleOf(rows[i]) == TripleOf(row) {
          MemberTriple(rows, i);
          return Replay(rows[i]);
        }
        i := i + 1;
      }
      assert rows[..i] == rows;
      forall j | 0 <= j < |rows| ensures TripleOf(rows[j]) != TripleOf(row) { MemberTriple(rows, j); }
      rows := rows + [row];
      outcome := Inserted(row);
    }

    /** Every row of a receipt, in the canonical order. */
    method ListReceiptEvidence(receipt: string) returns (list: seq<Row>)
      requires Valid()
      ensures StrictlySorted(list)
      ensures forall r :: r in list <==> r in rows && r.receipt == Normal(receipt)
    {
      var id := Normal(receipt);
      list := [];
      var i := 0;
      while i < |rows|
        invariant 0 <= i <= |rows| && StrictlySorted(list)
        invariant forall r :: r in list <==> r in rows[..i] && r.receipt == id
      {
        assert rows[..i + 1] == rows[..i] + [rows[i]];
        if rows[i].receipt == id {
          forall r | r in list ensures !(r.kind == rows[i].kind && r.pubkey == rows[i].pubkey) {
            var j :| 0 <= j < i && rows[j] == r;
          }
          list := PutInOrder(list, rows[i]);
        }
        i := i + 1;
      }
      assert rows[..i] == rows;
    }
  }

  /** Puts one more row in its place. */
  method PutInOrder(list: seq<Row>, row: Row) returns (longer: seq<Row>)
    requires StrictlySorted(list)
    requires forall r | r in list :: !(r.kind == row.kind && r.pubkey == row.pubkey)
    ensures StrictlySorted(longer)
    ensures forall r :: r in longer <==> r in list || r == row
  {
    var i := |list|;
    while i > 0 && !Before(list[i - 1], row)
      invariant 0 <= i <= |list|
      invariant forall j | i <= j < |list| :: Before(row, list[j])
    {
      BeforeIsStrict(row, list[i - 1], row);
      i := i - 1;
    }
    longer := list[..i] + [row] + list[i..];
    PlacedInOrder(list, row, i);
    assert list == list[..i] + list[i..];
  }

  lemma PlacedInOrder(list: seq<Row>, row: Row, i: nat)
    requires StrictlySorted(list) && i <= |list|
    requires i > 0 ==> Before(list[i - 1], row)
    requires forall j | i <= j < |list| :: Before(row, list[j])
    ensures StrictlySorted(list[..i] + [row] + list[i..])
  {
    var longer := list[..i] + [row] + list[i..];
    forall j | 0 <= j < i ensures Before(list[j], row) {
      if j < i - 1 { BeforeIsStrict(list[j], list[i - 1], row); }
    }
    forall j, k | 0 <= j < k < |longer| ensures Before(longer[j], longer[k]) {
      assert longer[j] == if j < i then list[j] else if j == i then row else list[j - 1];
      assert longer[k] == if k < i then list[k] else if k == i then row else list[k - 1];
    }
  }

  // ------------------------------------------------------------ the vector

  /** `list` is what listing a receipt returns when these rows are stored. */
  ghost predicate Lists(rows: seq<Row>, receipt: string, list: seq<Row>) {
    StrictlySorted(list) && forall r :: r in list <==> r in rows && r.receipt == Normal(receipt)
  }

  function Entries(list: seq<Row>): seq<Entry> {
    seq(|list|, i requires 0 <= i < |list| => Entry(list[i].kind, list[i].nonce, list[i].payload))
  }

  function KindsOf(list: seq<Row>): (kinds: seq<EvidenceType>)
    ensures |kinds| == |list| && forall i | 0 <= i < |list| :: kinds[i] == list[i].kind
  {
    seq(|list|, i requires 0 <= i < |list| => list[i].kind)
  }

  /** The encoder's own sort, stable and by discriminant alone. */
  function SortedByType(entries: seq<Entry>): seq<Entry> {
    if entries == [] then [] else PutByType(SortedByType(entries[..|entries| - 1]), entries[|entries| - 1])
  }

  function PutByType(sorted: seq<Entry>, e: Entry): seq<Entry> {
    if sorted == [] || Discriminant(sorted[|sorted| - 1].kind) <= Discriminant(e.kind) then sorted + [e]
    else PutByType(sorted[..|sorted| - 1], e) + [sorted[|sorted| - 1]]
  }

  /** The listed order survives the encoder's sort, so hash and types describe one vector. */
  lemma {:induction false} EncoderKeepsOrder(list: seq<Row>)
    requires StrictlySorted(list)
    ensures SortedByType(Entries(list)) == Entries(list)
  {
    if list != [] {
      var init := list[..|list| - 1];
      assert Entries(list)[..|list| - 1] == Entries(init);
      EncoderKeepsOrder(init);
      if init != [] { assert Before(list[|list| - 2], list[|list| - 1]); }
    }
  }

  /** `recomputeReceiptEvidenceHash`: `encode` hashes the canonical encoding of the sorted vector. */
  method RecomputeReceiptEvidenceHash(table: EvidenceTable, encode: seq<Entry> -> string, receipt: string)
    returns (hash: string, count: nat, types: seq<EvidenceType>, list: seq<Row>)
    requires table.Valid()
    ensures Lists(table.rows, receipt, list)
    ensures hash == encode(Entries(list)) && count == |list| == |types|
    ensures forall i | 0 <= i < |list| :: types[i] == list[i].kind
  {
    list := table.ListReceiptEvidence(receipt);
    EncoderKeepsOrder(list);
    hash := encode(SortedByType(Entries(list)));
    count := |list|;
    types := KindsOf(list);
  }

  // ------------------------------------------------------------ order does not matter

  /** `r` is the first submission of its triple in a history. */
  predicate IsFirst(history: seq<Row>, r: Row) {
    history != [] &&
      var init, last := history[..|history| - 1], history[|history| - 1];
      IsFirst(init, r) || (last == r && TripleOf(r) !in Triples(init))
  }

  lemma {:induction false} TableTriples(history: seq<Row>)
    ensures Triples(After(history)) == Triples(history)
  {
    if history != [] {
      var init, last := history[..|history| - 1], history[|history| - 1];
      TableTriples(init);
      assert (After(init) + [last])[..|After(init)|] == After(init);
    }
  }

  /** The table holds exactly the first submission of every triple. */
  lemma {:induction false} TableHoldsFirsts(history: seq<Row>, r: Row)
    ensures r in After(history) <==> IsFirst(history, r)
    decreases |history|
  {
    if history != [] {
      TableHoldsFirsts(history[..|history| - 1], r);
      TableTriples(history[..|history| - 1]);
    }
  }

  /** Two histories whose first submissions agree have one vector, whatever was replayed and in whatever order. */
  lemma SameFirstsSameVector(xs: seq<Row>, ys: seq<Row>, receipt: string, a: seq<Row>, b: seq<Row>)
    requires forall r :: IsFirst(xs, r) <==> IsFirst(ys, r)
    requires Lists(After(xs), receipt, a) && Lists(After(ys), receipt, b)
    ensures a == b
  {
    forall r ensures r in a <==> r in b {
      TableHoldsFirsts(xs, r);
      TableHoldsFirsts(ys, r);
    }
    SortedOnce(a, b);
  }

  /** Two orders of the same submissions, no two of one triple, have one vector. */
  lemma AnyOrderSameVector(xs: seq<Row>, ys: seq<Row>, receipt: string, a: seq<Row>, b: seq<Row>)
    requires multiset(xs) == multiset(ys) && Unique(xs) && Unique(ys)
    requires Lists(After(xs), receipt, a) && Lists(After(ys), receipt, b)
    ensures a == b
  {
    forall r ensures IsFirst(xs, r) <==> IsFirst(ys, r) {
      DistinctAreFirst(xs, r);
      DistinctAreFirst(ys, r);
      assert r in xs <==> r in multiset(xs);
      assert r in ys <==> r in multiset(ys);
    }
    SameFirstsSameVector(xs, ys, receipt, a, b);
  }

  lemma {:induction false} DistinctAreFirst(history: seq<Row>, r: Row)
    requires Unique(history)
    ensures IsFirst(history, r) <==> r in history
    decreases |history|
  {
    if history != [] {
      var init, last := history[..|history| - 1], history[|history| - 1];
      DistinctAreFirst(init, r);
      assert history == init + [last];
      assert forall i | 0 <= i < |init| :: init[i] == history[i];
      NoMember(init, TripleOf(last));
    }
  }

  lemma AfterOneMore(history: seq<Row>, r: Row)
    ensures After(history + [r]) == Added(After(history), r)
  {
    assert (history + [r])[..|history|] == history;
  }

  /** A replay, whatever it carries beside its triple, changes nothing. */
  lemma ReplayChangesNothing(history: seq<Row>, replay: Row)
    requires TripleOf(replay) in Triples(history)
    ensures After(history + [replay]) == After(history)
  {
    AfterOneMore(history, replay);
    TableTriples(history);
  }

  /** Histories that led to one table lead to one table whatever follows, a replay in one of them included. */
  lemma {:induction false} SameTableSameFuture(a: seq<Row>, b: seq<Row>, later: seq<Row>)
    requires After(a) == After(b)
    ensures After(a + later) == After(b + later)
    decreases |later|
  {
    if later == [] {
      assert a + later == a && b + later == b;
    } else {
      SameTableSameFuture(a, b, later[..|later| - 1]);
      LastOfMore(a, later);
      LastOfMore(b, later);
    }
  }

  lemma LastOfMore(a: seq<Row>, later: seq<Row>)
    requires later != []
    ensures After(a + later) == Added(After(a + later[..|later| - 1]), later[|later| - 1])
  {
    StepOf(a + later, a + later[..|later| - 1]);
  }

  lemma StepOf(longer: seq<Row>, history: seq<Row>)
    requires |longer| == |history| + 1 && forall i | 0 <= i < |history| :: longer[i] == history[i]
    ensures After(longer) == Added(After(history), longer[|history|])
  {
    assert longer[..|history|] == history;
  }
}
