/**
 * src/storage.ts, getCardanoClaims: a batch's claims, page by page, from the claim table and
 * the batch record. The table's page is cut off at `limit + 1` rows before the two are joined.
 */
module ClaimPages {
  import opened Common
  import opened Hex
  import opened Json
  import opened Keyset
  import opened BatchRecord
  import opened BatchStore
  import opened TextOrder
  import BatchClaims
  import BatchRuns

  datatype Row = Row(key: Key, submittedAt: Option<string>)

  /** The sort key of a claim: the text order of "network:transaction". */
  function KeyOf(c: ClaimKey): Key { Key(if c.mainnet then 0 else 1, Place(c.tx)) }

  function ClaimAt(k: Key): ClaimKey { ClaimKey(k.hi == 0, TextAt(k.lo, 64)) }

  lemma ClaimOfKey(c: ClaimKey)
    requires IsLowerHex64(c.tx)
    ensures ClaimAt(KeyOf(c)) == c
  {
    TextOfPlace(c.tx);
  }

  /** The sort keys follow the text the cursors are written in. */
  lemma KeysFollowText(a: ClaimKey, b: ClaimKey)
    ensures Less(KeyOf(a), KeyOf(b)) <==> (a.mainnet && !b.mainnet) || (a.mainnet == b.mainnet && TextLess(a.tx, b.tx))
    ensures KeyOf(a) == KeyOf(b) <==> a == b
  {
    TextOrderIsPlaceOrder(a.tx, b.tx);
  }

  // ------------------------------------------------------------ one page

  predicate Names(rows: seq<Row>, k: Key) { exists i :: 0 <= i < |rows| && rows[i].key == k }

  /** The row that comes first for a key. */
  function First(rows: seq<Row>, k: Key): (r: Row)
    requires Names(rows, k)
    ensures r in rows && r.key == k
  {
    if rows[0].key == k then rows[0]
    else
      var i :| 0 <= i < |rows| && rows[i].key == k;
      assert rows[1..][i - 1].key == k;
      First(rows[1..], k)
  }

  function KeysOf(rows: seq<Row>): (keys: set<Key>)
    ensures forall k :: k in keys <==> Names(rows, k)
  {
    if rows == [] then {} else
      var keys := KeysOf(rows[1..]) + {rows[0].key};
      assert forall k :: Names(rows, k) <==> k == rows[0].key || Names(rows[1..], k) by { TailNames(rows); }
      keys
  }

  lemma TailNames(rows: seq<Row>)
    requires rows != []
    ensures forall k :: Names(rows, k) <==> k == rows[0].key || Names(rows[1..], k)
  {
    forall k | Names(rows[1..], k) ensures Names(rows, k) {
      var i :| 0 <= i < |rows[1..]| && rows[1..][i].key == k;
      assert rows[i + 1].key == k;
    }
    forall k | Names(rows, k) && k != rows[0].key ensures Names(rows[1..], k) {
      var i :| 0 <= i < |rows| && rows[i].key == k;
      assert rows[1..][i - 1].key == k;
    }
  }

  /** Every row past the cursor, the first of each key, in a map. */
  method Join(rows: seq<Row>, cursor: Option<Key>) returns (union: map<Key, Option<string>>)
    ensures forall k :: k in union <==> Names(rows, k) && Above(cursor, k)
    ensures forall k | k in union :: union[k] == First(rows, k).submittedAt
  {
    union := map[];
    var i := 0;
    while i < |rows|
      invariant 0 <= i <= |rows|
      invariant forall k :: k in union <==> Names(rows[..i], k) && Above(cursor, k)
      invariant forall k | k in union :: union[k] == First(rows[..i], k).submittedAt
    {
      OneMore(rows, i);
      if Above(cursor, rows[i].key) && rows[i].key !in union {
        union := union[rows[i].key := rows[i].submittedAt];
      }
      i := i + 1;
    }
    assert rows[..i] == rows;
  }

  lemma OneMore(rows: seq<Row>, i: nat)
    requires i < |rows|
    ensures forall k :: Names(rows[..i + 1], k) <==> Names(rows[..i], k) || rows[i].key == k
    ensures forall k | Names(rows[..i + 1], k) :: 
      First(rows[..i + 1], k) == if Names(rows[..i], k) then First(rows[..i], k) else rows[i]
  {
    assert rows[..i + 1] == rows[..i] + [rows[i]];
    forall k { Appended(rows[..i], rows[i], k); }
  }

  lemma {:induction false} Appended(rows: seq<Row>, last: Row, k: Key)
    ensures Names(rows + [last], k) <==> Names(rows, k) || last.key == k
    ensures Names(rows + [last], k) ==> First(rows + [last], k) == if Names(rows, k) then First(rows, k) else last
  {
    var more := rows + [last];
    if Names(rows, k) {
      var i :| 0 <= i < |rows| && rows[i].key == k;
      assert more[i].key == k;
    }
    if last.key == k { assert more[|rows|].key == k; }
    if rows != [] {
      assert more[1..] == rows[1..] + [last];
      Appended(rows[1..], last, k);
      TailNames(rows);
      TailNames(more);
    }
  }

  function RowsAt(table: map<Key, Option<string>>, keys: seq<Key>): (rows: seq<Row>)
    requires forall k | k in keys :: k in table
    ensures |rows| == |keys| && forall i | 0 <= i < |rows| :: rows[i] == Row(keys[i], table[keys[i]])
  {
    seq(|keys|, i requires 0 <= i < |keys| => Row(keys[i], table[keys[i]]))
  }

  function KeySeq(rows: seq<Row>): (keys: seq<Key>)
    ensures |keys| == |rows| && forall i | 0 <= i < |keys| :: keys[i] == rows[i].key
  {
    seq(|rows|, i requires 0 <= i < |rows| => rows[i].key)
  }

  lemma StoredFirst(stored: seq<Row>, record: seq<Row>, table: map<Key, Option<string>>, k: Key)
    requires forall r | r in stored :: r.key in table && r.submittedAt == table[r.key]
    requires Names(stored + record, k)
    ensures Names(stored, k) ==> First(stored + record, k).submittedAt == table[k]
    ensures !Names(stored, k) ==> Names(record, k) && First(stored + record, k) == First(record, k)
    ensures Names(stored + record, k) <==> Names(stored, k) || Names(record, k)
  {
    Concatenated(stored, record, k);
    if Names(stored, k) {
      assert First(stored, k) in stored;
    }
  }

  lemma {:induction false} Concatenated(a: seq<Row>, b: seq<Row>, k: Key)
    ensures Names(a + b, k) <==> Names(a, k) || Names(b, k)
    ensures Names(a, k) ==> First(a + b, k) == First(a, k)
    ensures !Names(a, k) && Names(b, k) ==> First(a + b, k) == First(b, k)
  {
    if a == [] {
      assert a + b == b;
    } else {
      assert (a + b)[1..] == a[1..] + b;
      Concatenated(a[1..], b, k);
      TailNames(a);
      TailNames(a + b);
    }
  }

  /** `union` holds every row past the cursor, the first of each key, and `sorted` its keys. */
  ghost predicate Joined(rows: seq<Row>, cursor: Option<Key>, union: map<Key, Option<string>>, sorted: seq<Key>) {
    && Ascending(sorted)
    && (forall k :: k in sorted <==> Names(rows, k) && Above(cursor, k))
    && (forall k | k in sorted :: k in union && union[k] == First(rows, k).submittedAt)
  }

  method JoinSorted(rows: seq<Row>, cursor: Option<Key>) returns (union: map<Key, Option<string>>, sorted: seq<Key>)
    ensures Joined(rows, cursor, union, sorted)
    ensures forall k | k in sorted :: k in union
  {
    union := Join(rows, cursor);
    sorted := SelectAll(union.Keys);
  }

  /** One page of the claims in a table, of which `first` was queried, and a record. */
  method ClaimPage(table: map<Key, Option<string>>, first: seq<Key>, record: seq<Row>, cursor: Option<Key>, limit: nat)
    returns (page: seq<Row>, next: Option<Key>)
    requires limit > 0 && Truncates(first, table.Keys, cursor, limit)
    ensures |page| <= limit
    ensures Sound(Page(cursor, table.Keys + KeysOf(record), KeySeq(page), next))
    ensures forall r | r in page :: Agrees(table, record, r)
  {
    var union, sorted := JoinSorted(RowsAt(table, first) + record, cursor);
    page := RowsAt(union, if |sorted| < limit then sorted else sorted[..limit]);
    next := if |sorted| > limit then Some(sorted[limit - 1]) else None;
    PageIsRight(table, record, cursor, limit, first, union, sorted);
  }

  /** A row that shows the table's time, or without a table row the record's first. */
  ghost predicate Agrees(table: map<Key, Option<string>>, record: seq<Row>, r: Row) {
    if r.key in table then r.submittedAt == table[r.key] else Names(record, r.key) && r == First(record, r.key)
  }

  lemma PageIsRight(table: map<Key, Option<string>>, record: seq<Row>, cursor: Option<Key>, limit: nat,
                    first: seq<Key>, union: map<Key, Option<string>>, sorted: seq<Key>)
    requires limit > 0 && Truncates(first, table.Keys, cursor, limit)
    requires Joined(RowsAt(table, first) + record, cursor, union, sorted)
    ensures var page := RowsAt(union, if |sorted| < limit then sorted else sorted[..limit]);
      && Sound(Page(cursor, table.Keys + KeysOf(record), KeySeq(page),
                    if |sorted| > limit then Some(sorted[limit - 1]) else None))
      && forall r | r in page :: Agrees(table, record, r)
  {
    var n := if |sorted| < limit then |sorted| else limit;
    var page := RowsAt(union, sorted[..n]);
    assert sorted[..|sorted|] == sorted;
    JoinUnites(table, record, cursor, limit, first, sorted);
    UnionPrefix(first, table.Keys, KeysOf(record), cursor, limit, sorted, n);
    assert KeySeq(page) == sorted[..n];
    forall r | r in page ensures Agrees(table, record, r) {
      PageRow(table, record, cursor, limit, first, union, sorted, n, r);
    }
  }

  lemma PageRow(table: map<Key, Option<string>>, record: seq<Row>, cursor: Option<Key>, limit: nat,
                first: seq<Key>, union: map<Key, Option<string>>, sorted: seq<Key>, n: nat, r: Row)
    requires Truncates(first, table.Keys, cursor, limit) && Unites(sorted, first, KeysOf(record), cursor)
    requires Joined(RowsAt(table, first) + record, cursor, union, sorted)
    requires n <= |sorted| && n <= limit && r in RowsAt(union, sorted[..n])
    ensures Agrees(table, record, r)
  {
    var i :| 0 <= i < n && RowsAt(union, sorted[..n])[i] == r;
    assert sorted[i] in sorted && r.key == sorted[i];
    TableWins(table, record, cursor, limit, first, sorted, i);
  }

  lemma JoinUnites(table: map<Key, Option<string>>, record: seq<Row>, cursor: Option<Key>, limit: nat, first: seq<Key>,
      sorted: seq<Key>)
    requires Truncates(first, table.Keys, cursor, limit)
    requires Ascending(sorted) && forall k :: k in sorted <==>
      Names(RowsAt(table, first) + record, k) && Above(cursor, k)
    ensures Unites(sorted, first, KeysOf(record), cursor)
  {
    forall k ensures k in sorted <==> k in first || (k in KeysOf(record) && Above(cursor, k)) {
      StoredNames(table, first, k);
      Concatenated(RowsAt(table, first), record, k);
    }
  }

  /** A table row past the cut-off is past the page too, so the table's time shows wherever it has one. */
  lemma TableWins(table: map<Key, Option<string>>, record: seq<Row>, cursor: Option<Key>, limit: nat, first: seq<Key>,
      sorted: seq<Key>, i: nat)
    requires Truncates(first, table.Keys, cursor, limit) && Unites(sorted, first, KeysOf(record), cursor)
    requires i < |sorted| && i < limit && Names(RowsAt(table, first) + record, sorted[i])
    ensures var r := First(RowsAt(table, first) + record, sorted[i]);
      if sorted[i] in table then r.submittedAt == table[sorted[i]]
      else Names(record, sorted[i]) && r == First(record, sorted[i])
  {
    var k := sorted[i];
    StoredNames(table, first, k);
    StoredFirst(RowsAt(table, first), record, table, k);
    if k in table && k !in first {
      assert k in sorted && Above(cursor, k);
      TruncatedLiesPast(first, table.Keys, cursor, limit, sorted, i + 1, k);
    }
  }

  lemma StoredNames(table: map<Key, Option<string>>, first: seq<Key>, k: Key)
    requires forall k | k in first :: k in table
    ensures Names(RowsAt(table, first), k) <==> k in first
  {
    var rows := RowsAt(table, first);
    if k in first {
      var i :| 0 <= i < |first| && first[i] == k;
      assert rows[i].key == k;
    }
  }

  // ------------------------------------------------------------ the whole read

  datatype ReadError = BadId | BadCursor | BadLimit | NotAvailable | BadRecord | BadRow

  /** A cursor's text: "mainnet:" or "preprod:" and a transaction of 64 lower-case digits. */
  function CursorKey(text: string): (k: Option<Key>)
    ensures k.Some? <==> exists c: ClaimKey :: IsLowerHex64(c.tx) && text == CursorText(c)
    ensures forall c: ClaimKey | IsLowerHex64(c.tx) && text == CursorText(c) :: k == Some(KeyOf(c))
  {
    assert forall c: ClaimKey | IsLowerHex64(c.tx) ::
      CursorText(c)[..8] == (if c.mainnet then "mainnet:" else "preprod:") && CursorText(c)[8..] == c.tx;
    if |text| == 72 && (text[..8] == "mainnet:" || text[..8] == "preprod:") && IsLowerHex64(text[8..]) then
      var c := ClaimKey(text[..8] == "mainnet:", text[8..]);
      assert text == text[..8] + text[8..] == CursorText(c);
      assert "mainnet:"[0] != "preprod:"[0];
      Some(KeyOf(c))
    else None
  }

  /** The text a page answers for its last claim. */
  function CursorText(c: ClaimKey): string { (if c.mainnet then "mainnet:" else "preprod:") + c.tx }

  /** The place a cursor asks to go on from; an absent or empty one asks for the start. */
  function After(cursor: Option<string>): Option<Key> {
    if cursor.None? || cursor.value == "" then None else CursorKey(cursor.value)
  }

  predicate CursorReads(cursor: Option<string>) { cursor.None? || cursor.value == "" || CursorKey(cursor.value).Some? }

  /** A cursor says nothing, or what a page answers for some claim. */
  ghost predicate Stated(cursor: Option<string>) {
    cursor.None? || cursor.value == "" || exists c: ClaimKey :: IsLowerHex64(c.tx) && cursor.value == CursorText(c)
  }

  /** What a cursor asks for: everything, or what comes after the claim it was answered for. */
  lemma CursorExactly(cursor: Option<string>)
    ensures CursorReads(cursor) <==> Stated(cursor)
    ensures cursor.None? || cursor.value == "" ==> After(cursor).None?
    ensures forall c: ClaimKey | IsLowerHex64(c.tx) && cursor == Some(CursorText(c)) :: After(cursor) == Some(KeyOf(c))
  {
  }

  /** The rows of a record's claims. */
  function RecordRows(o: Oracles, r: Fields): seq<Row> {
    var claims := Claims(o, r);
    seq(|claims|, i requires 0 <= i < |claims| => Row(KeyOf(claims[i].key), claims[i].submittedAt))
  }

  /** The sort keys of a batch's rows in the table, whose transactions are 64 lower-case digits. */
  function TableKeys(claims: map<(string, ClaimKey), Option<string>>, id: string): set<Key> {
    set c | c in claims && c.0 == id && IsLowerHex64(c.1.tx) :: KeyOf(c.1)
  }

  /** A batch's sort keys in the table are those of its own claims. */
  lemma TableKeysExactly(claims: map<(string, ClaimKey), Option<string>>, id: string, c: ClaimKey)
    requires IsLowerHex64(c.tx)
    ensures KeyOf(c) in TableKeys(claims, id) <==> (id, c) in claims
  {
    assert (id, c).1 == c;
    if KeyOf(c) in TableKeys(claims, id) {
      var d :| d in claims && d.0 == id && IsLowerHex64(d.1.tx) && KeyOf(d.1) == KeyOf(c);
      KeysFollowText(d.1, c);
      assert d == (id, c);
    }
  }

  function TableRows(claims: map<(string, ClaimKey), Option<string>>, id: string): (t: map<Key, Option<string>>)
    ensures t.Keys == TableKeys(claims, id)
  {
    map k | k in TableKeys(claims, id) ::
      if (id, ClaimAt(k)) in claims then claims[(id, ClaimAt(k))] else None
  }

  lemma TableRowIsTheClaim(claims: map<(string, ClaimKey), Option<string>>, id: string, c: ClaimKey)
    requires (id, c) in claims && IsLowerHex64(c.tx)
    ensures KeyOf(c) in TableRows(claims, id) && TableRows(claims, id)[KeyOf(c)] == claims[(id, c)]
  {
    ClaimOfKey(c);
    assert (id, c).1 == c;
  }

  /** A row of the table as a claim sent on its own. */
  function RowClaim(r: Row): CardanoClaim { CardanoClaim(ClaimAt(r.key), r.submittedAt) }

  /** Every row queried is parsed again; one that does not parse fails the read. */
  predicate RowParses(o: Oracles, r: Row) { ParseClaim(o, Stored(RowClaim(r))).Ok? }

  predicate AllParse(o: Oracles, rows: seq<Row>) { forall i | 0 <= i < |rows| :: RowParses(o, rows[i]) }

  lemma AllParseExactly(o: Oracles, rows: seq<Row>)
    ensures AllParse(o, rows) <==> forall r | r in rows :: ParseClaim(o, Stored(RowClaim(r))).Ok?
  {
    assert forall r | r in rows :: RowParses(o, r) <==> ParseClaim(o, Stored(RowClaim(r))).Ok?;
  }

  /** A claim that was parsed once parses again to itself, as long as its own text is not too long. */
  lemma ParsedClaimParsesAgain(o: Oracles, sent: Json, c: CardanoClaim)
    requires ParseClaim(o, sent) == Ok(c)
    ensures ParseClaim(o, Stored(c)) == if o.size(Stored(c).fields) <= 1024 then Ok(c) else Err(OverCapacity)
  {
    StoredClaimReads(o, c);
    var r := Stored(c).fields;
    assert "mainnet"[0] != "preprod"[0];
    assert Field(r, "cardanoTxHash") == Str(c.key.tx);
    assert c.submittedAt.Some? ==> Field(r, "cardanoSubmittedAt") == Str(c.submittedAt.value);
    assert c.submittedAt.None? ==> Field(r, "cardanoSubmittedAt").Undefined?;
  }

  /** Parses one row after another until one fails. */
  method ParseRows(rows: seq<Row>, parses: Row -> bool) returns (ok: bool)
    ensures ok <==> forall i | 0 <= i < |rows| :: parses(rows[i])
  {
    var i := 0;
    while i < |rows|
      invariant 0 <= i <= |rows|
      invariant forall j | 0 <= j < i :: parses(rows[j])
    {
      if !parses(rows[i]) {
        return false;
      }
      i := i + 1;
    }
    ok := true;
  }

  /** The rows a page queries. */
  function Queried(claims: map<(string, ClaimKey), Option<string>>, id: string, cursor: Option<Key>,
      limit: nat): seq<Row> {
    RowsAt(TableRows(claims, id), SelectOneMore(TableKeys(claims, id), cursor, limit))
  }

  /** The page of a record that was found, unless a queried row does not parse. */
  method ReadPage(o: Oracles, record: Reading, claims: map<(string, ClaimKey), Option<string>>, id: string,
                  after: Option<Key>, limit: nat)
    returns (r: Result<(seq<Row>, Option<Key>), ReadError>)
    requires record.Loaded? && limit > 0
    ensures r == Err(BadRow) || r.Ok?
    ensures r.Ok? <==> AllParse(o, Queried(claims, id, after, limit))
    ensures r.Ok? ==> |r.value.0| <= limit
    ensures r.Ok? ==> Sound(Page(after, LiveKeys(o, record, claims, id), KeySeq(r.value.0), r.value.1))
    ensures r.Ok? ==> forall row | row in r.value.0 :: Agrees(TableRows(claims, id), RecordRows(o, record.fields), row)
  {
    var table := TableRows(claims, id);
    var first := SelectOneMore(table.Keys, after, limit);
    var parsed := ParseRows(RowsAt(table, first), row => RowParses(o, row));
    if !parsed {
      return Err(BadRow);
    }
    var page, next := ClaimPage(table, first, RecordRows(o, record.fields), after, limit);
    r := Ok((page, next));
  }

  /** The record is read from `s`, and the table a moment later, when it holds `claims`. */
  method ReadClaims(o: Oracles, s: Store, claims: map<(string, ClaimKey), Option<string>>, anchorId: string,
                    cursor: Option<string>, limit: int)
    returns (r: Result<(seq<Row>, Option<Key>), ReadError>)
    ensures r == Err(BadId) <==> !IsHex64(Strip0x(anchorId))
    ensures r == Err(BadCursor) <==> IsHex64(Strip0x(anchorId)) && !CursorReads(cursor)
    ensures r == Err(BadLimit) <==> IsHex64(Strip0x(anchorId)) && CursorReads(cursor) && !(1 <= limit <= 64)
    ensures r.Ok? || r == Err(BadRow) <==>
      && IsHex64(Strip0x(anchorId)) && CursorReads(cursor) && 1 <= limit <= 64
      && Read(s.files, s.mapped, Canonical(anchorId)).Loaded?
    ensures r == Err(NotAvailable) ==> Read(s.files, s.mapped, Canonical(anchorId)).Absent?
    ensures r == Err(BadRecord) ==> Read(s.files, s.mapped, Canonical(anchorId)).Failed?
    ensures r.Ok? ==> AllParse(o, Queried(claims, Canonical(anchorId), After(cursor), limit))
    ensures r == Err(BadRow) ==> !AllParse(o, Queried(claims, Canonical(anchorId), After(cursor), limit))
    ensures r.Ok? ==> |r.value.0| <= limit
    ensures var record := Read(s.files, s.mapped, Canonical(anchorId));
      r.Ok? ==>
        Sound(Page(After(cursor), LiveKeys(o, record, claims, Canonical(anchorId)), KeySeq(r.value.0), r.value.1))
    ensures r.Ok? ==> forall row | row in r.value.0 ::
      Agrees(TableRows(claims, Canonical(anchorId)),
             RecordRows(o, Read(s.files, s.mapped, Canonical(anchorId)).fields), row)
  {
    if !IsHex64(Strip0x(anchorId)) {
      return Err(BadId);
    }
    var key := Canonical(anchorId);
    if !CursorReads(cursor) {
      return Err(BadCursor);
    }
    if !(1 <= limit <= 64) {
      return Err(BadLimit);
    }
    var record := Read(s.files, s.mapped, key);
    if !record.Loaded? {
      return Err(if record.Failed? then BadRecord else NotAvailable);
    }
    r := ReadPage(o, record, claims, key, After(cursor), limit);
  }

  /** The sort keys a reader can find for a batch, in its record and in the table. */
  function LiveKeys(o: Oracles, record: Reading, claims: map<(string, ClaimKey), Option<string>>,
      id: string): set<Key> {
    TableKeys(claims, id) + (if record.Loaded? then KeysOf(RecordRows(o, record.fields)) else {})
  }

  lemma {:induction false} RowsOfClaims(claims: seq<CardanoClaim>, c: ClaimKey)
    requires c in Keys(claims)
    ensures exists i :: 0 <= i < |claims| && claims[i].key == c
  {
    if claims[|claims| - 1].key != c {
      RowsOfClaims(claims[..|claims| - 1], c);
      var i :| 0 <= i < |claims| - 1 && claims[..|claims| - 1][i].key == c;
      assert claims[i].key == c;
    }
  }

  lemma TableClaimIsLive(o: Oracles, record: Reading, claims: map<(string, ClaimKey), Option<string>>, id: string,
      c: ClaimKey)
    requires c in BatchClaims.InTable(claims, id) && IsLowerHex64(c.tx)
    ensures KeyOf(c) in LiveKeys(o, record, claims, id)
  {
    assert (id, c) in claims && (id, c).1 == c;
  }

  lemma RecordClaimIsLive(o: Oracles, record: Reading, claims: map<(string, ClaimKey), Option<string>>, id: string,
      c: ClaimKey)
    requires c in BatchClaims.InRecord(o, record)
    ensures KeyOf(c) in LiveKeys(o, record, claims, id)
  {
    var rows := Claims(o, record.fields);
    RowsOfClaims(rows, c);
    var i :| 0 <= i < |rows| && rows[i].key == c;
    assert RecordRows(o, record.fields)[i].key == KeyOf(c);
  }

  /** What a page found: a record as some later store has it, and the table as it was after more steps. */
  ghost predicate FoundLater(o: Oracles, w: BatchRuns.World, id: string, live: set<Key>) {
    exists es, more ::
      && BatchRuns.CanRun(o, w, es) && BatchRuns.CanRun(o, BatchRuns.After(o, w, es), more)
      && live == LiveAfter(o, w, es, more, id)
  }

  ghost function LiveAfter(o: Oracles, w: BatchRuns.World, es: seq<BatchRuns.Event>, more: seq<BatchRuns.Event>,
      id: string): set<Key>
    requires BatchRuns.CanRun(o, w, es) && BatchRuns.CanRun(o, BatchRuns.After(o, w, es), more)
  {
    var s := BatchRuns.After(o, w, es).store;
    LiveKeys(o, Read(s.files, s.mapped, id), BatchRuns.After(o, BatchRuns.After(o, w, es), more).store.claims, id)
  }

  lemma ClaimedStaysLive(o: Oracles, w: BatchRuns.World, es: seq<BatchRuns.Event>, more: seq<BatchRuns.Event>,
      id: string, c: ClaimKey)
    requires BatchRuns.Fine(w.store) && IsLowerHex64(id) && BatchClaims.ClaimsAgree(o, w.store, id)
    requires BatchRuns.CanRun(o, w, es) && BatchRuns.CanRun(o, BatchRuns.After(o, w, es), more)
    requires c in BatchClaims.Visible(o, w.store, id) && IsLowerHex64(c.tx)
    ensures KeyOf(c) in LiveAfter(o, w, es, more, id)
  {
    var later := BatchRuns.After(o, w, es);
    var record := Read(later.store.files, later.store.mapped, id);
    BatchClaims.ClaimsAreNeverLost(o, w, es, id);
    if c in BatchClaims.InRecord(o, record) {
      RecordClaimIsLive(o, record, BatchRuns.After(o, later, more).store.claims, id, c);
    } else {
      BatchClaims.RunKeepsTable(o, later, more, id);
      TableClaimIsLive(o, record, BatchRuns.After(o, later, more).store.claims, id, c);
    }
  }

  /**
   * Pages read to the end, the record and the table of each from whatever stores the processes
   * have reached by then: no claim comes twice, and a claim stored before the walk began, by
   * either writer, comes, as long as the old files of this id agree on their claims.
   */
  lemma {:induction false} WalkFindsEveryClaim(o: Oracles, w: BatchRuns.World, id: string, pages: seq<Page>,
      c: ClaimKey)
    requires BatchRuns.Fine(w.store) && IsLowerHex64(id) && BatchClaims.ClaimsAgree(o, w.store, id)
    requires Walk(None, pages) && forall i | 0 <= i < |pages| :: FoundLater(o, w, id, pages[i].live)
    requires c in BatchClaims.Visible(o, w.store, id) && IsLowerHex64(c.tx)
    ensures KeyOf(c) in Visited(pages) && Ascending(Visited(pages))
  {
    WalkVisitsEachKeyOnce(None, pages);
    forall p | p in pages ensures KeyOf(c) in p.live {
      var i :| 0 <= i < |pages| && pages[i] == p;
      var es, more :|
        && BatchRuns.CanRun(o, w, es) && BatchRuns.CanRun(o, BatchRuns.After(o, w, es), more)
        && p.live == LiveAfter(o, w, es, more, id);
      ClaimedStaysLive(o, w, es, more, id, c);
    }
  }
}
