/**
 * src/worker_bounds.ts and src/routes/billing.ts: metering submissions, one row for each
 * content hash, and a tenant's rows in a time window, page by page.
 */
module BillingPages {
  import opened Common
  import opened Keyset
  import opened TextOrder

  /** Amounts that JavaScript keeps as floating point are reals. */
  datatype Row = Row(
    contentHash: string, tenant: string, worker: string, start: int, end: int,
    cpu: real, ram: real, disk: real, netIn: int, netOut: int, gpu: real, submitted: int)

  type Table = map<string, Row>

  /** Rows are kept under their own content hash. */
  predicate Keyed(t: Table) { forall h | h in t :: t[h].contentHash == h }

  /** The order of the pages: by period start, then by content hash. */
  function RowKey(r: Row): Key { Key(r.start, Place(r.contentHash)) }

  /** The table holds this very row. */
  predicate Has(t: Table, r: Row) { r.contentHash in t && t[r.contentHash] == r }

  /** The sort keys of a tenant's rows whose period starts in `[from, to)`. */
  function InWindow(t: Table, tenant: string, from: int, to: int): set<Key> {
    set h | h in t && t[h].tenant == tenant && from <= t[h].start < to :: RowKey(t[h])
  }

  /** Rows of one table have different sort keys. */
  lemma RowsHaveDifferentKeys(t: Table)
    requires Keyed(t)
    ensures forall g, h | g in t && h in t && RowKey(t[g]) == RowKey(t[h]) :: g == h
  {
    forall g, h | g in t && h in t && RowKey(t[g]) == RowKey(t[h]) ensures g == h { TextOrderIsPlaceOrder(g, h); }
  }

  /** The row a sort key belongs to. */
  function RowAt(t: Table, k: Key): (r: Option<Row>)
    requires Keyed(t)
    ensures r.Some? ==> Has(t, r.value) && RowKey(r.value) == k
    ensures r.None? ==> forall h | h in t :: RowKey(t[h]) != k
  {
    if exists h :: h in t && RowKey(t[h]) == k then
      RowsHaveDifferentKeys(t);
      var h :| h in t && RowKey(t[h]) == k;
      Some(t[h])
    else None
  }

  lemma KeyFindsRow(t: Table, tenant: string, from: int, to: int, k: Key)
    requires Keyed(t) && k in InWindow(t, tenant, from, to)
    ensures RowAt(t, k).Some? && RowAt(t, k).value.tenant == tenant && from <= RowAt(t, k).value.start < to
  {
    var h :| h in t && t[h].tenant == tenant && from <= t[h].start < to && RowKey(t[h]) == k;
    SameKeySameRow(t, RowAt(t, k).value, t[h]);
  }

  lemma SameKeySameRow(t: Table, a: Row, b: Row)
    requires Keyed(t) && Has(t, a) && Has(t, b) && RowKey(a) == RowKey(b)
    ensures a == b
  {
    TextOrderIsPlaceOrder(a.contentHash, b.contentHash);
  }

  function RowsAt(t: Table, tenant: string, from: int, to: int, keys: seq<Key>): (rows: seq<Row>)
    requires Keyed(t) && forall k | k in keys :: k in InWindow(t, tenant, from, to)
    ensures |rows| == |keys|
    ensures forall i | 0 <= i < |rows| :: RowKey(rows[i]) == keys[i] && RowAt(t, keys[i]) == Some(rows[i])
  {
    if keys == [] then []
    else
      KeyFindsRow(t, tenant, from, to, keys[|keys| - 1]);
      RowsAt(t, tenant, from, to, keys[..|keys| - 1]) + [RowAt(t, keys[|keys| - 1]).value]
  }

  function KeysOf(rows: seq<Row>): (keys: seq<Key>)
    ensures |keys| == |rows| && forall i | 0 <= i < |keys| :: keys[i] == RowKey(rows[i])
  {
    seq(|rows|, i requires 0 <= i < |rows| => RowKey(rows[i]))
  }

  /** The cursor of the next page, if the page is full. */
  function NextCursor(rows: seq<Row>, pageSize: nat): Option<Key> {
    if |rows| < pageSize || rows == [] then None else Some(RowKey(rows[|rows| - 1]))
  }

  class Submissions {
    var rows: Table

    constructor ()
      ensures rows == map[]
    {
      rows := map[];
    }

    /** A retry of a content hash is ignored, whatever it carries. */
    method RecordMeteringSubmission(r: Row)
      requires Keyed(rows)
      modifies this
      ensures Keyed(rows)
      ensures rows == if r.contentHash in old(rows) then old(rows) else old(rows)[r.contentHash := r]
    {
      if r.contentHash !in rows {
        rows := rows[r.contentHash := r];
      }
    }

    /** One page and the cursor the route answers with it. */
    method BillingPage(tenant: string, from: int, to: int, pageSize: nat, after: Option<Key>)
      returns (page: seq<Row>, next: Option<Key>)
      requires Keyed(rows) && 1 <= pageSize <= 500
      ensures |page| <= pageSize
      ensures Sound(Page(after, InWindow(rows, tenant, from, to), KeysOf(page), next))
      ensures forall r | r in page :: Has(rows, r) && r.tenant == tenant && from <= r.start < to
    {
      var keys := Select(InWindow(rows, tenant, from, to), after, pageSize);
      page := RowsAt(rows, tenant, from, to, keys);
      next := NextCursor(page, pageSize);
      assert KeysOf(page) == keys;
      FullPageIsSound(InWindow(rows, tenant, from, to), after, pageSize, keys);
      forall r | r in page
        ensures Has(rows, r) && r.tenant == tenant && from <= r.start < to
      {
        var i :| 0 <= i < |page| && page[i] == r;
        KeyFindsRow(rows, tenant, from, to, keys[i]);
      }
    }
  }

  /** A cursor is given exactly with a full page, so the page without one is the last. */
  lemma FullPageIsSound(live: set<Key>, after: Option<Key>, pageSize: nat, keys: seq<Key>)
    requires pageSize > 0 && keys == Select(live, after, pageSize)
    ensures Sound(Page(after, live, keys, if |keys| < pageSize then None else Some(keys[|keys| - 1])))
  {
    var next := if |keys| < pageSize then None else Some(keys[|keys| - 1]);
    forall k | k in live && Above(after, k) && (next.Some? ==> !Less(next.value, k)) ensures k in keys {
      if next.Some? && k != next.value {
        assert Less(k, keys[|keys| - 1]);
      }
    }
  }

  // ------------------------------------------------------------ walks

  ghost predicate PagesShow(pages: seq<Page>, shown: seq<seq<Row>>) {
    |pages| == |shown| && forall i | 0 <= i < |pages| :: pages[i].visited == KeysOf(shown[i])
  }

  lemma {:induction false} ShownIsVisited(pages: seq<Page>, shown: seq<seq<Row>>)
    requires PagesShow(pages, shown)
    ensures KeysOf(Concat(shown)) == Visited(pages)
    decreases |pages|
  {
    if pages != [] {
      ShownIsVisited(pages[1..], shown[1..]);
      assert KeysOf(shown[0] + Concat(shown[1..])) == KeysOf(shown[0]) + KeysOf(Concat(shown[1..]));
    }
  }

  /**
   * Following the cursors to the end, while other submissions arrive: rows come in order of
   * period start and content hash, no row twice, and every row of the tenant's window that
   * was stored before the walk began.
   */
  lemma {:induction false} WalkShowsEveryRow(pages: seq<Page>, shown: seq<seq<Row>>, tables: seq<Table>,
      tenant: string, from: int, to: int, r: Row)
    requires Walk(None, pages) && PagesShow(pages, shown) && |tables| == |pages|
    requires forall i | 0 <= i < |pages| ::
      pages[i].live == InWindow(tables[i], tenant, from, to) && ShowsRows(tables[i], shown[i])
    requires forall i | 0 <= i < |tables| :: Has(tables[i], r)
    requires r.tenant == tenant && from <= r.start < to
    ensures Ascending(KeysOf(Concat(shown)))
    ensures r in Concat(shown)
  {
    WalkVisitsEachKeyOnce(None, pages);
    ShownIsVisited(pages, shown);
    forall p | p in pages ensures RowKey(r) in p.live {
      var i :| 0 <= i < |pages| && pages[i] == p;
      assert Has(tables[i], r);
    }
    KeyIsShown(shown, tables, RowKey(r), r);
  }

  /** A page shows rows of the table it was read from. */
  ghost predicate ShowsRows(t: Table, rows: seq<Row>) { Keyed(t) && forall q | q in rows :: Has(t, q) }

  lemma KeyIsShown(shown: seq<seq<Row>>, tables: seq<Table>, k: Key, r: Row)
    requires |tables| == |shown| && (forall i | 0 <= i < |shown| :: ShowsRows(tables[i], shown[i]))
    requires (forall i | 0 <= i < |tables| :: Has(tables[i], r)) && k == RowKey(r) && k in KeysOf(Concat(shown))
    ensures r in Concat(shown)
  {
    var all := Concat(shown);
    var i :| 0 <= i < |all| && KeysOf(all)[i] == k;
    var j := PageOf(shown, all[i]);
    assert ShowsRows(tables[j], shown[j]) && Has(tables[j], r);
    SameKeySameRow(tables[j], all[i], r);
  }

  lemma {:induction false} PageOf(shown: seq<seq<Row>>, r: Row) returns (i: nat)
    requires r in Concat(shown)
    ensures i < |shown| && r in shown[i]
  {
    if r in shown[0] {
      i := 0;
    } else {
      i := PageOf(shown[1..], r);
      i := i + 1;
    }
  }

  /** Over an unchanging table the pages together are the unpaged query. */
  lemma PagesAreTheQuery(pages: seq<Page>, shown: seq<seq<Row>>, t: Table, tenant: string, from: int, to: int)
    requires Keyed(t) && Walk(None, pages) && PagesShow(pages, shown)
    requires forall p | p in pages :: p.live == InWindow(t, tenant, from, to)
    requires forall i | 0 <= i < |shown| :: ShowsRows(t, shown[i])
    ensures Concat(shown) == RowsAt(t, tenant, from, to, SelectAll(InWindow(t, tenant, from, to)))
  {
    WalkOfUnchangedStore(pages, InWindow(t, tenant, from, to));
    ShownIsVisited(pages, shown);
    var all, keys := Concat(shown), SelectAll(InWindow(t, tenant, from, to));
    var rows := RowsAt(t, tenant, from, to, keys);
    forall i | 0 <= i < |all| ensures all[i] == rows[i] {
      var j := PageOf(shown, all[i]);
      assert ShowsRows(t, shown[j]) && KeysOf(all)[i] == keys[i];
      SameKeySameRow(t, rows[i], all[i]);
    }
  }
}
