/**
 * Keyset paging, shared by every paged read of the gateway: batches of a leaf,
 * claims of a batch, Midnight candidates and billing rows.
 *
 * Every sort key used by those reads is a pair compared lexicographically: a number and a
 * text, which is kept as its place in the order of texts.
 */
module Keyset {
  import opened Common

  datatype Key = Key(hi: int, lo: real)

  predicate Less(a: Key, b: Key) {
    a.hi < b.hi || (a.hi == b.hi && a.lo < b.lo)
  }

  /** Whether `k` lies strictly past the cursor; no cursor lies before every key. */
  predicate Above(cursor: Option<Key>, k: Key) {
    cursor.None? || Less(cursor.value, k)
  }

  ghost predicate Ascending(s: seq<Key>) {
    forall i, j | 0 <= i < j < |s| :: Less(s[i], s[j])
  }

  lemma {:induction false} LeastExists(s: set<Key>)
    requires s != {}
    ensures exists m :: m in s && forall k | k in s && k != m :: Less(m, k)
    decreases |s|
  {
    var x :| x in s;
    if s == {x} {
      assert forall k | k in s && k != x :: Less(x, k);
    } else {
      var rest := s - {x};
      LeastExists(rest);
      var m :| m in rest && forall k | k in rest && k != m :: Less(m, k);
      var least := if Less(x, m) then x else m;
      assert forall k | k in s && k != least :: k == x || k in rest;
      assert least in s && forall k | k in s && k != least :: Less(least, k);
    }
  }

  function Least(s: set<Key>): (m: Key)
    requires s != {}
    ensures m in s
    ensures forall k | k in s && k != m :: Less(m, k)
  {
    LeastExists(s);
    var m :| m in s && forall k | k in s && k != m :: Less(m, k);
    m
  }

  /** The rows of `select ... where key > cursor order by key limit n`. */
  function Select(rows: set<Key>, cursor: Option<Key>, limit: nat): (page: seq<Key>)
    ensures Ascending(page)
    ensures |page| <= limit
    ensures forall k | k in page :: k in rows && Above(cursor, k)
    ensures forall k, i | k in rows && Above(cursor, k) && 0 <= i < |page| && Less(k, page[i]) :: k in page
    ensures |page| < limit ==> forall k | k in rows && Above(cursor, k) :: k in page
    decreases limit
  {
    var left := set k | k in rows && Above(cursor, k);
    if limit == 0 || left == {} then
      assert forall k | k in rows && Above(cursor, k) :: k in left;
      []
    else
      var m := Least(left);
      var rest := Select(rows, Some(m), limit - 1);
      assert forall k | k in rows && Above(cursor, k) && k != m :: k in left && Above(Some(m), k);
      [m] + rest
  }

  /** Every row past the cursor, in order: what an unpaged query returns. */
  function SelectAll(rows: set<Key>): (all: seq<Key>)
    ensures Ascending(all)
    ensures forall k :: k in all <==> k in rows
  {
    var all := Select(rows, None, |rows|);
    SelectComplete(rows, all);
    all
  }

  lemma {:induction false} SelectComplete(rows: set<Key>, all: seq<Key>)
    requires Ascending(all) && (forall k | k in all :: k in rows)
    requires |all| <= |rows|
    requires |all| < |rows| ==> forall k | k in rows :: k in all
    ensures forall k | k in rows :: k in all
  {
    if |all| == |rows| {
      AscendingCardinality(all);
      var drawn := set k | k in all;
      SubsetOfSameSize(drawn, rows);
    }
  }

  lemma {:induction false} SubsetOfSameSize<T>(a: set<T>, b: set<T>)
    requires a <= b && |a| == |b|
    ensures a == b
  {
    assert |b - a| == |b| - |a|;
  }

  lemma {:induction false} AscendingCardinality(s: seq<Key>)
    requires Ascending(s)
    ensures |set k | k in s| == |s|
  {
    if s != [] {
      var init, last := s[..|s| - 1], s[|s| - 1];
      AscendingCardinality(init);
      var drawn := set k | k in init;
      assert forall i | 0 <= i < |init| :: init[i] == s[i] && Less(s[i], last);
      assert last !in drawn;
      assert forall k | k in s :: k in init || k == last;
      assert (set k | k in s) == drawn + {last};
    }
  }

  /** Two ascending lists of the same keys are the same list. */
  lemma {:induction false} AscendingUnique(a: seq<Key>, b: seq<Key>)
    requires Ascending(a) && Ascending(b)
    requires forall k :: k in a <==> k in b
    ensures a == b
  {
    if a == [] {
      assert forall i | 0 <= i < |b| :: b[i] in b;
    } else {
      assert a[0] in b && b != [] && b[0] in a;
      FirstIsLeast(a);
      FirstIsLeast(b);
      TailHasTheRest(a);
      TailHasTheRest(b);
      AscendingUnique(a[1..], b[1..]);
      assert a == [a[0]] + a[1..] && b == [b[0]] + b[1..];
    }
  }

  lemma FirstIsLeast(a: seq<Key>)
    requires Ascending(a) && a != []
    ensures forall k | k in a :: k == a[0] || Less(a[0], k)
  {
    forall k | k in a ensures k == a[0] || Less(a[0], k) {
      var i :| 0 <= i < |a| && a[i] == k;
    }
  }

  lemma TailHasTheRest(a: seq<Key>)
    requires Ascending(a) && a != []
    ensures Ascending(a[1..])
    ensures forall k :: k in a[1..] <==> k in a && k != a[0]
  {
    forall k | k in a && k != a[0] ensures k in a[1..] {
      var i :| 0 <= i < |a| && a[i] == k;
      assert a[1..][i - 1] == k;
    }
  }

  // ------------------------------------------------------- two sources, one page

  function Drawn(s: seq<Key>): (d: set<Key>)
    ensures forall k :: k in d <==> k in s
  {
    set k | k in s
  }

  /** `first` is what a query limited to `limit + 1` rows returns. */
  ghost predicate Truncates(first: seq<Key>, rows: set<Key>, cursor: Option<Key>, limit: nat) {
    && Ascending(first)
    && (forall k | k in first :: k in rows && Above(cursor, k))
    && (forall k, i | k in rows && Above(cursor, k) && 0 <= i < |first| && Less(k, first[i]) :: k in first)
    && (|first| <= limit ==> forall k | k in rows && Above(cursor, k) :: k in first)
  }

  /** A query limited to one row more than a page holds, so that a further page shows. */
  function SelectOneMore(rows: set<Key>, cursor: Option<Key>, limit: nat): (first: seq<Key>)
    ensures Truncates(first, rows, cursor, limit)
  {
    Select(rows, cursor, limit + 1)
  }

  /** The keys of a truncated query and those past the cursor in another source. */
  function UnionKeys(first: seq<Key>, extra: set<Key>, cursor: Option<Key>): (u: set<Key>)
    ensures forall k :: k in u <==> k in first || (k in extra && Above(cursor, k))
  {
    Drawn(first) + set k | k in extra && Above(cursor, k)
  }

  /** A stored row that was truncated away lies past the first `limit` keys of the union. */
  lemma TruncatedLiesPast(first: seq<Key>, rows: set<Key>, cursor: Option<Key>, limit: nat, ordered: seq<Key>, n: nat,
      k: Key)
    requires Truncates(first, rows, cursor, limit) && Ascending(ordered) && (forall r | r in first :: r in ordered)
    requires 0 < n <= |ordered| && n <= limit
    requires k in rows && Above(cursor, k) && k !in first
    ensures Less(ordered[n - 1], k)
  {
    if !Less(ordered[n - 1], k) {
      var before := ordered[..n - 1];
      forall r | r in first ensures r in before {
        var j :| 0 <= j < |first| && first[j] == r;
        assert Less(r, k);
        var i :| 0 <= i < |ordered| && ordered[i] == r;
        assert i < n - 1;
        assert before[i] == r;
      }
      FewerKeys(first, before);
    }
  }

  lemma FewerKeys(a: seq<Key>, b: seq<Key>)
    requires Ascending(a) && Ascending(b) && (forall k | k in a :: k in b)
    ensures |a| <= |b|
  {
    AscendingCardinality(a);
    AscendingCardinality(b);
    SubsetCardinality(Drawn(a), Drawn(b));
  }

  /** `ordered` is the union of a truncated query and the keys past the cursor in another source. */
  ghost predicate Unites(ordered: seq<Key>, first: seq<Key>, extra: set<Key>, cursor: Option<Key>) {
    Ascending(ordered) && forall k :: k in ordered <==> k in first || (k in extra && Above(cursor, k))
  }

  lemma UnionMissesNothing(first: seq<Key>, rows: set<Key>, extra: set<Key>, cursor: Option<Key>, limit: nat,
      ordered: seq<Key>, n: nat, k: Key)
    requires Truncates(first, rows, cursor, limit) && Unites(ordered, first, extra, cursor)
    requires n <= |ordered| && n <= limit && (n < |ordered| ==> n > 0)
    requires k in rows + extra && Above(cursor, k) && (n < |ordered| ==> !Less(ordered[n - 1], k))
    ensures k in ordered[..n]
  {
    if k !in ordered {
      TruncatedComesLater(first, rows, cursor, limit, ordered, n, k);
    } else {
      var i :| 0 <= i < |ordered| && ordered[i] == k;
      assert i < n;
      assert ordered[..n][i] == k;
    }
  }

  /**
   * Paging over the union of two sources although one of them is cut off at `limit + 1` rows:
   * the first `n` keys of the union leave out no key of either source up to the last of them.
   */
  lemma UnionPrefix(first: seq<Key>, rows: set<Key>, extra: set<Key>, cursor: Option<Key>, limit: nat,
      ordered: seq<Key>, n: nat)
    requires Truncates(first, rows, cursor, limit) && Unites(ordered, first, extra, cursor)
    requires n <= |ordered| && n <= limit && (n < |ordered| ==> n > 0)
    ensures Sound(Page(cursor, rows + extra, ordered[..n], if n < |ordered| then Some(ordered[n - 1]) else None))
  {
    var p := Page(cursor, rows + extra, ordered[..n], if n < |ordered| then Some(ordered[n - 1]) else None);
    forall k | k in p.visited ensures k in p.live && Above(cursor, k) {
      assert k in ordered;
    }
    forall k | k in p.live && Above(cursor, k) && (p.next.Some? ==> !Less(p.next.value, k)) ensures k in p.visited {
      UnionMissesNothing(first, rows, extra, cursor, limit, ordered, n, k);
    }
  }

  lemma TruncatedComesLater(first: seq<Key>, rows: set<Key>, cursor: Option<Key>, limit: nat, ordered: seq<Key>,
      n: nat, k: Key)
    requires Truncates(first, rows, cursor, limit) && Ascending(ordered) && (forall r | r in first :: r in ordered)
    requires n <= |ordered| && n <= limit && (n < |ordered| ==> n > 0)
    requires k in rows && Above(cursor, k) && k !in first
    ensures n < |ordered| && Less(ordered[n - 1], k)
  {
    FewerKeys(first, ordered);
    TruncatedLiesPast(first, rows, cursor, limit, ordered, n, k);
  }

  // ------------------------------------------------------------------ walks

  /**
   * One page of a walk: the cursor it was asked with, the keys the store held while it
   * was read, the keys it visited, and the cursor it returned.
   */
  datatype Page = Page(cursor: Option<Key>, live: set<Key>, visited: seq<Key>, next: Option<Key>)

  /**
   * What every paged read promises of one page: it visits, in order, exactly the stored
   * keys past its cursor up to the cursor it returns, or all of them when it returns none.
   */
  ghost predicate Sound(p: Page) {
    && Ascending(p.visited)
    && (forall k | k in p.visited :: k in p.live && Above(p.cursor, k))
    && (p.next.Some? ==> p.visited != [] && p.next.value == p.visited[|p.visited| - 1])
    && (forall k | k in p.live && Above(p.cursor, k) && (p.next.Some? ==> !Less(p.next.value, k)) :: k in p.visited)
  }

  /** Pages read by following the returned cursors, from `start` to the page that returns none. */
  ghost predicate Walk(start: Option<Key>, pages: seq<Page>)
    decreases |pages|
  {
    && pages != []
    && Sound(pages[0])
    && pages[0].cursor == start
    && (if pages[0].next.None? then |pages| == 1 else Walk(pages[0].next, pages[1..]))
  }

  ghost function Visited(pages: seq<Page>): seq<Key> {
    if pages == [] then [] else pages[0].visited + Visited(pages[1..])
  }

  /** Every key a walk visits was stored when its page was read, and lies past the start. */
  lemma {:induction false} WalkVisitsStoredKeys(start: Option<Key>, pages: seq<Page>, k: Key)
    requires Walk(start, pages) && k in Visited(pages)
    ensures Above(start, k)
    ensures exists p :: p in pages && k in p.live && k in p.visited
    decreases |pages|
  {
    if k in pages[0].visited {
      assert pages[0] in pages && k in pages[0].live;
    } else {
      WalkVisitsStoredKeys(pages[0].next, pages[1..], k);
      assert Above(start, pages[0].next.value);
      var p :| p in pages[1..] && k in p.live && k in p.visited;
      assert p in pages;
    }
  }

  /**
   * The walk theorem. Keys come out strictly ascending, so none comes out twice, and a key
   * that stays stored for the whole walk comes out, whatever else is stored between pages.
   */
  lemma {:induction false} WalkVisitsEachKeyOnce(start: Option<Key>, pages: seq<Page>)
    requires Walk(start, pages)
    ensures Ascending(Visited(pages))
    ensures forall k | Above(start, k) && (forall p | p in pages :: k in p.live) :: k in Visited(pages)
    decreases |pages|
  {
    var first, rest := pages[0], pages[1..];
    assert first in pages;
    if first.next.None? {
      assert Visited(pages) == first.visited;
    } else {
      WalkVisitsEachKeyOnce(first.next, rest);
      var later := Visited(rest);
      forall i, j | 0 <= i < |first.visited| && 0 <= j < |later|
        ensures Less(first.visited[i], later[j])
      {
        WalkVisitsStoredKeys(first.next, rest, later[j]);
        assert i == |first.visited| - 1 || Less(first.visited[i], first.visited[|first.visited| - 1]);
      }
      forall k | Above(start, k) && (forall p | p in pages :: k in p.live)
        ensures k in Visited(pages)
      {
        if Less(first.next.value, k) {
          assert forall p | p in rest :: p in pages;
        } else {
          assert k in first.visited;
        }
      }
    }
  }

  /** Over an unchanging store the pages add up to the unpaged query. */
  lemma {:induction false} WalkOfUnchangedStore(pages: seq<Page>, rows: set<Key>)
    requires Walk(None, pages)
    requires forall p | p in pages :: p.live == rows
    ensures Visited(pages) == SelectAll(rows)
  {
    WalkVisitsEachKeyOnce(None, pages);
    forall k | k in Visited(pages) ensures k in rows {
      WalkVisitsStoredKeys(None, pages, k);
    }
    AscendingUnique(Visited(pages), SelectAll(rows));
  }

  /** Every page that returns a cursor moves past the one it was asked with. */
  lemma PageAdvances(p: Page)
    requires Sound(p) && p.next.Some?
    ensures Above(p.cursor, p.next.value)
    ensures p.next.value in p.live
  {
    assert p.visited[|p.visited| - 1] in p.visited;
  }

  lemma {:induction false} PagesAreSound(start: Option<Key>, pages: seq<Page>)
    requires Walk(start, pages)
    ensures forall i | 0 <= i < |pages| :: Sound(pages[i])
    decreases |pages|
  {
    if pages[0].next.Some? {
      PagesAreSound(pages[0].next, pages[1..]);
      assert forall i | 0 < i < |pages| :: pages[i] == pages[1..][i - 1];
    }
  }

  /** The page of a walk that visits a key. */
  lemma {:induction false} VisitingPage(pages: seq<Page>, k: Key) returns (i: nat)
    requires k in Visited(pages)
    ensures i < |pages| && k in pages[i].visited
    decreases |pages|
  {
    if k in pages[0].visited {
      i := 0;
    } else {
      i := VisitingPage(pages[1..], k);
      i := i + 1;
    }
  }

  /** Lists one after another. */
  function Concat<T>(parts: seq<seq<T>>): seq<T> {
    if parts == [] then [] else parts[0] + Concat(parts[1..])
  }

  lemma {:induction false} PartOfConcat<T>(parts: seq<seq<T>>, i: nat, k: T)
    requires i < |parts| && k in parts[i]
    ensures k in Concat(parts)
  {
    if i > 0 { PartOfConcat(parts[1..], i - 1, k); }
  }

  /** Each page of a walk shows some of the keys it visits. */
  ghost predicate PartsOf(pages: seq<Page>, parts: seq<seq<Key>>) {
    && |parts| == |pages|
    && forall i | 0 <= i < |pages| :: Ascending(parts[i]) && forall k | k in parts[i] :: k in pages[i].visited
  }

  /** What the pages of a walk show comes strictly ascending, none of it twice. */
  lemma {:induction false} ShownPartsAscend(start: Option<Key>, pages: seq<Page>, parts: seq<seq<Key>>)
    requires Walk(start, pages) && PartsOf(pages, parts)
    ensures Ascending(Concat(parts)) && forall k | k in Concat(parts) :: k in Visited(pages)
    decreases |pages|
  {
    if pages[0].next.None? {
      assert Concat(parts) == parts[0] && Visited(pages) == pages[0].visited;
    } else {
      var later := Concat(parts[1..]);
      ShownPartsAscend(pages[0].next, pages[1..], parts[1..]);
      forall j, k | 0 <= j < |later| && k in parts[0]
        ensures Less(k, later[j])
      {
        assert later[j] in later;
        WalkVisitsStoredKeys(pages[0].next, pages[1..], later[j]);
        UpToTheLast(pages[0].visited, k);
      }
      assert forall i | 0 <= i < |parts[0]| :: parts[0][i] in parts[0];
    }
  }

  lemma UpToTheLast(s: seq<Key>, k: Key)
    requires Ascending(s) && k in s
    ensures k == s[|s| - 1] || Less(k, s[|s| - 1])
  {
    var i :| 0 <= i < |s| && s[i] == k;
  }

  lemma {:induction false} PartWith<T>(parts: seq<seq<T>>, k: T) returns (i: nat)
    requires k in Concat(parts)
    ensures i < |parts| && k in parts[i]
  {
    if k in parts[0] {
      i := 0;
    } else {
      i := PartWith(parts[1..], k);
      i := i + 1;
    }
  }

  lemma {:induction false} PartOfVisited(pages: seq<Page>, i: nat, k: Key)
    requires i < |pages| && k in pages[i].visited
    ensures k in Visited(pages)
  {
    if i > 0 { PartOfVisited(pages[1..], i - 1, k); }
  }

  /** No key is visited by two pages of a walk. */
  lemma {:induction false} VisitedByOnePage(start: Option<Key>, pages: seq<Page>, i: nat, j: nat, k: Key)
    requires Walk(start, pages) && i < |pages| && j < |pages| && k in pages[i].visited && k in pages[j].visited
    ensures i == j
    decreases |pages|
  {
    if i > 0 && j > 0 {
      VisitedByOnePage(pages[0].next, pages[1..], i - 1, j - 1, k);
    } else if i != j {
      var later := if i > 0 then i else j;
      PartOfVisited(pages[1..], later - 1, k);
      WalkVisitsStoredKeys(pages[0].next, pages[1..], k);
      UpToTheLast(pages[0].visited, k);
    }
  }

  /** One page as its reader saw it: what it visited, and what it found there. */
  datatype Seen<R> = Seen(page: Page, found: R)

  ghost function PagesOf<R>(seen: seq<Seen<R>>): (pages: seq<Page>)
    ensures |pages| == |seen| && forall i | 0 <= i < |seen| :: pages[i] == seen[i].page
  {
    seq(|seen|, i requires 0 <= i < |seen| => seen[i].page)
  }
}
