/**
 * src/storage.ts, getBatchesByLeaf: the batches that hold a leaf, page by page, from the
 * index table and the one id the old per-leaf file names. Each record is read on its own, so
 * what a page finds under an id is a function of the id, `look`, and nothing is assumed of it.
 */
module LeafPages {
  import opened Common
  import opened Hex
  import opened Keyset
  import opened BatchRecord
  import opened BatchStore
  import TextOrder

  datatype LeafPage = LeafPage(candidates: seq<Key>, unreadable: seq<Key>, next: Option<Key>)

  /** The record lists the leaf. */
  predicate Holds(found: Reading, leaf: string) { found.Loaded? && leaf in LeafSet(found.fields) }

  /** The visited ids whose record lists the leaf, in order. */
  function Holding(look: Key -> Reading, leaf: string, visited: seq<Key>): seq<Key> {
    if visited == [] then []
    else
      var init, last := visited[..|visited| - 1], visited[|visited| - 1];
      Holding(look, leaf, init) + (if Holds(look(last), leaf) then [last] else [])
  }

  /** The visited ids that could not be read, in order. */
  function Broken(look: Key -> Reading, visited: seq<Key>): seq<Key> {
    if visited == [] then []
    else
      var init, last := visited[..|visited| - 1], visited[|visited| - 1];
      Broken(look, init) + (if look(last).Failed? then [last] else [])
  }

  function Total(size: Key -> nat, ids: seq<Key>): nat {
    if ids == [] then 0 else Total(size, ids[..|ids| - 1]) + size(ids[|ids| - 1])
  }

  function Legacy(id: Option<Key>): set<Key> { if id.Some? then {id.value} else {} }

  /** The id at which a page stopped would have burst its byte budget. */
  ghost predicate Bursts(look: Key -> Reading, leaf: string, size: Key -> nat, candidates: seq<Key>, id: Key) {
    Holds(look(id), leaf) && candidates != [] && Total(size, candidates) + size(id) > BATCH_BYTE_BUDGET
  }

  lemma OneMore(look: Key -> Reading, leaf: string, ordered: seq<Key>, done: nat)
    requires done < |ordered|
    ensures Holding(look, leaf, ordered[..done + 1]) ==
      Holding(look, leaf, ordered[..done]) + (if Holds(look(ordered[done]), leaf) then [ordered[done]] else [])
    ensures Broken(look, ordered[..done + 1]) ==
      Broken(look, ordered[..done]) + (if look(ordered[done]).Failed? then [ordered[done]] else [])
  {
    assert ordered[..done + 1][..done] == ordered[..done];
  }

  lemma TotalOfOneMore(size: Key -> nat, ids: seq<Key>, id: Key)
    ensures Total(size, ids + [id]) == Total(size, ids) + size(id)
  {
    assert (ids + [id])[..|ids|] == ids;
  }

  /** Reads the first `n` ids in turn until a candidate would burst the budget. */
  method Collect(ordered: seq<Key>, n: nat, look: Key -> Reading, leaf: string, size: Key -> nat)
    returns (candidates: seq<Key>, unreadable: seq<Key>, done: nat)
    requires n <= |ordered|
    ensures done <= n && (n > 0 ==> done > 0)
    ensures candidates == Holding(look, leaf, ordered[..done])
    ensures unreadable == Broken(look, ordered[..done])
    ensures |candidates| > 1 ==> Total(size, candidates) <= BATCH_BYTE_BUDGET
    ensures done < n ==> Bursts(look, leaf, size, candidates, ordered[done])
  {
    candidates, unreadable, done := [], [], 0;
    var bytes := 0;
    while done < n
      invariant 0 <= done <= n && (candidates != [] ==> done > 0)
      invariant candidates == Holding(look, leaf, ordered[..done])
      invariant unreadable == Broken(look, ordered[..done])
      invariant bytes == Total(size, candidates)
      invariant |candidates| > 1 ==> bytes <= BATCH_BYTE_BUDGET
    {
      var id := ordered[done];
      var found := look(id);
      OneMore(look, leaf, ordered, done);
      if found.Failed? {
        unreadable := unreadable + [id];
        done := done + 1;
        continue;
      }
      if Holds(found, leaf) {
        if |candidates| > 0 && bytes + size(id) > BATCH_BYTE_BUDGET {
          break;
        }
        TotalOfOneMore(size, candidates, id);
        bytes := bytes + size(id);
        candidates := candidates + [id];
      }
      done := done + 1;
    }
  }

  /** `size` is the byte length of the candidate answered for an id. */
  method BatchesByLeaf(rows: set<Key>, legacy: Option<Key>, look: Key -> Reading, leaf: string, size: Key -> nat,
                       cursor: Option<Key>, limit: nat)
    returns (page: LeafPage, visited: seq<Key>)
    requires 1 <= limit <= 64
    ensures Sound(Page(cursor, rows + Legacy(legacy), visited, page.next))
    ensures page.candidates == Holding(look, leaf, visited)
    ensures page.unreadable == Broken(look, visited)
    ensures |visited| <= limit
    ensures |page.candidates| > 1 ==> Total(size, page.candidates) <= BATCH_BYTE_BUDGET
    ensures page.next.Some? && |visited| < limit ==>
      exists id :: id in rows + Legacy(legacy) && Above(page.next, id) && Bursts(look, leaf, size, page.candidates, id)
  {
    var first := SelectOneMore(rows, cursor, limit);
    var ordered := SelectAll(UnionKeys(first, Legacy(legacy), cursor));
    var n := if |ordered| < limit then |ordered| else limit;
    var candidates, unreadable, done := Collect(ordered, n, look, leaf, size);
    page := LeafPage(candidates, unreadable, if done < |ordered| then Some(ordered[done - 1]) else None);
    visited := ordered[..done];
    UnionPrefix(first, rows, Legacy(legacy), cursor, limit, ordered, done);
    if done < |ordered| && done < limit {
      StopsBefore(first, rows, Legacy(legacy), cursor, limit, ordered, done);
    }
  }

  lemma StopsBefore(first: seq<Key>, rows: set<Key>, extra: set<Key>, cursor: Option<Key>, limit: nat,
      ordered: seq<Key>, done: nat)
    requires Truncates(first, rows, cursor, limit) && Unites(ordered, first, extra, cursor) && 0 < done < |ordered|
    ensures ordered[done] in rows + extra && Less(ordered[done - 1], ordered[done])
  {
    assert ordered[done] in ordered;
  }

  lemma {:induction false} TotalsAdd(size: Key -> nat, a: seq<Key>, b: seq<Key>)
    ensures Total(size, a + b) == Total(size, a) + Total(size, b)
    decreases |b|
  {
    if b == [] {
      assert a + b == a;
    } else {
      TotalsAdd(size, a, b[..|b| - 1]);
      assert (a + b)[..|a + b| - 1] == a + b[..|b| - 1];
    }
  }

  /** A page stops at a batch that holds the leaf and would bring its candidates over 2,097,152 bytes. */
  lemma BurstsExactly(look: Key -> Reading, leaf: string, size: Key -> nat, candidates: seq<Key>, id: Key)
    ensures Bursts(look, leaf, size, candidates, id) <==>
      && look(id).Loaded? && leaf in LeafSet(look(id).fields)
      && |candidates + [id]| > 1 && Total(size, candidates + [id]) > 2_097_152
    ensures Total(size, [id]) == size(id)
  {
    TotalsAdd(size, candidates, [id]);
  }

  // ------------------------------------------------------------ what a page holds

  /** An id is a candidate, or unreadable, exactly if it was visited and found so. */
  lemma {:induction false} VisitedOnceAsFound(look: Key -> Reading, leaf: string, visited: seq<Key>, k: Key)
    ensures k in Holding(look, leaf, visited) <==> k in visited && Holds(look(k), leaf)
    ensures k in Broken(look, visited) <==> k in visited && look(k).Failed?
    decreases |visited|
  {
    if visited != [] {
      var init, last := visited[..|visited| - 1], visited[|visited| - 1];
      VisitedOnceAsFound(look, leaf, init, k);
      assert visited == init + [last];
    }
  }

  /** The candidates of one page come in ascending order, none twice. */
  lemma {:induction false} CandidatesAscend(look: Key -> Reading, leaf: string, visited: seq<Key>)
    requires Ascending(visited)
    ensures Ascending(Holding(look, leaf, visited))
  {
    if visited != [] {
      var init, last := visited[..|visited| - 1], visited[|visited| - 1];
      CandidatesAscend(look, leaf, init);
      forall k | k in Holding(look, leaf, init) ensures Less(k, last) {
        VisitedOnceAsFound(look, leaf, init, k);
        var i :| 0 <= i < |init| && init[i] == k;
        assert visited[i] == k;
      }
    }
  }

  /** So do the unreadable ones. */
  lemma {:induction false} UnreadableAscend(look: Key -> Reading, leaf: string, visited: seq<Key>)
    requires Ascending(visited)
    ensures Ascending(Broken(look, visited))
  {
    if visited != [] {
      var init, last := visited[..|visited| - 1], visited[|visited| - 1];
      UnreadableAscend(look, leaf, init);
      forall k | k in Broken(look, init) ensures Less(k, last) {
        VisitedOnceAsFound(look, leaf, init, k);
        var i :| 0 <= i < |init| && init[i] == k;
        assert visited[i] == k;
      }
    }
  }

  /** The candidates the pages of a walk answer, page after page. */
  ghost function Answered(seen: seq<Seen<Key -> Reading>>, leaf: string): (parts: seq<seq<Key>>)
    ensures |parts| == |seen|
    ensures forall i | 0 <= i < |seen| :: parts[i] == Holding(seen[i].found, leaf, seen[i].page.visited)
  {
    seq(|seen|, i requires 0 <= i < |seen| => Holding(seen[i].found, leaf, seen[i].page.visited))
  }

  /** The ids they report as unreadable. */
  ghost function Unread(seen: seq<Seen<Key -> Reading>>): (parts: seq<seq<Key>>)
    ensures |parts| == |seen|
    ensures forall i | 0 <= i < |seen| :: parts[i] == Broken(seen[i].found, seen[i].page.visited)
  {
    seq(|seen|, i requires 0 <= i < |seen| => Broken(seen[i].found, seen[i].page.visited))
  }

  lemma ShownArePartsOf(seen: seq<Seen<Key -> Reading>>, leaf: string)
    requires forall i | 0 <= i < |seen| :: Ascending(seen[i].page.visited)
    ensures PartsOf(PagesOf(seen), Answered(seen, leaf)) && PartsOf(PagesOf(seen), Unread(seen))
  {
    forall i | 0 <= i < |seen|
      ensures Ascending(Answered(seen, leaf)[i]) && forall k | k in Answered(seen, leaf)[i] :: k in seen[i].page.visited
      ensures Ascending(Unread(seen)[i]) && forall k | k in Unread(seen)[i] :: k in seen[i].page.visited
    {
      CandidatesAscend(seen[i].found, leaf, seen[i].page.visited);
      UnreadableAscend(seen[i].found, leaf, seen[i].page.visited);
      forall k { VisitedOnceAsFound(seen[i].found, leaf, seen[i].page.visited, k); }
    }
  }

  /** A batch is visited by one page, which answers it or reports it, never both. */
  lemma AnsweredOrUnread(seen: seq<Seen<Key -> Reading>>, leaf: string, k: Key)
    requires Walk(None, PagesOf(seen))
    ensures !(k in Concat(Answered(seen, leaf)) && k in Concat(Unread(seen)))
  {
    if k in Concat(Answered(seen, leaf)) && k in Concat(Unread(seen)) {
      var i := PartWith(Answered(seen, leaf), k);
      var j := PartWith(Unread(seen), k);
      VisitedOnceAsFound(seen[i].found, leaf, seen[i].page.visited, k);
      VisitedOnceAsFound(seen[j].found, leaf, seen[j].page.visited, k);
      VisitedByOnePage(None, PagesOf(seen), i, j, k);
    }
  }

  /**
   * Following the cursors to the end, whatever is saved between pages: the candidates answered
   * come strictly ascending, so do the unreadable ids, and none is both. A batch that is
   * indexed for the whole walk and holds the leaf whenever it is read is a candidate, and one
   * that cannot be read whenever it is tried is reported.
   */
  lemma {:induction false} WalkAnswersEveryBatch(seen: seq<Seen<Key -> Reading>>, leaf: string)
    requires Walk(None, PagesOf(seen))
    ensures Ascending(Concat(Answered(seen, leaf))) && Ascending(Concat(Unread(seen)))
    ensures forall k :: !(k in Concat(Answered(seen, leaf)) && k in Concat(Unread(seen)))
    ensures forall k | forall i | 0 <= i < |seen| :: k in seen[i].page.live && Holds(seen[i].found(k), leaf) ::
      k in Concat(Answered(seen, leaf))
    ensures forall k | forall i | 0 <= i < |seen| :: k in seen[i].page.live && seen[i].found(k).Failed? ::
      k in Concat(Unread(seen))
  {
    var pages := PagesOf(seen);
    WalkVisitsEachKeyOnce(None, pages);
    PagesAreSound(None, pages);
    ShownArePartsOf(seen, leaf);
    ShownPartsAscend(None, pages, Answered(seen, leaf));
    ShownPartsAscend(None, pages, Unread(seen));
    forall k ensures !(k in Concat(Answered(seen, leaf)) && k in Concat(Unread(seen))) {
      AnsweredOrUnread(seen, leaf, k);
    }
    forall k | forall i | 0 <= i < |seen| :: k in seen[i].page.live && Holds(seen[i].found(k), leaf)
      ensures k in Concat(Answered(seen, leaf))
    {
      var i := BatchIsVisited(seen, leaf, k);
      PartOfConcat(Answered(seen, leaf), i, k);
    }
    forall k | forall i | 0 <= i < |seen| :: k in seen[i].page.live && seen[i].found(k).Failed?
      ensures k in Concat(Unread(seen))
    {
      var i := BatchIsVisited(seen, leaf, k);
      PartOfConcat(Unread(seen), i, k);
    }
  }

  /** The page that visits an id indexed for the whole walk, and what it shows of it. */
  lemma {:induction false} BatchIsVisited(seen: seq<Seen<Key -> Reading>>, leaf: string, k: Key) returns (i: nat)
    requires Walk(None, PagesOf(seen)) && forall i | 0 <= i < |seen| :: k in seen[i].page.live
    ensures i < |seen|
    ensures Holds(seen[i].found(k), leaf) <==> k in Answered(seen, leaf)[i]
    ensures seen[i].found(k).Failed? <==> k in Unread(seen)[i]
  {
    var pages := PagesOf(seen);
    WalkVisitsEachKeyOnce(None, pages);
    forall p | p in pages ensures k in p.live {
      var j :| 0 <= j < |pages| && pages[j] == p;
    }
    i := VisitingPage(pages, k);
    VisitedOnceAsFound(seen[i].found, leaf, seen[i].page.visited, k);
  }

  // ------------------------------------------------------------ the whole read

  datatype LeafError = BadLeaf | BadCursor | BadLimit

  /** The sort key of a batch id. */
  function IdKey(id: string): Key { Key(0, TextOrder.Place(Canonical(id))) }

  /** The checks in front of a page, and the id the old index file of the leaf names, if it names one. */
  method ReadBatches(leafHash: string, cursor: Option<string>, limit: int, rows: string -> set<Key>,
                     file: string -> Option<string>, look: Key -> Reading, size: Key -> nat)
    returns (r: Result<LeafPage, LeafError>, visited: seq<Key>)
    ensures r.Ok? <==>
      IsHex64(Strip0x(leafHash)) && (cursor.None? || IsHex64(Strip0x(cursor.value))) && 1 <= limit <= 64
    ensures r.Ok? ==>
      var leaf := Canonical(leafHash);
      && Sound(Page(if cursor.Some? then Some(IdKey(cursor.value)) else None,
                    rows(leaf) + Legacy(NamedBy(file(leaf))), visited, r.value.next))
      && r.value.candidates == Holding(look, leaf, visited) && r.value.unreadable == Broken(look, visited)
  {
    visited := [];
    if !IsHex64(Strip0x(leafHash)) {
      return Err(BadLeaf), [];
    }
    if cursor.Some? && !IsHex64(Strip0x(cursor.value)) {
      return Err(BadCursor), [];
    }
    if !(1 <= limit <= 64) {
      return Err(BadLimit), [];
    }
    var leaf := Canonical(leafHash);
    var page;
    page, visited := BatchesByLeaf(rows(leaf), NamedBy(file(leaf)), look, leaf, size,
                                   if cursor.Some? then Some(IdKey(cursor.value)) else None, limit);
    r := Ok(page);
  }

  /** The id a per-leaf index file holds, if it holds one; `text` is its trimmed content. */
  function NamedBy(text: Option<string>): Option<Key> {
    if text.Some? && IsHex64(Strip0x(text.value)) then Some(IdKey(text.value)) else None
  }
}
