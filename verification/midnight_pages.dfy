/**
 * src/midnight-proof-store.ts, candidates and midnightMembersByLeaf: the paged reads. Both run
 * one loop over the index rows past a cursor; `size` is the length of the body stored for a
 * digest, if one is stored, and `good` whether that body checks and is about the row.
 */
module MidnightPages {
  import opened Common
  import opened Hex
  import opened Keyset
  import opened MidnightStore
  import opened TextOrder
  import MidnightRuns

  const PAGE_BYTES: nat := 2 * 1024 * 1024

  datatype Shown = Shown(found: seq<Key>, unreadable: seq<Key>, next: Option<Key>)

  predicate SizeFits(size: Option<nat>, budget: nat) { size.Some? && 1 <= size.value <= budget }

  /** The visited digests that read well, in order, and those that do not. */
  function Readable(size: Key -> Option<nat>, good: Key -> bool, budget: nat, visited: seq<Key>, want: bool): seq<Key> {
    if visited == [] then []
    else
      var init, last := visited[..|visited| - 1], visited[|visited| - 1];
      Readable(size, good, budget, init, want)
      + (if (SizeFits(size(last), budget) && good(last)) == want then [last] else [])
  }

  /** The bytes a page reads. */
  function Bytes(size: Key -> Option<nat>, budget: nat, visited: seq<Key>): nat {
    if visited == [] then 0
    else
      var last := size(visited[|visited| - 1]);
      Bytes(size, budget, visited[..|visited| - 1]) + (if SizeFits(last, budget) then last.value else 0)
  }

  /** The page stops in front of a row. */
  predicate Stops(size: Key -> Option<nat>, budget: nat, visited: seq<Key>, id: Key) {
    visited != [] && size(id).Some? && size(id).value <= budget
       && Bytes(size, budget, visited) + size(id).value > PAGE_BYTES
  }

  /** The larger of 2 MiB and the first object of the page. */
  function Allowance(size: Key -> Option<nat>, budget: nat, visited: seq<Key>): nat {
    if visited != [] && SizeFits(size(visited[0]), budget) && size(visited[0]).value > PAGE_BYTES
    then size(visited[0]).value else PAGE_BYTES
  }

  lemma OneMore(size: Key -> Option<nat>, good: Key -> bool, budget: nat, rows: seq<Key>, n: nat, want: bool)
    requires n < |rows|
    ensures Readable(size, good, budget, rows[..n + 1], want) == Readable(size, good, budget, rows[..n], want) +
      (if (SizeFits(size(rows[n]), budget) && good(rows[n])) == want then [rows[n]] else [])
    ensures Bytes(size, budget, rows[..n + 1]) == Bytes(size, budget, rows[..n])
       + (if SizeFits(size(rows[n]), budget) then size(rows[n]).value else 0)
  {
    assert rows[..n + 1][..n] == rows[..n];
  }

  /** The loop over the first `n` rows. */
  method Scan(rows: seq<Key>, n: nat, size: Key -> Option<nat>, good: Key -> bool, budget: nat)
    returns (found: seq<Key>, unreadable: seq<Key>, scanned: nat)
    requires n <= |rows|
    ensures scanned <= n && (n > 0 ==> scanned > 0)
    ensures found == Readable(size, good, budget, rows[..scanned], true)
    ensures unreadable == Readable(size, good, budget, rows[..scanned], false)
    ensures Bytes(size, budget, rows[..scanned]) <= Allowance(size, budget, rows[..scanned])
    ensures scanned < n ==> Stops(size, budget, rows[..scanned], rows[scanned])
  {
    found, unreadable, scanned := [], [], 0;
    var bytes := 0;
    while scanned < n
      invariant 0 <= scanned <= n
      invariant found == Readable(size, good, budget, rows[..scanned], true)
      invariant unreadable == Readable(size, good, budget, rows[..scanned], false)
      invariant bytes == Bytes(size, budget, rows[..scanned])
      invariant bytes <= Allowance(size, budget, rows[..scanned])
    {
      var id := rows[scanned];
      var stored := size(id);
      if stored.Some? && stored.value <= budget && bytes + stored.value > PAGE_BYTES && scanned > 0 {
        break;
      }
      OneMore(size, good, budget, rows, scanned, true);
      OneMore(size, good, budget, rows, scanned, false);
      assert scanned > 0 ==> rows[..scanned + 1][0] == rows[..scanned][0];
      scanned := scanned + 1;
      if !SizeFits(stored, budget) {
        unreadable := unreadable + [id];
        continue;
      }
      bytes := bytes + stored.value;
      if !good(id) {
        unreadable := unreadable + [id];
        continue;
      }
      found := found + [id];
    }
  }

  /** One page of an index's digests. */
  method CandidatePage(rows: set<Key>, size: Key -> Option<nat>, good: Key -> bool, budget: nat, cursor: Option<Key>,
      limit: nat)
    returns (page: Shown, visited: seq<Key>)
    requires 1 <= limit <= 64
    ensures Sound(Page(cursor, rows, visited, page.next))
    ensures page.found == Readable(size, good, budget, visited, true)
    ensures page.unreadable == Readable(size, good, budget, visited, false)
    ensures |visited| <= limit
    ensures Bytes(size, budget, visited) <= Allowance(size, budget, visited)
    ensures page.next.Some? && |visited| < limit ==>
      exists id :: id in rows && Above(page.next, id) && Stops(size, budget, visited, id)
  {
    var all := SelectOneMore(rows, cursor, limit);
    var found, unreadable, scanned := Scan(all, if |all| < limit then |all| else limit, size, good, budget);
    page := Shown(found, unreadable, if |all| > scanned then Some(all[scanned - 1]) else None);
    visited := all[..scanned];
    assert Unites(all, all, {}, cursor);
    assert rows + {} == rows;
    UnionPrefix(all, rows, {}, cursor, limit, all, scanned);
    if scanned < |all| {
      assert all[scanned] in all && Less(all[scanned - 1], all[scanned]);
    }
  }

  lemma {:induction false} BytesAdd(size: Key -> Option<nat>, budget: nat, a: seq<Key>, b: seq<Key>)
    ensures Bytes(size, budget, a + b) == Bytes(size, budget, a) + Bytes(size, budget, b)
    decreases |b|
  {
    if b == [] {
      assert a + b == a;
    } else {
      BytesAdd(size, budget, a, b[..|b| - 1]);
      assert (a + b)[..|a + b| - 1] == a + b[..|b| - 1];
    }
  }

  /** The bytes read are those of the bodies that are there, not empty and within the budget. */
  lemma BytesOfOne(size: Key -> Option<nat>, budget: nat, k: Key)
    ensures Bytes(size, budget, [k]) == match size(k) case None => 0 case Some(n) => if n <= budget then n else 0
  {
  }

  /** A page that is allowed its bytes reads at most 2,097,152, or one object alone. */
  lemma AllowanceExactly(size: Key -> Option<nat>, budget: nat, visited: seq<Key>)
    ensures Bytes(size, budget, visited) <= Allowance(size, budget, visited) <==>
      || Bytes(size, budget, visited) <= 2_097_152
      || (visited != [] && Bytes(size, budget, visited) == Bytes(size, budget, visited[..1]))
  {
    if visited != [] {
      BytesAdd(size, budget, visited[..1], visited[1..]);
      assert visited[..1] + visited[1..] == visited && visited[..1] == [visited[0]];
      BytesOfOne(size, budget, visited[0]);
    }
  }

  /** A page stops at a body within the budget that would bring it over 2,097,152 bytes, and not at its first row. */
  lemma StopsExactly(size: Key -> Option<nat>, budget: nat, visited: seq<Key>, id: Key)
    ensures Stops(size, budget, visited, id) <==>
      && |visited| > 0 && size(id).Some? && size(id).value <= budget
      && Bytes(size, budget, visited + [id]) > 2_097_152
  {
    BytesAdd(size, budget, visited, [id]);
    BytesOfOne(size, budget, id);
  }

  /** Every digest visited is shown once, as found or as unreadable. */
  lemma {:induction false} ShownOnce(size: Key -> Option<nat>, good: Key -> bool, budget: nat, visited: seq<Key>,
      want: bool, k: Key)
    ensures k in Readable(size, good, budget, visited, want) <==>
      k in visited && (SizeFits(size(k), budget) && good(k)) == want
    decreases |visited|
  {
    if visited != [] {
      var init, last := visited[..|visited| - 1], visited[|visited| - 1];
      ShownOnce(size, good, budget, init, want, k);
      assert visited == init + [last];
    }
  }

  lemma {:induction false} ShownAscending(size: Key -> Option<nat>, good: Key -> bool, budget: nat, visited: seq<Key>,
      want: bool)
    requires Ascending(visited)
    ensures Ascending(Readable(size, good, budget, visited, want))
  {
    if visited != [] {
      var init, last := visited[..|visited| - 1], visited[|visited| - 1];
      ShownAscending(size, good, budget, init, want);
      forall k | k in Readable(size, good, budget, init, want) ensures Less(k, last) {
        ShownOnce(size, good, budget, init, want, k);
        var i :| 0 <= i < |init| && init[i] == k;
        assert visited[i] == k;
      }
    }
  }

  /** What a page finds under its digests: sizes, and which bodies read well. */
  datatype Finds = Finds(size: Key -> Option<nat>, good: Key -> bool)

  /** What the pages of a walk show, page after page: what they found or, with `want` false, could not read. */
  ghost function Reported(seen: seq<Seen<Finds>>, budget: nat, want: bool): (parts: seq<seq<Key>>)
    ensures |parts| == |seen|
    ensures forall i | 0 <= i < |seen| ::
      parts[i] == Readable(seen[i].found.size, seen[i].found.good, budget, seen[i].page.visited, want)
  {
    seq(|seen|, i requires 0 <= i < |seen| =>
      Readable(seen[i].found.size, seen[i].found.good, budget, seen[i].page.visited, want))
  }

  lemma ReportedArePartsOf(seen: seq<Seen<Finds>>, budget: nat, want: bool)
    requires forall i | 0 <= i < |seen| :: Ascending(seen[i].page.visited)
    ensures PartsOf(PagesOf(seen), Reported(seen, budget, want))
  {
    forall i | 0 <= i < |seen|
      ensures Ascending(Reported(seen, budget, want)[i])
      ensures forall k | k in Reported(seen, budget, want)[i] :: k in seen[i].page.visited
    {
      var f := seen[i].found;
      ShownAscending(f.size, f.good, budget, seen[i].page.visited, want);
      forall k { ShownOnce(f.size, f.good, budget, seen[i].page.visited, want, k); }
    }
  }

  /**
   * Pages followed to the end, whatever is saved in between: the digests found come strictly
   * ascending, so do those that could not be read, none is both, and one that is indexed for
   * the whole walk is among the ones or the others.
   */
  lemma {:induction false} WalkReportsEveryDigest(seen: seq<Seen<Finds>>, budget: nat)
    requires Walk(None, PagesOf(seen))
    ensures Ascending(Concat(Reported(seen, budget, true))) && Ascending(Concat(Reported(seen, budget, false)))
    ensures forall k :: !(k in Concat(Reported(seen, budget, true)) && k in Concat(Reported(seen, budget, false)))
    ensures forall k | forall i | 0 <= i < |seen| :: k in seen[i].page.live ::
      k in Concat(Reported(seen, budget, true)) || k in Concat(Reported(seen, budget, false))
  {
    PagesAreSound(None, PagesOf(seen));
    ReportedArePartsOf(seen, budget, true);
    ReportedArePartsOf(seen, budget, false);
    ShownPartsAscend(None, PagesOf(seen), Reported(seen, budget, true));
    ShownPartsAscend(None, PagesOf(seen), Reported(seen, budget, false));
    forall k ensures !(k in Concat(Reported(seen, budget, true)) && k in Concat(Reported(seen, budget, false))) {
      FoundOrUnreadable(seen, budget, k);
    }
    forall k | forall i | 0 <= i < |seen| :: k in seen[i].page.live
      ensures k in Concat(Reported(seen, budget, true)) || k in Concat(Reported(seen, budget, false))
    {
      DigestIsReported(seen, budget, k);
    }
  }

  /** A digest is visited by one page, which shows it once. */
  lemma FoundOrUnreadable(seen: seq<Seen<Finds>>, budget: nat, k: Key)
    requires Walk(None, PagesOf(seen))
    ensures !(k in Concat(Reported(seen, budget, true)) && k in Concat(Reported(seen, budget, false)))
  {
    if k in Concat(Reported(seen, budget, true)) && k in Concat(Reported(seen, budget, false)) {
      var i := PartWith(Reported(seen, budget, true), k);
      var j := PartWith(Reported(seen, budget, false), k);
      ShownOnce(seen[i].found.size, seen[i].found.good, budget, seen[i].page.visited, true, k);
      ShownOnce(seen[j].found.size, seen[j].found.good, budget, seen[j].page.visited, false, k);
      VisitedByOnePage(None, PagesOf(seen), i, j, k);
    }
  }

  lemma {:induction false} DigestIsReported(seen: seq<Seen<Finds>>, budget: nat, k: Key)
    requires Walk(None, PagesOf(seen)) && forall i | 0 <= i < |seen| :: k in seen[i].page.live
    ensures k in Concat(Reported(seen, budget, true)) || k in Concat(Reported(seen, budget, false))
  {
    var pages := PagesOf(seen);
    WalkVisitsEachKeyOnce(None, pages);
    forall p | p in pages ensures k in p.live {
      var i :| 0 <= i < |pages| && pages[i] == p;
    }
    var i := VisitingPage(pages, k);
    var f := seen[i].found;
    var want := SizeFits(f.size(k), budget) && f.good(k);
    ShownOnce(f.size, f.good, budget, seen[i].page.visited, want, k);
    PartOfConcat(Reported(seen, budget, want), i, k);
  }

  // ------------------------------------------------------------ reading a reachable store

  /** The sort key of a digest, and the digest of a sort key. */
  function DigestKey(digest: string): Key { Key(0, Place(digest)) }

  function DigestOf(k: Key): string { TextAt(k.lo, 64) }

  /** The length of the body stored under a digest. */
  function SizeOf(sdk: Sdk, s: Store, network: string, kind: Kind): Key -> Option<nat> {
    k =>
      var key := ObjectKey(network, kind, DigestOf(k));
      if key in s.objects then Some(sdk.size(s.objects[key])) else None
  }

  /** Whether the object stored under a digest checks and is about the row that led to it. */
  function ReadsAs(sdk: Sdk, s: Store, network: string, kind: Kind, genesis: string, registry: string,
      subject: string): Key -> bool {
    k =>
      var key := ObjectKey(network, kind, DigestOf(k));
      && MidnightRuns.IsAbout(sdk, s.objects, key, genesis, subject)
      && (kind.Members? || Checked(sdk, key, s.objects[key]).value.registry == registry)
  }

  /** The empty text is no JSON and no snapshot. */
  ghost predicate RefusesEmpty(sdk: Sdk) {
    forall body :: sdk.size(body) == 0 ==> sdk.json(body).None? && sdk.snapshot(body).None?
  }

  lemma CheckedSizeFits(sdk: Sdk, k: ObjectKey, body: string)
    requires RefusesEmpty(sdk) && Checked(sdk, k, body).Some?
    ensures SizeFits(Some(sdk.size(body)), sdk.budget)
  {
    if k.kind.Plans? { assert OutlineOf(sdk, k.network, body).Some?; }
  }

  lemma AboutIsReadable(sdk: Sdk, s: Store, k: ObjectKey, genesis: string, subject: string)
    requires RefusesEmpty(sdk) && MidnightRuns.ObjectsSound(sdk, s)
       && MidnightRuns.IsAbout(sdk, s.objects, k, genesis, subject)
    ensures DigestOf(DigestKey(k.digest)) == k.digest
    ensures SizeFits(SizeOf(sdk, s, k.network, k.kind)(DigestKey(k.digest)), sdk.budget)
  {
    assert MidnightRuns.ObjectSound(sdk, s.objects, k);
    CheckedSizeFits(sdk, k, s.objects[k]);
    TextOfPlace(k.digest);
  }

  /** In a reachable store no indexed plan or set is unreadable. */
  lemma IndexedCandidateIsReadable(sdk: Sdk, saves: seq<MidnightRuns.Save>, row: CandidateRow)
    requires RefusesEmpty(sdk) && row in MidnightRuns.After(sdk, EMPTY, saves).candidates
    ensures var s := MidnightRuns.After(sdk, EMPTY, saves);
      && SizeFits(SizeOf(sdk, s, row.network, row.kind)(DigestKey(row.digest)), sdk.budget)
      && ReadsAs(sdk, s, row.network, row.kind, row.genesis, row.registry, row.subject)(DigestKey(row.digest))
  {
    MidnightRuns.EveryStoreIsSound(sdk, saves);
    var s := MidnightRuns.After(sdk, EMPTY, saves);
    CandidateReads(sdk, s, row);
  }

  lemma CandidateReads(sdk: Sdk, s: Store, row: CandidateRow)
    requires RefusesEmpty(sdk) && MidnightRuns.Sound(sdk, s) && row in s.candidates
    ensures SizeFits(SizeOf(sdk, s, row.network, row.kind)(DigestKey(row.digest)), sdk.budget)
    ensures ReadsAs(sdk, s, row.network, row.kind, row.genesis, row.registry, row.subject)(DigestKey(row.digest))
  {
    assert MidnightRuns.CandidateIndexed(sdk, s, row);
    AboutIsReadable(sdk, s, ObjectKey(row.network, row.kind, row.digest), row.genesis, row.subject);
  }

  /** In a reachable store no indexed member snapshot is unreadable, and its row names its anchor. */
  lemma IndexedMemberIsReadable(sdk: Sdk, saves: seq<MidnightRuns.Save>, row: LeafRow)
    requires RefusesEmpty(sdk) && row in MidnightRuns.After(sdk, EMPTY, saves).leaves
    ensures var s := MidnightRuns.After(sdk, EMPTY, saves);
      && SizeFits(SizeOf(sdk, s, row.network, Members)(DigestKey(row.digest)), sdk.budget)
      && ReadsAs(sdk, s, row.network, Members, row.genesis, "", row.leaf)(DigestKey(row.digest))
      && MidnightRuns.NamesAnchor(sdk, s, row)
  {
    MidnightRuns.EveryStoreIsSound(sdk, saves);
    var s := MidnightRuns.After(sdk, EMPTY, saves);
    MemberReads(sdk, s, row);
  }

  lemma MemberReads(sdk: Sdk, s: Store, row: LeafRow)
    requires RefusesEmpty(sdk) && MidnightRuns.Sound(sdk, s) && row in s.leaves
    ensures SizeFits(SizeOf(sdk, s, row.network, Members)(DigestKey(row.digest)), sdk.budget)
    ensures ReadsAs(sdk, s, row.network, Members, row.genesis, "", row.leaf)(DigestKey(row.digest))
    ensures MidnightRuns.NamesAnchor(sdk, s, row)
  {
    assert MidnightRuns.LeafIndexed(sdk, s, row);
    AboutIsReadable(sdk, s, ObjectKey(row.network, Members, row.digest), row.genesis, row.leaf);
  }

  /** In a reachable store an object reads as a row, its registry and its subject, exactly if the row is there. */
  lemma ReadsAsIndexed(sdk: Sdk, saves: seq<MidnightRuns.Save>, row: CandidateRow)
    requires IsLowerHex64(row.digest) && !row.kind.Members?
    ensures var s := MidnightRuns.After(sdk, EMPTY, saves);
      ReadsAs(sdk, s, row.network, row.kind, row.genesis, row.registry, row.subject)(DigestKey(row.digest)) <==>
        row in s.candidates
  {
    MidnightRuns.EveryStoreIsSound(sdk, saves);
    TextOfPlace(row.digest);
    var s := MidnightRuns.After(sdk, EMPTY, saves);
    assert row in s.candidates <==> MidnightRuns.CandidateIndexed(sdk, s, row);
  }

  lemma ReadsAsMember(sdk: Sdk, saves: seq<MidnightRuns.Save>, row: LeafRow)
    requires IsLowerHex64(row.digest)
    ensures var s := MidnightRuns.After(sdk, EMPTY, saves);
      ReadsAs(sdk, s, row.network, Members, row.genesis, "", row.leaf)(DigestKey(row.digest)) <==> row in s.leaves
  {
    MidnightRuns.EveryStoreIsSound(sdk, saves);
    TextOfPlace(row.digest);
    var s := MidnightRuns.After(sdk, EMPTY, saves);
    assert row in s.leaves <==> MidnightRuns.LeafIndexed(sdk, s, row);
  }
}
