/**
 * Claims of a batch over runs: a claim is written into the batch's record or into the claim
 * table, and readers join the two. Exactly when no run can hide a claim once made.
 */
module BatchClaims {
  import opened Common
  import opened Json
  import opened Hex
  import opened BatchRecord
  import opened BatchStore
  import opened BatchRuns

  function InRecord(o: Oracles, r: Reading): set<ClaimKey> { if r.Loaded? then ClaimedTxs(o, r.fields) else {} }

  function InTable(claims: map<(string, ClaimKey), Option<string>>, k: string): set<ClaimKey> {
    set c | c in claims && c.0 == k :: c.1
  }

  /** The transactions a reader of `k` finds, in the record and in the table. */
  function Visible(o: Oracles, s: Store, k: string): set<ClaimKey> {
    InRecord(o, Read(s.files, s.mapped, k)) + InTable(s.claims, k)
  }

  /**
   * All readable files that may be read under `k` claim the same transactions, apart from those
   * in the table. Where `k` names a file itself there is at most one such file.
   */
  ghost predicate ClaimsAgree(o: Oracles, s: Store, k: string) {
    forall f, g | Spelled(s.files, k, f) && Spelled(s.files, k, g) ::
      ClaimedTxs(o, s.files[f].fields) <= ClaimedTxs(o, s.files[g].fields) + InTable(s.claims, k)
  }

  // ------------------------------------------------------------ what each step keeps

  /** What a save writes claims whatever the record readers found claims. */
  lemma SaveKeepsClaims(o: Oracles, w: World, e: Event)
    requires Fine(w.store) && e.Save?
    ensures Writes(o, w, e) ==>
      InRecord(o, Read(w.store.files, w.store.mapped, Canonical(e.anchorId))) <= ClaimedTxs(o, EntryOf(o, w, e).fields)
  {
    var record := Read(w.store.files, w.store.mapped, Canonical(e.anchorId));
    if Writes(o, w, e) && record.Loaded? {
      SavesReadTheRecord(o, w, e, record.fields);
      assert EntryOf(o, w, e).fields == WithClaims(o, record.fields, e.metadata.fields);
      MergeKeepsClaims(o, record.fields, e.metadata.fields);
    }
  }

  lemma WriteKeepsVisible(o: Oracles, s: Store, x: Entry, crash: Crash, k: string)
    requires Fine(s) && IsLowerHex64(k) && IsLowerHex64(x.id) && o.size(x.fields) <= BATCH_BYTE_BUDGET
    requires !crash.BeforeRename? && InRecord(o, Read(s.files, s.mapped, x.id)) <= ClaimedTxs(o, x.fields)
    ensures Visible(o, s, k) <= Visible(o, Written(o, s, x.id, x.fields, crash), k)
  {
    WrittenReads(o, s, x.id, x.fields, crash, k);
    WrittenFiles(o, s, x.id, x.fields, crash);
  }

  lemma WriteKeepsSpelled(files: map<string, Content>, id: string, c: Content, k: string, f: string)
    requires IsLowerHex64(id) && IsLowerHex64(k) && Spelled(files[id := c], k, f)
    ensures if id == k then f == k else Spelled(files, k, f) && files[id := c][f] == files[f]
  {
  }

  lemma WriteKeepsAgreement(o: Oracles, s: Store, x: Entry, crash: Crash, k: string)
    requires IsLowerHex64(x.id) && IsLowerHex64(k) && ClaimsAgree(o, s, k) && !crash.BeforeRename?
    ensures ClaimsAgree(o, Written(o, s, x.id, x.fields, crash), k)
  {
    var t := Written(o, s, x.id, x.fields, crash);
    WrittenFiles(o, s, x.id, x.fields, crash);
    forall f, g | Spelled(t.files, k, f) && Spelled(t.files, k, g)
      ensures ClaimedTxs(o, t.files[f].fields) <= ClaimedTxs(o, t.files[g].fields) + InTable(t.claims, k)
    {
      WriteKeepsSpelled(s.files, x.id, Record(x.fields, o.size(x.fields)), k, f);
      WriteKeepsSpelled(s.files, x.id, Record(x.fields, o.size(x.fields)), k, g);
    }
  }

  lemma SaveKeepsVisible(o: Oracles, w: World, e: Event, k: string)
    requires Fine(w.store) && e.Save? && IsLowerHex64(k) && ClaimsAgree(o, w.store, k)
    ensures ClaimsAgree(o, Next(o, w, e).store, k)
    ensures Visible(o, w.store, k) <= Visible(o, Next(o, w, e).store, k)
  {
    if Writes(o, w, e) {
      var x := EntryOf(o, w, e);
      EntryFits(o, w, e);
      SaveKeepsClaims(o, w, e);
      WriteKeepsVisible(o, w.store, x, e.crash, k);
      WriteKeepsAgreement(o, w.store, x, e.crash, k);
      assert Next(o, w, e).store == Written(o, w.store, x.id, x.fields, e.crash);
    }
  }

  /** What a backfill leaves readers with is a file that may be read under the id. */
  lemma BackfillKeepsVisible(o: Oracles, s: Store, listing: seq<string>, k: string)
    requires Fine(s) && IsLowerHex64(k) && ClaimsAgree(o, s, k)
    ensures var t := Backfilled(s, listing, |listing|);
      Visible(o, s, k) <= Visible(o, t, k) && ClaimsAgree(o, t, k)
  {
    var t := Backfilled(s, listing, |listing|);
    BackfillKeeps(s, listing, |listing|, k);
    if Read(s.files, s.mapped, k).Loaded? {
      BackfillStillFinds(s, listing, |listing|, k);
      var f := ReadIsSpelled(s, k);
      var g := ReadIsSpelled(t, k);
      assert ClaimedTxs(o, s.files[f].fields) <= ClaimedTxs(o, s.files[g].fields) + InTable(s.claims, k);
    }
  }

  lemma {:induction false} BackfillStillFinds(s: Store, listing: seq<string>, n: nat, k: string)
    requires n <= |listing| && IsLowerHex64(k) && Read(s.files, s.mapped, k).Loaded?
    ensures var t := Backfilled(s, listing, n);
      Read(t.files, t.mapped, k).Loaded?
  {
    if n > 0 {
      var t, stem := Backfilled(s, listing, n - 1), listing[n - 1];
      BackfillStillFinds(s, listing, n - 1, k);
      if BackfilledOne(t, listing, stem) != t {
        IndexedReads(t, Lower(stem), stem, Read(t.files, map[], stem).fields, k);
      }
    }
  }

  lemma TableGrows(claims: map<(string, ClaimKey), Option<string>>, more: map<(string, ClaimKey), Option<string>>,
      k: string)
    requires claims.Keys <= more.Keys
    ensures InTable(claims, k) <= InTable(more, k)
  {
    assert forall c | c in claims :: c in more;
  }

  lemma ClaimKeepsVisible(o: Oracles, s: Store, anchorId: string, value: Json, k: string)
    requires ClaimsAgree(o, s, k)
    ensures Visible(o, s, k) <= Visible(o, ClaimSaved(o, s, anchorId, value), k)
    ensures ClaimsAgree(o, ClaimSaved(o, s, anchorId, value), k)
  {
    var t := ClaimSaved(o, s, anchorId, value);
    ClaimKeeps(o, s, anchorId, value);
    TableGrows(s.claims, t.claims, k);
    forall f, g | Spelled(t.files, k, f) && Spelled(t.files, k, g)
      ensures ClaimedTxs(o, t.files[f].fields) <= ClaimedTxs(o, t.files[g].fields) + InTable(t.claims, k)
    {
      assert Spelled(s.files, k, f) && Spelled(s.files, k, g);
    }
  }

  lemma StepKeepsClaims(o: Oracles, w: World, e: Event, k: string)
    requires Fine(w.store) && Possible(w, e) && IsLowerHex64(k) && ClaimsAgree(o, w.store, k)
    ensures ClaimsAgree(o, Next(o, w, e).store, k)
    ensures Visible(o, w.store, k) <= Visible(o, Next(o, w, e).store, k)
  {
    match e
    case Save(_, _, _) => SaveKeepsVisible(o, w, e, k);
    case ListFiles(_, _) =>
    case IndexListed(p) => BackfillKeepsVisible(o, w.store, w.listings[p], k);
    case SaveClaim(id, value) => ClaimKeepsVisible(o, w.store, id, value, k);
  }

  // ------------------------------------------------------------ claims are never lost

  /**
   * While the old files of one id agree, a transaction once claimed for it, by either writer, is
   * found by every later reader; and they go on agreeing.
   */
  lemma {:induction false} ClaimsAreNeverLost(o: Oracles, w: World, es: seq<Event>, k: string)
    requires Fine(w.store) && CanRun(o, w, es) && IsLowerHex64(k) && ClaimsAgree(o, w.store, k)
    ensures ClaimsAgree(o, After(o, w, es).store, k)
    ensures Visible(o, w.store, k) <= Visible(o, After(o, w, es).store, k)
    decreases |es|
  {
    if es != [] {
      var init := es[..|es| - 1];
      ClaimsAreNeverLost(o, w, init, k);
      RunKeeps(o, w, init, k);
      StepKeepsClaims(o, After(o, w, init), es[|es| - 1], k);
    }
  }

  /** Rows of the claim table stay in every run. */
  lemma {:induction false} RunKeepsTable(o: Oracles, w: World, es: seq<Event>, k: string)
    requires CanRun(o, w, es)
    ensures InTable(w.store.claims, k) <= InTable(After(o, w, es).store.claims, k)
    decreases |es|
  {
    if es != [] {
      var before, e := After(o, w, es[..|es| - 1]), es[|es| - 1];
      RunKeepsTable(o, w, es[..|es| - 1], k);
      if e.IndexListed? { BackfillFiles(before.store, before.listings[e.process], |before.listings[e.process]|); }
      TableGrows(before.store.claims, Next(o, before, e).store.claims, k);
    }
  }

  /** Where they do not agree, two backfills that list them in different orders show a claim and then hide it. */
  lemma TwoSpellingsHideAClaim(o: Oracles, w: World, k: string)
      returns (es: seq<Event>, more: seq<Event>, c: ClaimKey)
    requires Fine(w.store) && IsLowerHex64(k) && !ClaimsAgree(o, w.store, k)
    ensures CanRun(o, w, es) && CanRun(o, w, es + more)
    ensures c in Visible(o, After(o, w, es).store, k) && c !in Visible(o, After(o, w, es + more).store, k)
  {
    var files := w.store.files;
    var f, g :| && Spelled(files, k, f) && Spelled(files, k, g)
                && !(ClaimedTxs(o, files[f].fields) <= ClaimedTxs(o, files[g].fields) + InTable(w.store.claims, k));
    c :| c in ClaimedTxs(o, files[f].fields) && c !in ClaimedTxs(o, files[g].fields) + InTable(w.store.claims, k);
    es := ListAndIndex(o, w, k, f);
    var shown := After(o, w, es);
    more := ListAndIndex(o, shown, k, g);
    Append(o, w, es, more);
  }

  /** Two steps after which readers find a given old file. */
  lemma ListAndIndex(o: Oracles, w: World, k: string, f: string) returns (es: seq<Event>)
    requires Fine(w.store) && IsLowerHex64(k) && Spelled(w.store.files, k, f)
    ensures CanRun(o, w, es) && Fine(After(o, w, es).store)
    ensures After(o, w, es).store.files == w.store.files && After(o, w, es).store.claims == w.store.claims
    ensures Read(w.store.files, After(o, w, es).store.mapped, k) == Loaded(w.store.files[f].fields)
  {
    var names := EveryFileListed(w, f);
    es := [ListFiles(0, names), IndexListed(0)];
    TwoSteps(o, w, es[0], es[1]);
    LastListedIsRead(w.store, names, k, f);
    BackfillKeeps(w.store, names, |names|, k);
  }

  lemma {:induction false} Append(o: Oracles, w: World, es: seq<Event>, more: seq<Event>)
    requires CanRun(o, w, es) && CanRun(o, After(o, w, es), more)
    ensures CanRun(o, w, es + more) && After(o, w, es + more) == After(o, After(o, w, es), more)
    decreases |more|
  {
    if more == [] {
      assert es + more == es;
    } else {
      Append(o, w, es, more[..|more| - 1]);
      assert es + more[..|more| - 1] + [more[|more| - 1]] == es + more;
      Extend(o, w, es + more[..|more| - 1], more[|more| - 1]);
    }
  }
}
