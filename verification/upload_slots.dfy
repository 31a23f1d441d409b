/**
 * Which uploads hold a slot: src/quota.ts, lines 404-500, over runs of starts, chunks, finished
 * uploads and re-keyings. An upload holds its slot from its start until it is finished or taken
 * over, or until its owner starts another one after it was silent for ten minutes.
 */
module UploadSlots {
  import opened Common
  import opened UploadQuota

  /** Who holds a slot, and when the upload was last heard of. */
  datatype Holder = Holder(owner: string, at: int)

  type Holders = map<string, Holder>

  /** The owner's uploads heard of in the ten minutes before `now`. */
  function Recent(h: Holders, owner: string, now: int): set<string> {
    set u | u in h && h[u].owner == owner && h[u].at >= now - 600_000
  }

  function HeldBy(h: Holders, owner: string): set<string> { set u | u in h && h[u].owner == owner }

  /** Another start of the owner takes the slots of its silent uploads away. */
  function Unsilent(h: Holders, owner: string, now: int): Holders {
    map u | u in h && !(h[u].owner == owner && h[u].at < now - 600_000) :: h[u]
  }

  /** Whether a start finds room, and whether a charge does. */
  predicate HasSlot(w: World, h: Holders, owner: string, now: int) {
    |Recent(h, owner, now)| < LimitsOf(w.tables, owner).concurrent
  }

  predicate HasBytes(w: World, owner: string, bytes: nat, day: string) {
    Admitted(w.charges, owner, day) + bytes <= LimitsOf(w.tables, owner).bytes
  }

  /** What an event other than a start does to the holders. */
  ghost function Touched(w: World, h: Holders, e: Event): Holders
    requires !e.Start? && (e.Retire? ==> |e.rows| == |e.news|)
  {
    match e
    case Record(owner, upload, bytes, day, now) =>
      if HasBytes(w, owner, bytes, day) && upload in h && h[upload].owner == owner
      then h[upload := Holder(owner, now)] else h
    case ChargeManifest(_, _, _) => h
    case Finalize(owner, upload, _) => if upload in h && h[upload].owner == owner then h - {upload} else h
    case Retire(rows, news) => map u | u in h :: Holder(Renamed(rows, news, |rows|, h[u].owner), h[u].at)
  }

  ghost function Hold(w: World, h: Holders, e: Event): Holders
    requires e.Retire? ==> |e.rows| == |e.news|
  {
    if !e.Start? then Touched(w, h, e)
    else if HasSlot(w, h, e.owner, e.now) then Unsilent(h, e.owner, e.now)[e.upload := Holder(e.owner, e.now)]
    else Unsilent(h, e.owner, e.now)
  }

  /** The uploads that hold a slot after a run from registered keys and no uploads. */
  ghost function Holding(hash: string -> string, w: World, es: seq<Event>): Holders
    requires CanRun(hash, w, es)
    decreases |es|
  {
    if es == [] then map[]
    else Hold(After(hash, w, es[..|es| - 1]), Holding(hash, w, es[..|es| - 1]), es[|es| - 1])
  }

  // ------------------------------------------------------------ the table holds them

  /** The active rows are the holders. */
  ghost predicate Same(inflight: map<string, Slot>, h: Holders) {
    && (forall u :: u in h <==> u in inflight && inflight[u].active)
    && (forall u | u in h :: h[u] == Holder(inflight[u].owner, inflight[u].startedAt))
  }

  lemma StartIsHeld(w: World, h: Holders, owner: string, upload: string, now: int)
    requires Same(w.tables.inflight, h)
    ensures Same(Started(w.tables, owner, upload, now).1.inflight, Hold(w, h, Start(owner, upload, now)))
    ensures Started(w.tables, owner, upload, now).0 ==
      if HasSlot(w, h, owner, now) then Allowed
      else Exceeded(LimitsOf(w.tables, owner).concurrent, |Recent(h, owner, now)|)
  {
    var cleaned := w.tables.inflight - Stale(w.tables.inflight, owner, now);
    assert Active(cleaned, owner) == Recent(h, owner, now);
    assert Same(cleaned, Unsilent(h, owner, now));
  }

  lemma RecordIsHeld(w: World, h: Holders, owner: string, upload: string, bytes: nat, day: string, now: int)
    requires Same(w.tables.inflight, h) && WithinCaps(w, owner, day)
    ensures Same(Recorded(w.tables, owner, upload, bytes, day, now).1.inflight,
                 Hold(w, h, Record(owner, upload, bytes, day, now)))
    ensures Recorded(w.tables, owner, upload, bytes, day, now).0.Allowed? <==> HasBytes(w, owner, bytes, day)
  {
  }

  lemma FinalizeIsHeld(w: World, h: Holders, owner: string, upload: string, day: string)
    requires Same(w.tables.inflight, h)
    ensures Same(Finalized(w.tables, owner, upload, day).1.inflight, Hold(w, h, Finalize(owner, upload, day)))
  {
  }

  lemma {:induction false} RetireIsHeld(t: Tables, h: Holders, rows: seq<string>, news: seq<string>, n: nat)
    requires n <= |rows| == |news| && Same(t.inflight, h)
    ensures Same(RekeyedAll(t, rows, news, n).inflight,
                 map u | u in h :: Holder(Renamed(rows, news, n, h[u].owner), h[u].at))
  {
    if n > 0 {
      RetireIsHeld(t, h, rows, news, n - 1);
    }
  }

  lemma StepIsHeld(hash: string -> string, w: World, h: Holders, e: Event)
    requires Possible(hash, w, e) && Inv(w) && Same(w.tables.inflight, h)
    ensures Same(Next(hash, w, e).tables.inflight, Hold(w, h, e))
  {
    match e
    case Start(owner, upload, now) => StartIsHeld(w, h, owner, upload, now);
    case Record(owner, upload, bytes, day, now) =>
      assert WithinCaps(w, owner, day);
      RecordIsHeld(w, h, owner, upload, bytes, day, now);
    case ChargeManifest(_, _, _) =>
    case Finalize(owner, upload, day) => FinalizeIsHeld(w, h, owner, upload, day);
    case Retire(rows, news) => RetireIsHeld(w.tables, h, rows, news, |rows|);
  }

  /** In every run the active rows are the uploads that hold a slot, and no owner holds more than its limit. */
  lemma {:induction false} SlotsAreHeld(hash: string -> string, keys: map<string, KeyRow>, account: Limits,
                                        es: seq<Event>)
    requires CanRun(hash, Fresh(keys, account), es)
    ensures Inv(After(hash, Fresh(keys, account), es))
    ensures Same(After(hash, Fresh(keys, account), es).tables.inflight, Holding(hash, Fresh(keys, account), es))
    decreases |es|
  {
    EveryRunStaysWithinCaps(hash, keys, account, es);
    if es != [] {
      var init := es[..|es| - 1];
      SlotsAreHeld(hash, keys, account, init);
      var w := After(hash, Fresh(keys, account), init);
      StepIsHeld(hash, w, Holding(hash, Fresh(keys, account), init), es[|es| - 1]);
    }
  }

  // ------------------------------------------------------------ one call

  /**
   * A start removes exactly the owner's active uploads that were last heard of more than ten
   * minutes ago, and no other row; it is allowed exactly while fewer uploads than the limit are
   * left, and then the upload has the owner's fresh slot, whoever had its row before.
   */
  lemma StartExactly(t: Tables, owner: string, upload: string, now: int)
    ensures var (check, after) := Started(t, owner, upload, now);
      var left := set u | u in t.inflight && t.inflight[u].owner == owner && t.inflight[u].active
                          && t.inflight[u].startedAt >= now - 600_000;
      && check == (if |left| < LimitsOf(t, owner).concurrent then Allowed
                   else Exceeded(LimitsOf(t, owner).concurrent, |left|))
      && (check.Allowed? ==> upload in after.inflight && after.inflight[upload] == Slot(owner, now, 0, true))
      && (forall u | u in after.inflight && (u != upload || !check.Allowed?) ::
            u in t.inflight && after.inflight[u] == t.inflight[u])
      && (forall u | u in t.inflight && (u != upload || !check.Allowed?) ::
            u in after.inflight <==>
              !(t.inflight[u].owner == owner && t.inflight[u].active && t.inflight[u].startedAt < now - 600_000))
      && after.keys == t.keys && after.daily == t.daily && after.account == t.account
  {
    var cleaned := t.inflight - Stale(t.inflight, owner, now);
    var left := set u | u in t.inflight && t.inflight[u].owner == owner && t.inflight[u].active
                        && t.inflight[u].startedAt >= now - 600_000;
    assert Active(cleaned, owner) == left;
  }

  /**
   * A chunk is charged exactly while the owner's day has room for its bytes; then the owner's own
   * row of the upload is heard of now and holds the bytes. Nothing else changes but the day's row.
   */
  lemma RecordExactly(t: Tables, owner: string, upload: string, bytes: nat, day: string, now: int)
    ensures var (check, after) := Recorded(t, owner, upload, bytes, day, now);
      var spent := if (owner, day) in t.daily then t.daily[(owner, day)] else Daily(0, 0);
      && check == (if spent.bytes + bytes <= LimitsOf(t, owner).bytes then Allowed
                   else Exceeded(LimitsOf(t, owner).bytes, spent.bytes))
      && after.daily == t.daily[(owner, day) :=
           Daily(spent.receipts, if check.Allowed? then spent.bytes + bytes else spent.bytes)]
      && (check.Allowed? && upload in t.inflight && t.inflight[upload].owner == owner ==>
            var slot := t.inflight[upload];
            after.inflight == t.inflight[upload := Slot(owner, now, slot.bytes + bytes, slot.active)])
      && (!(check.Allowed? && upload in t.inflight && t.inflight[upload].owner == owner) ==>
            after.inflight == t.inflight)
      && after.keys == t.keys && after.account == t.account
  {
  }

  /** A finished upload gives its slot back in any case; its receipt counts exactly below the day's limit. */
  lemma FinalizeExactly(t: Tables, owner: string, upload: string, day: string)
    ensures var (check, after) := Finalized(t, owner, upload, day);
      var spent := if (owner, day) in t.daily then t.daily[(owner, day)] else Daily(0, 0);
      && check == (if spent.receipts < LimitsOf(t, owner).receipts then Allowed
                   else Exceeded(LimitsOf(t, owner).receipts, spent.receipts))
      && after.daily == t.daily[(owner, day) :=
           Daily(if check.Allowed? then spent.receipts + 1 else spent.receipts, spent.bytes)]
      && (upload in t.inflight && t.inflight[upload].owner == owner ==>
            after.inflight ==
              t.inflight[upload := Slot(owner, t.inflight[upload].startedAt, t.inflight[upload].bytes, false)])
      && (!(upload in t.inflight && t.inflight[upload].owner == owner) ==> after.inflight == t.inflight)
      && after.keys == t.keys && after.account == t.account
  {
  }

  // ------------------------------------------------------------ ten minutes

  function Reading(e: Event): Option<int> { if e.Start? || e.Record? then Some(e.now) else None }

  /** The readings of the clock do not decrease, and none is after `now`. */
  ghost predicate Forward(es: seq<Event>, now: int)
    decreases |es|
  {
    es == [] ||
    (var e := es[|es| - 1];
     if Reading(e).Some? then e.now <= now && Forward(es[..|es| - 1], e.now) else Forward(es[..|es| - 1], now))
  }

  /** The same rules without taking any slot away: begun or charged, and neither finished nor taken over. */
  ghost function Hear(w: World, heard: Holders, room: bool, e: Event): Holders
    requires e.Retire? ==> |e.rows| == |e.news|
  {
    if !e.Start? then Touched(w, heard, e)
    else if room then heard[e.upload := Holder(e.owner, e.now)]
    else heard
  }

  ghost function Heard(hash: string -> string, w: World, es: seq<Event>): Holders
    requires CanRun(hash, w, es)
    decreases |es|
  {
    if es == [] then map[]
    else
      var before, e := After(hash, w, es[..|es| - 1]), es[|es| - 1];
      var room := e.Start? && HasSlot(before, Holding(hash, w, es[..|es| - 1]), e.owner, e.now);
      Hear(before, Heard(hash, w, es[..|es| - 1]), room, e)
  }

  /** A chunk is charged for an upload whose slot was taken away. */
  ghost predicate LateCharge(w: World, h: Holders, heard: Holders, e: Event) {
    && e.Record? && HasBytes(w, e.owner, e.bytes, e.day)
    && e.upload in heard && heard[e.upload].owner == e.owner && e.upload !in h
  }

  ghost predicate NoLateCharge(hash: string -> string, w: World, es: seq<Event>)
    requires CanRun(hash, w, es)
    decreases |es|
  {
    es == [] ||
    (var init := es[..|es| - 1];
     && NoLateCharge(hash, w, init)
     && !LateCharge(After(hash, w, init), Holding(hash, w, init), Heard(hash, w, init), es[|es| - 1]))
  }

  /** Holders are heard of; who is heard of without holding a slot was silent for ten minutes by now. */
  ghost predicate Accounts(h: Holders, heard: Holders, now: int) {
    && (forall u | u in h :: u in heard && heard[u] == h[u])
    && (forall u | u in heard && u !in h :: heard[u].at < now - 600_000)
  }

  lemma StepAccounts(w: World, h: Holders, heard: Holders, e: Event, now: int)
    requires Accounts(h, heard, now) && (e.Retire? ==> |e.rows| == |e.news|) && !LateCharge(w, h, heard, e)
    requires Reading(e).Some? ==> now <= e.now
    ensures Accounts(Hold(w, h, e), Hear(w, heard, e.Start? && HasSlot(w, h, e.owner, e.now), e),
                     if Reading(e).Some? then e.now else now)
  {
  }

  lemma {:induction false} RunAccounts(hash: string -> string, w: World, es: seq<Event>, now: int)
    requires CanRun(hash, w, es) && Forward(es, now) && NoLateCharge(hash, w, es)
    ensures Accounts(Holding(hash, w, es), Heard(hash, w, es), now)
    decreases |es|
  {
    if es != [] {
      var init, e := es[..|es| - 1], es[|es| - 1];
      var before := if Reading(e).Some? then e.now else now;
      RunAccounts(hash, w, init, before);
      StepAccounts(After(hash, w, init), Holding(hash, w, init), Heard(hash, w, init), e, before);
    }
  }

  /**
   * In every run whose clock does not go back and in which no chunk is charged for an upload that
   * lost its slot: an owner's uploads begun or charged in the last ten minutes, and neither
   * finished nor taken over, all hold a slot, so they are never more than its limit.
   */
  lemma RecentUploadsWithinCap(hash: string -> string, keys: map<string, KeyRow>, account: Limits, es: seq<Event>,
                               owner: string, now: int)
    requires var w := Fresh(keys, account); CanRun(hash, w, es) && Forward(es, now) && NoLateCharge(hash, w, es)
    ensures var w := Fresh(keys, account);
      && Recent(Heard(hash, w, es), owner, now) <= HeldBy(Holding(hash, w, es), owner)
      && |Recent(Heard(hash, w, es), owner, now)| <= LimitsOf(After(hash, w, es).tables, owner).concurrent
  {
    var w := Fresh(keys, account);
    RunAccounts(hash, w, es, now);
    SlotsAreHeld(hash, keys, account, es);
    assert WithinCaps(After(hash, w, es), owner, "");
    assert Active(After(hash, w, es).tables.inflight, owner) == HeldBy(Holding(hash, w, es), owner);
    SubsetCardinality(Recent(Heard(hash, w, es), owner, now), HeldBy(Holding(hash, w, es), owner));
  }

  /** And a late charge is such an upload without a slot, at once. */
  lemma LateChargeHoldsNothing(hash: string -> string, w: World, es: seq<Event>, e: Event)
    requires CanRun(hash, w, es) && LateCharge(After(hash, w, es), Holding(hash, w, es), Heard(hash, w, es), e)
    ensures CanRun(hash, w, es + [e])
    ensures e.upload in Recent(Heard(hash, w, es + [e]), e.owner, e.now) && e.upload !in Holding(hash, w, es + [e])
  {
    assert (es + [e])[..|es|] == es;
  }

  /** After every part of the run, uploads heard of in the last ten minutes hold a slot. */
  ghost predicate RecentAlwaysHold(hash: string -> string, w: World, es: seq<Event>)
    requires CanRun(hash, w, es)
    decreases |es|
  {
    && (es != [] ==> RecentAlwaysHold(hash, w, es[..|es| - 1]))
    && (es != [] && es[|es| - 1].Record? ==>
          var e := es[|es| - 1];
          Recent(Heard(hash, w, es), e.owner, e.now) <= HeldBy(Holding(hash, w, es), e.owner))
  }

  /** They do, after every charge, exactly in the runs without a late charge. */
  lemma {:induction false} LateChargesExactly(hash: string -> string, w: World, es: seq<Event>, now: int)
    requires CanRun(hash, w, es) && Forward(es, now)
    ensures RecentAlwaysHold(hash, w, es) <==> NoLateCharge(hash, w, es)
    decreases |es|
  {
    if es != [] {
      var init, e := es[..|es| - 1], es[|es| - 1];
      LateChargesExactly(hash, w, init, if Reading(e).Some? then e.now else now);
      if NoLateCharge(hash, w, es) {
        if e.Record? { RecentHold(hash, w, es, e.owner, e.now); }
      } else if NoLateCharge(hash, w, init) {
        assert init + [e] == es;
        LateChargeHoldsNothing(hash, w, init, e);
      }
    }
  }

  lemma RecentHold(hash: string -> string, w: World, es: seq<Event>, owner: string, now: int)
    requires CanRun(hash, w, es) && Forward(es, now) && NoLateCharge(hash, w, es)
    ensures Recent(Heard(hash, w, es), owner, now) <= HeldBy(Holding(hash, w, es), owner)
  {
    RunAccounts(hash, w, es, now);
  }

  lemma {:induction false} Extend(hash: string -> string, w: World, es: seq<Event>, e: Event)
    requires CanRun(hash, w, es) && Possible(hash, After(hash, w, es), e)
    ensures CanRun(hash, w, es + [e]) && After(hash, w, es + [e]) == Next(hash, After(hash, w, es), e)
    ensures Holding(hash, w, es + [e]) == Hold(After(hash, w, es), Holding(hash, w, es), e)
    ensures Heard(hash, w, es + [e]) ==
      Hear(After(hash, w, es), Heard(hash, w, es),
           e.Start? && HasSlot(After(hash, w, es), Holding(hash, w, es), e.owner, e.now), e)
  {
    assert (es + [e])[..|es|] == es;
  }

  /** Two uploads under a limit of one: the first is silent for ten minutes, loses its slot, and goes on. */
  lemma LateChargePassesTheCap(hash: string -> string, owner: string, day: string) returns (w: World, es: seq<Event>)
    ensures w == Fresh(map[], Limits(0, 0, 1)) && CanRun(hash, w, es) && Forward(es, 600_002)
    ensures |Recent(Heard(hash, w, es), owner, 600_002)| == 2
  {
    w := Fresh(map[], Limits(0, 0, 1));
    var a, b, c := Start(owner, "1", 0), Start(owner, "2", 600_001), Record(owner, "1", 0, day, 600_002);
    var none: seq<Event> := [];
    Extend(hash, w, none, a);
    Extend(hash, w, none + [a], b);
    Extend(hash, w, none + [a] + [b], c);
    es := none + [a] + [b] + [c];
    LaterReading(none, a, 600_001);
    LaterReading(none + [a], b, 600_002);
    LaterReading(none + [a] + [b], c, 600_002);
    StartKeepsRest(hash, w, a);
    StartKeepsRest(hash, After(hash, w, none + [a]), b);
    FirstSlot(w, owner);
    SecondSlot(After(hash, w, none + [a]), owner);
    LateHeard(After(hash, w, none + [a] + [b]), owner, day);
    BothRecent(Heard(hash, w, es), owner);
  }

  lemma StartKeepsRest(hash: string -> string, w: World, e: Event)
    requires e.Start?
    ensures var t := Next(hash, w, e);
      t.tables.keys == w.tables.keys && t.tables.account == w.tables.account && t.charges == w.charges
  {
  }

  lemma LateHeard(w: World, owner: string, day: string)
    requires w.charges == []
    ensures var heard := map["1" := Holder(owner, 0), "2" := Holder(owner, 600_001)];
      Hear(w, heard, false, Record(owner, "1", 0, day, 600_002)) ==
        map["1" := Holder(owner, 600_002), "2" := Holder(owner, 600_001)]
  {
    var heard: Holders := map["1" := Holder(owner, 0), "2" := Holder(owner, 600_001)];
    assert "1" != "2";
    assert HasBytes(w, owner, 0, day);
    assert heard["1" := Holder(owner, 600_002)] == map["1" := Holder(owner, 600_002), "2" := Holder(owner, 600_001)];
  }

  lemma LaterReading(es: seq<Event>, e: Event, now: int)
    requires Reading(e).Some? && Forward(es, e.now) && e.now <= now
    ensures Forward(es + [e], now)
  {
    assert (es + [e])[..|es|] == es;
  }

  lemma BothRecent(heard: Holders, owner: string)
    requires heard == map["1" := Holder(owner, 600_002), "2" := Holder(owner, 600_001)]
    ensures |Recent(heard, owner, 600_002)| == 2
  {
    assert "1" != "2";
    assert Recent(heard, owner, 600_002) == {"1", "2"};
  }

  lemma FirstSlot(w: World, owner: string)
    requires LimitsOf(w.tables, owner).concurrent == 1
    ensures HasSlot(w, map[], owner, 0)
    ensures Hold(w, map[], Start(owner, "1", 0)) == map["1" := Holder(owner, 0)]
    ensures Hear(w, map[], true, Start(owner, "1", 0)) == map["1" := Holder(owner, 0)]
  {
    assert Recent(map[], owner, 0) == {};
  }

  lemma SecondSlot(w: World, owner: string)
    requires LimitsOf(w.tables, owner).concurrent == 1
    ensures HasSlot(w, map["1" := Holder(owner, 0)], owner, 600_001)
    ensures Hold(w, map["1" := Holder(owner, 0)], Start(owner, "2", 600_001)) == map["2" := Holder(owner, 600_001)]
    ensures Hear(w, map["1" := Holder(owner, 0)], true, Start(owner, "2", 600_001)) ==
      map["1" := Holder(owner, 0), "2" := Holder(owner, 600_001)]
  {
    assert Recent(map["1" := Holder(owner, 0)], owner, 600_001) == {};
  }
}
