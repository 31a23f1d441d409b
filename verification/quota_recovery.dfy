/**
 * The two files of src/routes/midnight-read-rpc.ts, lines 95-127, over runs in which writes
 * fail, processes die anywhere and new ones start: a reservation that was committed before its
 * high-water file was renamed leaves the files apart, and every later decision is still the one
 * a single counter, charged in one step, would make.
 */
module QuotaRecovery {
  import opened Common
  import opened ReadQuota
  import opened QuotaRuns

  /**
   * The budget as one counter that is charged in one step: the last day charged and what was
   * spent on it. There is none before the first start; a start that fails while it creates the
   * files shuts the service for good.
   */
  datatype Counter = NoFiles | Shut | Counter(day: int, spent: Charge)

  /** What was spent on a day that is not over. */
  function SpentOn(c: Counter, day: int): Charge
    requires c.Counter?
  {
    if day == c.day then c.spent else NOTHING
  }

  /** The clock has not gone back behind the last day, and the day has room for a job. */
  predicate HasRoom(c: Counter, day: int, count: nat) {
    && c.Counter? && c.day <= day
    && SpentOn(c, day).used + count <= 80_000
    && (count > 0 ==> SpentOn(c, day).requests + 1 <= 40_000)
  }

  function Add(c: Counter, day: int, count: nat): Counter
    requires c.Counter?
  {
    Counter(day, Charge(SpentOn(c, day).used + count, SpentOn(c, day).requests + if count > 0 then 1 else 0))
  }

  /** A reservation counts from its commit on, whether or not it is granted. */
  function CountStep(c: Counter, e: Event): Counter {
    match e
    case Start(day, created, crash) =>
      if c.NoFiles? then if created == Never && day >= 0 then Counter(day, NOTHING) else Shut
      else if HasRoom(c, day, 0) && crash != BeforeCommit then Add(c, day, 0)
      else c
    case Reserve(day, count, crash) => if HasRoom(c, day, count) && crash != BeforeCommit then Add(c, day, count) else c
    case Send(_) => c
    case Drop(_) => c
    case Restore(_) => c
  }

  function Counted(events: seq<Event>): Counter {
    if events == [] then NoFiles else CountStep(Counted(events[..|events| - 1]), events[|events| - 1])
  }

  /** The latest row is the counter, and it is not behind the high-water mark. */
  ghost predicate Keeps(w: World, c: Counter) {
    match c
    case NoFiles => w.db.None? && w.guard.None?
    case Shut => w.db.Some? && (w.guard.Some? ==> w.guard.value.day < 0)
    case Counter(day, spent) =>
      && w.db.Some? && day in w.db.value && w.db.value[day] == spent && WithinCaps(spent)
      && (forall d | d in w.db.value :: d <= day)
      && w.guard.Some? && 0 <= w.guard.value.day <= day && WithinCaps(w.guard.value.charge)
      && (w.guard.value.day == day ==> AtMost(w.guard.value.charge, spent))
  }

  lemma KeptDecision(w: World, c: Counter, day: int, count: nat)
    requires Keeps(w, c)
    ensures Decide(w.db, w.guard, day, count) ==
      if !c.Counter? || day < c.day then Rewound
      else if HasRoom(c, day, count) then Granted(Add(c, day, count).spent)
      else Exhausted
  {
    if c.Counter? {
      assert LatestDay(w.db.value) == c.day;
    }
  }

  lemma CommitKeeps(w: World, c: Counter, day: int, count: nat, crash: Crash)
    requires Keeps(w, c)
    ensures var s := Reserved(w.db, w.guard, day, count, crash);
      Keeps(w.(db := s.0, guard := s.1),
            if HasRoom(c, day, count) && crash != BeforeCommit then Add(c, day, count) else c)
  {
    KeptDecision(w, c, day, count);
  }

  predicate NoRestore(events: seq<Event>) { forall e | e in events :: !e.Restore? }

  lemma CountStepKeeps(w: World, c: Counter, e: Event)
    requires Keeps(w, c) && !e.Restore?
    ensures Keeps(Step(w, e), CountStep(c, e))
  {
    match e
    case Start(day, created, crash) => StartKeeps(w, c, day, created, crash);
    case Reserve(day, count, crash) => CommitKeeps(w, c, day, count, crash);
    case Send(_) =>
    case Drop(_) =>
  }

  lemma StartKeeps(w: World, c: Counter, day: int, created: Crash, crash: Crash)
    requires Keeps(w, c)
    ensures Keeps(Step(w, Start(day, created, crash)), CountStep(c, Start(day, created, crash)))
  {
    if c.NoFiles? {
      if created == Never && day >= 0 {
        var new_ := w.(db := Some(map[day := NOTHING]), guard := Some(Mark(day, NOTHING)));
        CommitKeeps(new_, Counter(day, NOTHING), day, 0, crash);
      }
    } else if c.Counter? {
      CommitKeeps(w, c, day, 0, crash);
    }
  }

  lemma {:induction false} RunIsCounted(events: seq<Event>)
    requires NoRestore(events)
    ensures Keeps(Run(FRESH, events), Counted(events))
  {
    if events != [] {
      var init, e := events[..|events| - 1], events[|events| - 1];
      assert e in events && forall x | x in init :: x in events;
      RunIsCounted(init);
      CountStepKeeps(Run(FRESH, init), Counted(init), e);
    }
  }

  /**
   * In every run with any failed writes, crashes and restarts, as long as nobody replaces the
   * database: the latest row is never behind the high-water mark, and it is the counter.
   */
  lemma LatestRowLeads(events: seq<Event>)
    requires NoRestore(events)
    ensures var w, c := Run(FRESH, events), Counted(events);
      && (c.Counter? <==> w.guard.Some? && w.guard.value.day >= 0)
      && (c.Counter? ==>
            && w.db.Some? && |w.db.value| > 0
            && LatestDay(w.db.value) == c.day && w.db.value[c.day] == c.spent
            && w.guard.value.day <= c.day
            && (w.guard.value.day == c.day ==> AtMost(w.guard.value.charge, c.spent))
            && AtMost(Charged(w, c.day), c.spent))
  {
    var w, c := Run(FRESH, events), Counted(events);
    RunIsCounted(events);
    if c.Counter? {
      assert LatestDay(w.db.value) == c.day;
      RunKeepsGuarded(events);
      CounterCoversCharges(w, c);
    }
  }

  lemma CounterCoversCharges(w: World, c: Counter)
    requires Keeps(w, c) && c.Counter? && Guarded(w)
    ensures AtMost(Charged(w, c.day), c.spent)
  {
    if w.guard.value.day < c.day {
      CostOfNone(w.charges, ChargedTo(c.day));
    }
  }

  /**
   * In every such run a job is charged and queued exactly when no write fails, the clock is not
   * before the last day counted, and what was counted on the day leaves room under both caps:
   * two files, written one after the other, act as one counter that is charged in one step.
   */
  lemma ChargedExactly(events: seq<Event>, day: int, count: nat, crash: Crash)
    requires NoRestore(events) && count > 0
    ensures var w := Run(FRESH, events);
      var t := Step(w, Reserve(day, count, crash));
      && t.charges ==
           w.charges + (if HasRoom(Counted(events), day, count) && crash == Never then [Job(day, count)] else [])
      && t.queue ==
           w.queue + (if HasRoom(Counted(events), day, count) && crash == Never then [Job(day, count)] else [])
  {
    RunIsCounted(events);
    KeptDecision(Run(FRESH, events), Counted(events), day, count);
  }

  /** Without room on a day that is not over the answer is that the budget is exhausted, else the service throws. */
  lemma RefusedExactly(events: seq<Event>, day: int, count: nat)
    requires NoRestore(events) && !HasRoom(Counted(events), day, count)
    ensures var w := Run(FRESH, events);
      Decide(w.db, w.guard, day, count) ==
        if Counted(events).Counter? && Counted(events).day <= day then Exhausted else Rewound
  {
    RunIsCounted(events);
    KeptDecision(Run(FRESH, events), Counted(events), day, count);
  }

  /**
   * After every such run a start in which no write fails succeeds exactly on a day that is not
   * before the last one counted, or on no files at all; so a process always comes back up,
   * wherever the one before it died.
   */
  lemma StartsExactly(events: seq<Event>, day: int, created: Crash, crash: Crash)
    requires NoRestore(events)
    ensures var w, c := Run(FRESH, events), Counted(events);
      Opened(w.db, w.guard, day, created, crash).2 <==>
        && crash == Never
        && ((c.Counter? && c.day <= day) || (c.NoFiles? && created == Never && day >= 0))
  {
    var w, c := Run(FRESH, events), Counted(events);
    RunIsCounted(events);
    KeptDecision(w, c, day, 0);
    if c.NoFiles? {
      KeptDecision(w.(db := Some(map[day := NOTHING]), guard := Some(Mark(day, NOTHING))),
        if day >= 0 then Counter(day, NOTHING) else Shut, day, 0);
    } else if c.Counter? {
      RoomForNothing(events);
    }
  }

  /** What is counted is within the caps. */
  lemma {:induction false} RoomForNothing(events: seq<Event>)
    ensures Counted(events).Counter? ==> WithinCaps(Counted(events).spent)
  {
    if events != [] { RoomForNothing(events[..|events| - 1]); }
  }
}
