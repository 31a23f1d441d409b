/**
 * src/routes/midnight-read-rpc.ts, lines 95-115 and 176-187, over whole runs: a job is charged
 * and queued, and jobs are sent one after another, each at a reading of the clock that may be
 * a day later than the one it was charged by. Either write may fail or the process may die at
 * any time, the clock may read anything, and the database (never the high-water file) may be
 * deleted or replaced by any other.
 */
module QuotaRuns {
  import opened Common
  import opened ReadQuota

  // ------------------------------------------------------------ sums of charges

  function Plus(a: Charge, b: Charge): Charge { Charge(a.used + b.used, a.requests + b.requests) }

  /** What the items of a list cost together. */
  function Cost<T>(items: seq<T>, cost: T -> Charge): Charge {
    if items == [] then NOTHING else Plus(cost(items[0]), Cost(items[1..], cost))
  }

  /** The list without its `i`th item. */
  function Without<T>(items: seq<T>, i: nat): seq<T> {
    if items == [] then [] else if i == 0 then items[1..] else [items[0]] + Without(items[1..], i - 1)
  }

  ghost predicate IsCost<T(!new)>(cost: T -> Charge) { forall x :: AtMost(NOTHING, cost(x)) }

  lemma PlusAssociates(a: Charge, b: Charge, c: Charge)
    ensures Plus(Plus(a, b), c) == Plus(a, Plus(b, c))
  {
  }

  lemma PlusGrows(a: Charge, b: Charge, c: Charge, d: Charge)
    requires AtMost(a, b) && AtMost(c, d)
    ensures AtMost(Plus(a, c), Plus(b, d))
  {
  }

  lemma NothingMore(c: Charge)
    ensures Plus(NOTHING, c) == c == Plus(c, NOTHING)
  {
  }

  lemma AtMostAll(a: Charge, b: Charge, c: Charge)
    requires AtMost(a, b) && AtMost(b, c)
    ensures AtMost(a, c)
  {
  }

  lemma CostOfFirst<T>(first: T, rest: seq<T>, cost: T -> Charge)
    ensures Cost([first] + rest, cost) == Plus(cost(first), Cost(rest, cost))
  {
    assert ([first] + rest)[1..] == rest;
  }

  lemma {:induction false} CostOfOneMore<T>(items: seq<T>, last: T, cost: T -> Charge)
    ensures Cost(items + [last], cost) == Plus(Cost(items, cost), cost(last))
  {
    if items == [] {
      assert items + [last] == [last] + items;
      CostOfFirst(last, items, cost);
    } else {
      assert items + [last] == [items[0]] + (items[1..] + [last]);
      CostOfFirst(items[0], items[1..] + [last], cost);
      CostOfOneMore(items[1..], last, cost);
      PlusAssociates(cost(items[0]), Cost(items[1..], cost), cost(last));
    }
  }

  lemma {:induction false} CostIsNatural<T(!new)>(items: seq<T>, cost: T -> Charge)
    requires IsCost(cost)
    ensures AtMost(NOTHING, Cost(items, cost))
  {
    if items != [] { CostIsNatural(items[1..], cost); }
  }

  lemma {:induction false} CostOfNone<T>(items: seq<T>, cost: T -> Charge)
    requires forall x | x in items :: cost(x) == NOTHING
    ensures Cost(items, cost) == NOTHING
  {
    if items != [] {
      var rest := items[1..];
      assert items[0] in items && forall x | x in rest :: x in items;
      CostOfNone(rest, cost);
      NothingMore(NOTHING);
    }
  }

  lemma {:induction false} CostWithout<T(!new)>(items: seq<T>, i: nat, cost: T -> Charge)
    requires IsCost(cost)
    ensures AtMost(Cost(Without(items, i), cost), Cost(items, cost))
  {
    if items == [] {
    } else if i == 0 {
      PlusGrows(NOTHING, cost(items[0]), Cost(items[1..], cost), Cost(items[1..], cost));
    } else {
      var rest := Without(items[1..], i - 1);
      CostWithout(items[1..], i - 1, cost);
      CostOfFirst(items[0], rest, cost);
      PlusGrows(cost(items[0]), cost(items[0]), Cost(rest, cost), Cost(items[1..], cost));
    }
  }

  lemma {:induction false} CostOfMore<T(!new)>(items: seq<T>, less: T -> Charge, more: T -> Charge)
    requires forall x :: AtMost(less(x), more(x))
    ensures AtMost(Cost(items, less), Cost(items, more))
  {
    if items != [] {
      CostOfMore(items[1..], less, more);
      PlusGrows(less(items[0]), more(items[0]), Cost(items[1..], less), Cost(items[1..], more));
    }
  }

  lemma {:induction false} WithoutIsPart<T>(items: seq<T>, i: nat, x: T)
    requires x in Without(items, i)
    ensures x in items
  {
    if i > 0 && x != items[0] { WithoutIsPart(items[1..], i - 1, x); }
  }

  lemma {:induction false} WithoutAt<T>(items: seq<T>, i: nat)
    requires i < |items|
    ensures |Without(items, i)| == |items| - 1
    ensures forall k | 0 <= k < |items| - 1 :: Without(items, i)[k] == items[if k < i then k else k + 1]
  {
    if i > 0 { WithoutAt(items[1..], i - 1); }
  }

  // ------------------------------------------------------------------ runs

  /** A granted job: the day it was charged to, and its calls. */
  datatype Job = Job(day: int, count: nat)

  /** A job and the day it was sent on. */
  datatype Sending = Sending(job: Job, day: int)

  datatype Event =
    | Start(day: int, created: Crash, crash: Crash)   // a new process
    | Reserve(day: int, count: nat, crash: Crash)     // a job is charged and queued, unless a write fails
    | Send(day: int)                                  // the first queued job is sent
    | Drop(i: nat)                                    // a queued job meets its deadline
    | Restore(copy: Option<Ledger>)                   // any database at all; None deletes it

  /** The two files, the jobs that wait to be sent, and every job ever charged and ever sent. */
  datatype World = World(
    db: Option<Ledger>, guard: Option<Mark>, queue: seq<Job>, charges: seq<Job>, sends: seq<Sending>)

  const FRESH := World(None, None, [], [], [])

  function CostOf(j: Job): Charge { Charge(j.count, 1) }

  function Every(): Job -> Charge { j => CostOf(j) }

  function ChargedTo(day: int): Job -> Charge { (j: Job) => if j.day == day then CostOf(j) else NOTHING }

  function ChargedBefore(day: int): Job -> Charge { (j: Job) => if j.day < day then CostOf(j) else NOTHING }

  function SentFor(day: int): Sending -> Charge { (s: Sending) => if s.job.day == day then CostOf(s.job) else NOTHING }

  function SentOn(day: int): Sending -> Charge { (s: Sending) => if s.day == day then CostOf(s.job) else NOTHING }

  function CarriedInto(day: int): Sending -> Charge {
    (s: Sending) => if s.day == day && s.job.day != day then CostOf(s.job) else NOTHING
  }

  /** What was charged to a day. */
  function Charged(w: World, day: int): Charge { Cost(w.charges, ChargedTo(day)) }

  /** What was sent on a day, whatever day it was charged to. */
  function Sent(w: World, day: int): Charge { Cost(w.sends, SentOn(day)) }

  /** Of that, what was charged to another day. */
  function Carried(w: World, day: int): Charge { Cost(w.sends, CarriedInto(day)) }

  /** What of a day's charges was sent, on whatever day, or waits to be sent. */
  function Accounted(w: World, day: int): Charge { Plus(Cost(w.sends, SentFor(day)), Cost(w.queue, ChargedTo(day))) }

  function Reserving(w: World, day: int, count: nat, crash: Crash): World {
    var s := Reserved(w.db, w.guard, day, count, crash);
    var files := w.(db := s.0, guard := s.1);
    if s.2 && count > 0 then files.(queue := w.queue + [Job(day, count)], charges := w.charges + [Job(day, count)])
    else files
  }

  function SendFirst(w: World, day: int): World {
    if w.queue == [] then w else w.(queue := w.queue[1..], sends := w.sends + [Sending(w.queue[0], day)])
  }

  function Step(w: World, e: Event): World {
    match e
    case Start(day, created, crash) =>
      var s := Opened(w.db, w.guard, day, created, crash);
      w.(db := s.0, guard := s.1, queue := [])
    case Reserve(day, count, crash) => Reserving(w, day, count, crash)
    case Send(day) => SendFirst(w, day)
    case Drop(i) => w.(queue := Without(w.queue, i))
    case Restore(copy) => w.(db := copy)
  }

  function Run(w: World, events: seq<Event>): World {
    if events == [] then w else Step(Run(w, events[..|events| - 1]), events[|events| - 1])
  }

  // ------------------------------------------------------------ what a step does to the jobs

  /** Jobs may leave the queue unsent. */
  ghost predicate Loses(w: World, t: World) {
    && t.sends == w.sends && t.charges == w.charges
    && (t.queue == w.queue || t.queue == [] || exists i: nat :: t.queue == Without(w.queue, i))
  }

  ghost predicate Takes(w: World, t: World, job: Job) {
    t.sends == w.sends && t.charges == w.charges + [job] && t.queue == w.queue + [job]
  }

  ghost predicate Sends(w: World, t: World, day: int) {
    && w.queue != [] && t.queue == w.queue[1..] && t.charges == w.charges
    && t.sends == w.sends + [Sending(w.queue[0], day)]
  }

  /** What a step does to the jobs, whatever it does to the files. */
  ghost predicate Moves(w: World, t: World, e: Event) {
    Loses(w, t) || (e.Reserve? && Takes(w, t, Job(e.day, e.count))) || (e.Send? && Sends(w, t, e.day))
  }

  lemma StepMoves(w: World, e: Event)
    ensures Moves(w, Step(w, e), e)
  {
  }

  // ------------------------------------------------------------ what every step keeps

  /** Charges never pass the high-water mark, and none belong to a day past it. */
  ghost predicate Guarded(w: World) {
    && (forall d :: WithinCaps(Charged(w, d)))
    && (w.guard.None? ==> w.charges == [])
    && (w.guard.Some? ==>
          && WithinCaps(w.guard.value.charge)
          && (forall j | j in w.charges :: j.day <= w.guard.value.day)
          && AtMost(Charged(w, w.guard.value.day), w.guard.value.charge))
  }

  /** Nothing is sent or queued that was not charged. */
  ghost predicate Balanced(w: World) { forall d :: AtMost(Accounted(w, d), Charged(w, d)) }

  /** A granted charge covers what was charged to the day before and what is granted now. */
  lemma GrantCovers(w: World, day: int, count: nat)
    requires Guarded(w) && Decide(w.db, w.guard, day, count).Granted?
    ensures var v := Decide(w.db, w.guard, day, count);
      && w.guard.value.day <= day && WithinCaps(v.charge)
      && AtMost(Plus(Charged(w, day), Charge(count, if count > 0 then 1 else 0)), v.charge)
  {
    if w.guard.value.day < day { CostOfNone(w.charges, ChargedTo(day)); }
  }

  lemma ChargeKeepsGuarded(w: World, job: Job, mark: Mark)
    requires Guarded(w) && w.guard.Some? && w.guard.value.day <= mark.day == job.day && WithinCaps(mark.charge)
    requires AtMost(Plus(Charged(w, job.day), CostOf(job)), mark.charge)
    ensures Guarded(w.(charges := w.charges + [job], guard := Some(mark)))
  {
    var charges := w.charges + [job];
    forall d
      ensures WithinCaps(Cost(charges, ChargedTo(d)))
      ensures d == job.day ==> AtMost(Cost(charges, ChargedTo(d)), mark.charge)
    {
      assert WithinCaps(Charged(w, d));
      CostOfOneMore(w.charges, job, ChargedTo(d));
      NothingMore(Charged(w, d));
    }
  }

  lemma SameChargesGuarded(w: World, t: World)
    requires Guarded(w) && t.charges == w.charges && t.guard == w.guard
    ensures Guarded(t)
  {
    assert forall d :: Charged(t, d) == Charged(w, d);
  }

  lemma ReserveKeepsGuarded(w: World, day: int, count: nat, crash: Crash)
    requires Guarded(w)
    ensures Guarded(Reserving(w, day, count, crash))
  {
    var t, v := Reserving(w, day, count, crash), Decide(w.db, w.guard, day, count);
    if v.Granted? && crash == Never {
      GrantCovers(w, day, count);
      if count > 0 {
        ChargeKeepsGuarded(w, Job(day, count), Mark(day, v.charge));
        SameChargesGuarded(w.(charges := t.charges, guard := t.guard), t);
      } else {
        MarkKeepsGuarded(w, Mark(day, v.charge));
        SameChargesGuarded(w.(guard := t.guard), t);
      }
    } else {
      SameChargesGuarded(w, t);
    }
  }

  lemma MarkKeepsGuarded(w: World, mark: Mark)
    requires Guarded(w) && w.guard.Some? && w.guard.value.day <= mark.day && WithinCaps(mark.charge)
    requires AtMost(Charged(w, mark.day), mark.charge)
    ensures Guarded(w.(guard := Some(mark)))
  {
    SameChargesGuarded(w, w);
    assert forall d :: Charged(w.(guard := Some(mark)), d) == Charged(w, d);
  }

  lemma OpenKeepsGuarded(w: World, day: int, created: Crash, crash: Crash)
    requires Guarded(w)
    ensures Guarded(Step(w, Start(day, created, crash)))
  {
    var t := Step(w, Start(day, created, crash));
    if t.guard == w.guard {
      SameChargesGuarded(w, t);
    } else if w.guard.Some? {
      var v := Decide(w.db, w.guard, day, 0);
      GrantCovers(w, day, 0);
      NothingMore(Charged(w, day));
      MarkKeepsGuarded(w, Mark(day, v.charge));
      SameChargesGuarded(w.(guard := t.guard), t);
    } else {
      assert w.charges == [];
      assert forall d :: Charged(t, d) == NOTHING;
    }
  }

  lemma StepKeepsGuarded(w: World, e: Event)
    requires Guarded(w)
    ensures Guarded(Step(w, e))
  {
    match e
    case Start(day, created, crash) => OpenKeepsGuarded(w, day, created, crash);
    case Reserve(day, count, crash) => ReserveKeepsGuarded(w, day, count, crash);
    case Send(_) => SameChargesGuarded(w, Step(w, e));
    case Drop(_) => SameChargesGuarded(w, Step(w, e));
    case Restore(_) => SameChargesGuarded(w, Step(w, e));
  }

  lemma SendingKeepsBalance(w: World, t: World, day: int, d: int)
    requires Sends(w, t, day)
    ensures Accounted(t, d) == Accounted(w, d)
  {
    CostOfOneMore(w.sends, Sending(w.queue[0], day), SentFor(d));
    PlusAssociates(Cost(w.sends, SentFor(d)), ChargedTo(d)(w.queue[0]), Cost(w.queue[1..], ChargedTo(d)));
  }

  lemma TakingKeepsBalance(w: World, t: World, job: Job, d: int)
    requires AtMost(Accounted(w, d), Charged(w, d)) && Takes(w, t, job)
    ensures AtMost(Accounted(t, d), Charged(t, d))
  {
    CostOfOneMore(w.queue, job, ChargedTo(d));
    CostOfOneMore(w.charges, job, ChargedTo(d));
    PlusAssociates(Cost(w.sends, SentFor(d)), Cost(w.queue, ChargedTo(d)), ChargedTo(d)(job));
  }

  lemma SentForIsCost(d: int)
    ensures IsCost(SentFor(d)) && IsCost(SentOn(d)) && IsCost(CarriedInto(d))
    ensures IsCost(ChargedTo(d)) && IsCost(ChargedBefore(d)) && IsCost(Every())
  {
  }

  lemma LosingLeavesLess(w: World, t: World, cost: Job -> Charge)
    requires Loses(w, t) && IsCost(cost)
    ensures AtMost(Cost(t.queue, cost), Cost(w.queue, cost))
  {
    if t.queue == [] {
      CostIsNatural(w.queue, cost);
    } else if t.queue != w.queue {
      var i: nat :| t.queue == Without(w.queue, i);
      CostWithout(w.queue, i, cost);
    }
  }

  lemma LosingKeepsBalance(w: World, t: World, d: int)
    requires Loses(w, t)
    ensures AtMost(Accounted(t, d), Accounted(w, d)) && Charged(t, d) == Charged(w, d)
  {
    SentForIsCost(d);
    LosingLeavesLess(w, t, ChargedTo(d));
    var sent := Cost(w.sends, SentFor(d));
    PlusGrows(sent, sent, Cost(t.queue, ChargedTo(d)), Cost(w.queue, ChargedTo(d)));
  }

  lemma MoveKeepsBalance(w: World, t: World, e: Event, d: int)
    requires AtMost(Accounted(w, d), Charged(w, d)) && Moves(w, t, e)
    ensures AtMost(Accounted(t, d), Charged(t, d))
  {
    if Loses(w, t) {
      LosingKeepsBalance(w, t, d);
      AtMostAll(Accounted(t, d), Accounted(w, d), Charged(w, d));
    } else if e.Reserve? {
      TakingKeepsBalance(w, t, Job(e.day, e.count), d);
    } else {
      SendingKeepsBalance(w, t, e.day, d);
    }
  }

  /** In every run charges stay under the high-water mark, and what is sent or queued was charged. */
  lemma {:induction false} RunKeepsGuarded(events: seq<Event>)
    ensures Guarded(Run(FRESH, events)) && Balanced(Run(FRESH, events))
  {
    if events != [] {
      var w, e := Run(FRESH, events[..|events| - 1]), events[|events| - 1];
      RunKeepsGuarded(events[..|events| - 1]);
      StepKeepsGuarded(w, e);
      StepMoves(w, e);
      forall d
        ensures AtMost(Accounted(Step(w, e), d), Charged(Step(w, e), d))
      {
        MoveKeepsBalance(w, Step(w, e), e, d);
      }
    }
  }

  /**
   * To no day, in no run, whatever databases are put in place, are more than 80,000 calls or
   * 40,000 requests charged; and of what is charged to a day no more than that is ever sent.
   */
  lemma DailyCap(events: seq<Event>, day: int)
    ensures var w := Run(FRESH, events);
      && AtMost(Charged(w, day), Charge(80_000, 40_000))
      && AtMost(Cost(w.sends, SentFor(day)), Charged(w, day)) && AtMost(Accounted(w, day), Charged(w, day))
  {
    RunKeepsGuarded(events);
    SentForIsCost(day);
    CostIsNatural(Run(FRESH, events).queue, ChargedTo(day));
  }

  /** Whenever a charge is granted: what was sent or waits <= charged <= high-water mark <= latest row <= cap. */
  lemma GrantOrder(events: seq<Event>, day: int, count: nat)
    requires Decide(Run(FRESH, events).db, Run(FRESH, events).guard, day, count).Granted?
    ensures var w := Run(FRESH, events);
      var v := Decide(w.db, w.guard, day, count);
      var mark, last := w.guard.value, LatestDay(w.db.value);
      && AtMost(Accounted(w, mark.day), Charged(w, mark.day)) && AtMost(Charged(w, mark.day), mark.charge)
      && mark.day <= last <= day
      && (mark.day == last ==> AtMost(mark.charge, w.db.value[last]))
      && AtMost(Plus(Charged(w, day), Charge(count, if count > 0 then 1 else 0)), v.charge) && WithinCaps(v.charge)
  {
    RunKeepsGuarded(events);
    GrantCovers(Run(FRESH, events), day, count);
  }

  // ------------------------------------------------------------ what is sent on a day

  /** The day an event reads on the clock, if it reads it. */
  function Reading(e: Event): Option<int> {
    match e
    case Start(day, _, _) => Some(day)
    case Reserve(day, _, _) => Some(day)
    case Send(day) => Some(day)
    case Drop(_) => None
    case Restore(_) => None
  }

  /** Every reading of the clock is before the day. */
  predicate AllBefore(events: seq<Event>, day: int) {
    forall e | e in events && Reading(e).Some? :: Reading(e).value < day
  }

  predicate AllUpTo(events: seq<Event>, clock: int) {
    forall e | e in events && Reading(e).Some? :: Reading(e).value <= clock
  }

  /** The readings of the clock do not go back. */
  predicate InOrder(events: seq<Event>) {
    events == []
    || (InOrder(events[..|events| - 1])
        && (Reading(events[|events| - 1]).Some? ==> AllUpTo(events[..|events| - 1],
          Reading(events[|events| - 1]).value)))
  }

  /** Readings in order, none of them before the day. */
  predicate AllFrom(events: seq<Event>, day: int) {
    InOrder(events) && forall e | e in events && Reading(e).Some? :: day <= Reading(e).value
  }

  lemma {:induction false} CostOfSum<T(!new)>(items: seq<T>, whole: T -> Charge, a: T -> Charge, b: T -> Charge)
    requires forall x :: AtMost(whole(x), Plus(a(x), b(x)))
    ensures AtMost(Cost(items, whole), Plus(Cost(items, a), Cost(items, b)))
  {
    if items != [] { CostOfSum(items[1..], whole, a, b); }
  }

  lemma SentIsHomeAndCarried(sends: seq<Sending>, day: int)
    ensures AtMost(Cost(sends, SentOn(day)), Plus(Cost(sends, SentFor(day)), Cost(sends, CarriedInto(day))))
  {
    forall s ensures AtMost(SentOn(day)(s), Plus(SentFor(day)(s), CarriedInto(day)(s))) { }
    CostOfSum(sends, SentOn(day), SentFor(day), CarriedInto(day));
  }

  lemma Capped(sent: Charge, own: Charge, carried: Charge, charged: Charge, cap: Charge)
    requires AtMost(sent, Plus(own, carried)) && AtMost(own, charged) && AtMost(charged, cap)
    ensures AtMost(sent, Plus(cap, carried))
  {
  }

  /** In every run, what is sent on a day is at most the cap and what was charged to other days. */
  lemma SentOnADay(events: seq<Event>, day: int)
    ensures var w := Run(FRESH, events);
      AtMost(Sent(w, day), Plus(Charge(80_000, 40_000), Carried(w, day)))
  {
    var w := Run(FRESH, events);
    DailyCap(events, day);
    SentIsHomeAndCarried(w.sends, day);
    Capped(Sent(w, day), Cost(w.sends, SentFor(day)), Carried(w, day), Charged(w, day), Charge(80_000, 40_000));
  }

  /** Before the clock reads a day nothing is charged to it or sent on it. */
  ghost predicate NotYet(w: World, day: int) {
    (forall s | s in w.sends :: s.day < day) && (forall j | j in w.queue :: j.day < day)
  }

  lemma StepIsNotYet(w: World, e: Event, day: int)
    requires NotYet(w, day) && (Reading(e).Some? ==> Reading(e).value < day)
    ensures NotYet(Step(w, e), day)
  {
    if e.Drop? {
      forall j | j in Without(w.queue, e.i) ensures j in w.queue { WithoutIsPart(w.queue, e.i, j); }
    }
  }

  lemma {:induction false} RunIsNotYet(events: seq<Event>, day: int)
    requires AllBefore(events, day)
    ensures NotYet(Run(FRESH, events), day)
  {
    if events != [] {
      var init, e := events[..|events| - 1], events[|events| - 1];
      assert e in events && forall x | x in init :: x in events;
      RunIsNotYet(init, day);
      StepIsNotYet(Run(FRESH, init), e, day);
    }
  }

  /** Nothing queued is charged to a day the clock has not read. */
  ghost predicate QueueInPast(w: World, clock: int) { forall j | j in w.queue :: j.day <= clock }

  lemma StepKeepsQueueInPast(w: World, e: Event, clock: int)
    requires QueueInPast(w, clock) && (Reading(e).Some? ==> Reading(e).value <= clock)
    ensures QueueInPast(Step(w, e), clock)
  {
    if e.Drop? {
      forall j | j in Without(w.queue, e.i) ensures j in w.queue { WithoutIsPart(w.queue, e.i, j); }
    }
  }

  /** What was carried into the day, and what earlier days still have queued, was queued when the day began. */
  ghost predicate CarriedOnlyFrom(w: World, day: int, queued: Charge) {
    AtMost(Plus(Carried(w, day), Cost(w.queue, ChargedBefore(day))), queued)
  }

  lemma SendingCarriesOnly(w: World, t: World, d: int, day: int, queued: Charge)
    requires CarriedOnlyFrom(w, day, queued) && day <= d && QueueInPast(w, d) && Sends(w, t, d)
    ensures CarriedOnlyFrom(t, day, queued)
  {
    var job, rest := w.queue[0], Cost(w.queue[1..], ChargedBefore(day));
    CostOfOneMore(w.sends, Sending(job, d), CarriedInto(day));
    assert job in w.queue;
    PlusAssociates(Carried(w, day), CarriedInto(day)(Sending(job, d)), rest);
    PlusGrows(CarriedInto(day)(Sending(job, d)), ChargedBefore(day)(job), rest, rest);
    PlusGrows(Carried(w, day), Carried(w, day), Plus(CarriedInto(day)(Sending(job, d)), rest),
              Cost(w.queue, ChargedBefore(day)));
  }

  lemma AddingNothing(a: Charge, b: Charge, nothing: Charge, c: Charge)
    requires nothing == NOTHING && AtMost(Plus(a, b), c)
    ensures AtMost(Plus(a, Plus(b, nothing)), c)
  {
  }

  lemma TakingCarriesOnly(w: World, t: World, job: Job, day: int, queued: Charge)
    requires CarriedOnlyFrom(w, day, queued) && day <= job.day && Takes(w, t, job)
    ensures CarriedOnlyFrom(t, day, queued)
  {
    CostOfOneMore(w.queue, job, ChargedBefore(day));
    AddingNothing(Carried(w, day), Cost(w.queue, ChargedBefore(day)), ChargedBefore(day)(job), queued);
  }

  lemma LosingCarriesOnly(w: World, t: World, day: int, queued: Charge)
    requires CarriedOnlyFrom(w, day, queued) && Loses(w, t)
    ensures CarriedOnlyFrom(t, day, queued)
  {
    SentForIsCost(day);
    LosingLeavesLess(w, t, ChargedBefore(day));
    PlusGrows(Carried(w, day), Carried(w, day), Cost(t.queue, ChargedBefore(day)), Cost(w.queue, ChargedBefore(day)));
    AtMostAll(Plus(Carried(t, day), Cost(t.queue, ChargedBefore(day))),
              Plus(Carried(w, day), Cost(w.queue, ChargedBefore(day))), queued);
  }

  lemma MoveCarriesOnly(w: World, t: World, e: Event, day: int, queued: Charge)
    requires CarriedOnlyFrom(w, day, queued) && Moves(w, t, e)
    requires Reading(e).Some? ==> day <= Reading(e).value && QueueInPast(w, Reading(e).value)
    ensures CarriedOnlyFrom(t, day, queued)
  {
    if Loses(w, t) {
      LosingCarriesOnly(w, t, day, queued);
    } else if e.Reserve? {
      TakingCarriesOnly(w, t, Job(e.day, e.count), day, queued);
    } else {
      SendingCarriesOnly(w, t, e.day, day, queued);
    }
  }

  lemma NothingCarriedYet(w: World, day: int)
    requires NotYet(w, day)
    ensures CarriedOnlyFrom(w, day, Cost(w.queue, Every()))
  {
    NothingCarried(w.sends, day);
    NothingMore(Cost(w.queue, ChargedBefore(day)));
    BeforeIsPart(w.queue, day);
  }

  lemma NothingCarried(sends: seq<Sending>, day: int)
    requires forall s | s in sends :: s.day < day
    ensures Cost(sends, CarriedInto(day)) == NOTHING && Cost(sends, SentOn(day)) == NOTHING
  {
    forall s | s in sends ensures CarriedInto(day)(s) == NOTHING && SentOn(day)(s) == NOTHING {
      assert s.day < day;
    }
    CostOfNone(sends, CarriedInto(day));
    CostOfNone(sends, SentOn(day));
  }

  lemma BeforeIsPart(jobs: seq<Job>, day: int)
    ensures AtMost(Cost(jobs, ChargedBefore(day)), Cost(jobs, Every()))
  {
    forall j ensures AtMost(ChargedBefore(day)(j), Every()(j)) { }
    CostOfMore(jobs, ChargedBefore(day), Every());
  }

  lemma {:induction false} RunCarriesOnly(w: World, events: seq<Event>, day: int, clock: int)
    requires NotYet(w, day) && AllFrom(events, day) && day <= clock && AllUpTo(events, clock)
    ensures CarriedOnlyFrom(Run(w, events), day, Cost(w.queue, Every())) && QueueInPast(Run(w, events), clock)
    decreases |events|
  {
    if events == [] {
      NothingCarriedYet(w, day);
    } else {
      var init, e := events[..|events| - 1], events[|events| - 1];
      assert e in events && forall x | x in init :: x in events;
      RunCarriesOnly(w, init, day, clock);
      StepKeepsQueueInPast(Run(w, init), e, clock);
      if Reading(e).Some? { RunCarriesOnly(w, init, day, Reading(e).value); }
      StepMoves(Run(w, init), e);
      MoveCarriesOnly(Run(w, init), Run(w, events), e, day, Cost(w.queue, Every()));
    }
  }

  lemma {:induction false} RunOn(w: World, events: seq<Event>, more: seq<Event>)
    ensures Run(w, events + more) == Run(Run(w, events), more)
  {
    if more == [] {
      assert events + more == events;
    } else {
      RunOn(w, events, more[..|more| - 1]);
      assert (events + more)[..|events + more| - 1] == events + more[..|more| - 1];
    }
  }

  /**
   * While the clock does not go back, what is sent on a day is at most the cap and what earlier
   * days left in the queue when the day began.
   */
  lemma SentIsCapAndQueue(events: seq<Event>, more: seq<Event>, day: int)
    requires AllBefore(events, day) && AllFrom(more, day)
    ensures AtMost(Sent(Run(FRESH, events + more), day),
                   Plus(Charge(80_000, 40_000), Cost(Run(FRESH, events).queue, Every())))
  {
    var clock := LastReading(more, day);
    RunIsNotYet(events, day);
    RunCarriesOnly(Run(FRESH, events), more, day, clock);
    RunOn(FRESH, events, more);
    SentOnADay(events + more, day);
    SentForIsCost(day);
    CostIsNatural(Run(FRESH, events + more).queue, ChargedBefore(day));
  }

  lemma {:induction false} LastReading(events: seq<Event>, day: int) returns (clock: int)
    ensures day <= clock && AllUpTo(events, clock)
  {
    clock := day;
    if events != [] {
      var init, e := events[..|events| - 1], events[|events| - 1];
      clock := LastReading(init, day);
      if Reading(e).Some? && Reading(e).value > clock { clock := Reading(e).value; }
      assert forall x | x in events :: x in init || x == e;
    }
  }

  // ------------------------------------------------------------ and no less

  lemma RunMore(w: World, events: seq<Event>, e: Event)
    ensures Run(w, events + [e]) == Step(Run(w, events), e)
  {
    assert (events + [e])[..|events|] == events;
  }

  /** On one day: `n` queued jobs are sent, and then `k` new jobs of two calls each. */
  function BusyDay(day: int, n: nat, k: nat): seq<Event> {
    if k > 0 then BusyDay(day, n, k - 1) + [Reserve(day, 2, Never)] + [Send(day)]
    else if n > 0 then BusyDay(day, n - 1, 0) + [Send(day)]
    else []
  }

  predicate AllOn(events: seq<Event>, day: int) {
    forall e | e in events && Reading(e).Some? :: Reading(e).value == day
  }

  lemma {:induction false} OneDayIsInOrder(events: seq<Event>, day: int)
    requires AllOn(events, day)
    ensures AllFrom(events, day)
  {
    if events != [] {
      var init, e := events[..|events| - 1], events[|events| - 1];
      assert e in events && forall x | x in init :: x in events;
      OneDayIsInOrder(init, day);
    }
  }

  lemma {:induction false} BusyDayIsOneDay(day: int, n: nat, k: nat)
    ensures AllOn(BusyDay(day, n, k), day)
  {
    if k > 0 {
      BusyDayIsOneDay(day, n, k - 1);
    } else if n > 0 {
      BusyDayIsOneDay(day, n - 1, 0);
    }
  }

  /** Sending moves a job's cost from the queue to the day. */
  lemma SendingCosts(w: World, day: int)
    requires w.queue != []
    ensures var t := Step(w, Send(day));
      && t.db == w.db && t.guard == w.guard && t.queue == w.queue[1..]
      && Plus(Sent(t, day), Cost(t.queue, Every())) == Plus(Sent(w, day), Cost(w.queue, Every()))
  {
    CostOfOneMore(w.sends, Sending(w.queue[0], day), SentOn(day));
    PlusAssociates(Sent(w, day), CostOf(w.queue[0]), Cost(w.queue[1..], Every()));
  }

  lemma {:induction false} QueueIsSent(w: World, day: int, n: nat)
    requires n <= |w.queue|
    ensures var t := Run(w, BusyDay(day, n, 0));
      && t.db == w.db && t.guard == w.guard && t.queue == w.queue[n..]
      && Plus(Sent(t, day), Cost(t.queue, Every())) == Plus(Sent(w, day), Cost(w.queue, Every()))
  {
    if n > 0 {
      QueueIsSent(w, day, n - 1);
      var t := Run(w, BusyDay(day, n - 1, 0));
      RunMore(w, BusyDay(day, n - 1, 0), Send(day));
      SendingCosts(t, day);
    }
  }

  /** The service may charge the day from `c` on. */
  predicate StandsAt(w: World, day: int, c: Charge) { Decide(w.db, w.guard, day, 0) == Granted(c) }

  lemma GrantMoves(w: World, day: int, c: Charge)
    requires StandsAt(w, day, c) && c.used + 2 <= 80_000 && c.requests < 40_000
    ensures var t := Step(w, Reserve(day, 2, Never));
      && StandsAt(t, day, Charge(c.used + 2, c.requests + 1))
      && t.queue == w.queue + [Job(day, 2)] && t.sends == w.sends
  {
    var next := Charge(c.used + 2, c.requests + 1);
    assert Decide(w.db, w.guard, day, 2) == Granted(next);
    var db := w.db.value[day := next];
    assert day in db && forall d | d in db :: d <= day;
    assert LatestDay(db) == day;
  }

  lemma OneMoreJob(w: World, day: int, c: Charge)
    requires StandsAt(w, day, c) && c.used + 2 <= 80_000 && c.requests < 40_000 && w.queue == []
    ensures var t := Step(Step(w, Reserve(day, 2, Never)), Send(day));
      && StandsAt(t, day, Charge(c.used + 2, c.requests + 1)) && t.queue == []
      && Sent(t, day) == Plus(Sent(w, day), Charge(2, 1))
  {
    GrantMoves(w, day, c);
    CostOfOneMore(w.sends, Sending(Job(day, 2), day), SentOn(day));
  }

  lemma RunsOneMoreJob(w: World, events: seq<Event>, day: int, c: Charge)
    requires StandsAt(Run(w, events), day, c) && Run(w, events).queue == []
    requires c.used + 2 <= 80_000 && c.requests < 40_000
    ensures var t := Run(w, events + [Reserve(day, 2, Never)] + [Send(day)]);
      && StandsAt(t, day, Charge(c.used + 2, c.requests + 1)) && t.queue == []
      && Sent(t, day) == Plus(Sent(Run(w, events), day), Charge(2, 1))
  {
    RunMore(w, events, Reserve(day, 2, Never));
    RunMore(w, events + [Reserve(day, 2, Never)], Send(day));
    OneMoreJob(Run(w, events), day, c);
  }

  lemma {:induction false} BudgetIsSpent(w: World, day: int, n: nat, k: nat)
    requires Run(w, BusyDay(day, n, 0)).queue == [] && StandsAt(Run(w, BusyDay(day, n, 0)), day, NOTHING) && k <= 40_000
    ensures var t := Run(w, BusyDay(day, n, k));
      && StandsAt(t, day, Charge(2 * k, k)) && t.queue == []
      && Sent(t, day).used == Sent(Run(w, BusyDay(day, n, 0)), day).used + 2 * k
      && Sent(t, day).requests == Sent(Run(w, BusyDay(day, n, 0)), day).requests + k
  {
    if k > 0 {
      BudgetIsSpent(w, day, n, k - 1);
      RunsOneMoreJob(w, BusyDay(day, n, k - 1), day, Charge(2 * (k - 1), k - 1));
    }
  }

  /** A whole budget is sent on a day on top of all that was queued when it began. */
  lemma QueueAndBudgetAreSent(w: World, day: int) returns (more: seq<Event>)
    requires NotYet(w, day) && StandsAt(w, day, NOTHING)
    ensures AllFrom(more, day)
    ensures Sent(Run(w, more), day) == Plus(Cost(w.queue, Every()), Charge(80_000, 40_000))
  {
    more := BusyDay(day, |w.queue|, 40_000);
    BusyDayIsOneDay(day, |w.queue|, 40_000);
    OneDayIsInOrder(more, day);
    QueueIsSent(w, day, |w.queue|);
    BudgetIsSpent(w, day, |w.queue|, 40_000);
    NothingCarried(w.sends, day);
    var t := Run(w, BusyDay(day, |w.queue|, 0));
    assert Cost(t.queue, Every()) == NOTHING == Sent(w, day);
  }

  lemma {:induction false} QueueCosts(queue: seq<Job>)
    ensures Cost(queue, Every()).requests == |queue|
  {
    if queue != [] { QueueCosts(queue[1..]); }
  }

  /**
   * When a day begins on which the service can charge, no run from there on in which the clock
   * does not go back sends more than the caps on that day, if and only if no job is queued.
   */
  lemma CapOfADayExactly(events: seq<Event>, day: int)
    requires AllBefore(events, day) && StandsAt(Run(FRESH, events), day, NOTHING)
    ensures (forall more | AllFrom(more, day) ::
               AtMost(Sent(Run(Run(FRESH, events), more), day), Charge(80_000, 40_000))) <==>
      Run(FRESH, events).queue == []
  {
    var w := Run(FRESH, events);
    if w.queue == [] {
      forall more | AllFrom(more, day) ensures AtMost(Sent(Run(w, more), day), Charge(80_000, 40_000)) {
        SentIsCapAndQueue(events, more, day);
        RunOn(FRESH, events, more);
      }
    } else {
      RunIsNotYet(events, day);
      var more := QueueAndBudgetAreSent(w, day);
      QueueCosts(w.queue);
      assert !AtMost(Sent(Run(w, more), day), Charge(80_000, 40_000));
    }
  }

  lemma OneQueuedOverMidnight()
    ensures var w := Run(FRESH, [Start(0, Never, Never), Reserve(0, 32, Never)]);
      w.queue == [Job(0, 32)] && StandsAt(w, 1, NOTHING)
  {
    var start, reserve := Start(0, Never, Never), Reserve(0, 32, Never);
    var none: seq<Event> := [];
    RunMore(FRESH, none, start);
    RunMore(FRESH, none + [start], reserve);
    assert none + [start] + [reserve] == [start, reserve];
    var db: Ledger := map[0 := NOTHING];
    assert LatestDay(db) == 0 && db[0 := NOTHING] == db;
    assert LatestDay(db[0 := Charge(32, 1)]) == 0;
  }

  /** A job of 32 calls charged just before midnight and sent after it: 80,032 calls on one day. */
  lemma LateJobPassesTheCap() returns (more: seq<Event>)
    ensures AllFrom(more, 1)
    ensures Sent(Run(FRESH, [Start(0, Never, Never), Reserve(0, 32, Never)] + more), 1) == Charge(80_032, 40_001)
  {
    var events := [Start(0, Never, Never), Reserve(0, 32, Never)];
    OneQueuedOverMidnight();
    RunIsNotYet(events, 1);
    more := QueueAndBudgetAreSent(Run(FRESH, events), 1);
    RunOn(FRESH, events, more);
    CostOfFirst(Job(0, 32), [], Every());
    assert [Job(0, 32)] + [] == [Job(0, 32)];
  }

  // ------------------------------------------------------------ nothing is charged for nothing

  /** Steps in which no write fails and no job expires, and nobody touches the files. */
  predicate Quiet(e: Event) { (e.Reserve? && e.crash == Never) || e.Send? }

  /** The mark, the latest row and the charges of the marked day are the same. */
  ghost predicate FilesExact(w: World) {
    && w.guard.Some? && w.guard.value.day >= 0 && WithinCaps(w.guard.value.charge)
    && w.db.Some? && |w.db.value| > 0
    && LatestDay(w.db.value) == w.guard.value.day
    && w.db.value[w.guard.value.day] == w.guard.value.charge == Charged(w, w.guard.value.day)
    && (forall j | j in w.charges :: j.day <= w.guard.value.day)
  }

  lemma FirstStart(day: int)
    requires day >= 0
    ensures var w := Step(FRESH, Start(day, Never, Never));
      FilesExact(w) && w.queue == [] && w.sends == [] && w.charges == []
  {
    var db: Ledger := map[day := NOTHING];
    assert LatestDay(db) == day;
    assert db[day := NOTHING] == db;
  }

  /** All that was charged to a day was sent or waits to be sent. */
  ghost predicate InBalance(w: World, d: int) {
    AtMost(Accounted(w, d), Charged(w, d)) && AtMost(Charged(w, d), Accounted(w, d))
  }

  lemma NoJobsAreExact(w: World, d: int)
    requires w.queue == [] && w.sends == [] && w.charges == []
    ensures InBalance(w, d)
  {
    assert Plus(NOTHING, NOTHING) == NOTHING;
  }

  lemma StartIsExact(start: int, day: int)
    requires start >= 0
    ensures var w := Step(FRESH, Start(start, Never, Never));
      FilesExact(w) && InBalance(w, day)
  {
    FirstStart(start);
    NoJobsAreExact(Step(FRESH, Start(start, Never, Never)), day);
  }

  lemma TakingIsExact(w: World, t: World, job: Job, d: int)
    requires InBalance(w, d) && Takes(w, t, job)
    ensures InBalance(t, d)
  {
    CostOfOneMore(w.queue, job, ChargedTo(d));
    CostOfOneMore(w.charges, job, ChargedTo(d));
    PlusAssociates(Cost(w.sends, SentFor(d)), Cost(w.queue, ChargedTo(d)), ChargedTo(d)(job));
  }

  /** Nothing leaves the queue unsent. */
  ghost predicate MovesQuietly(w: World, t: World, e: Event) {
    || (t.queue == w.queue && t.sends == w.sends && t.charges == w.charges)
    || (e.Reserve? && Takes(w, t, Job(e.day, e.count)))
    || (e.Send? && Sends(w, t, e.day))
  }

  lemma QuietStepMoves(w: World, e: Event)
    requires Quiet(e)
    ensures MovesQuietly(w, Step(w, e), e)
  {
  }

  lemma QuietMoveIsExact(w: World, t: World, e: Event, d: int)
    requires InBalance(w, d) && MovesQuietly(w, t, e)
    ensures InBalance(t, d)
  {
    if e.Reserve? && Takes(w, t, Job(e.day, e.count)) {
      TakingIsExact(w, t, Job(e.day, e.count), d);
    } else if e.Send? && Sends(w, t, e.day) {
      SendingKeepsBalance(w, t, e.day, d);
    }
  }

  lemma GrantIsExact(w: World, day: int, count: nat)
    requires FilesExact(w) && Decide(w.db, w.guard, day, count).Granted?
    ensures var v := Decide(w.db, w.guard, day, count);
      && v.charge == Charge(Charged(w, day).used + count, Charged(w, day).requests + if count > 0 then 1 else 0)
      && WithinCaps(v.charge) && day >= w.guard.value.day
      && LatestDay(w.db.value[day := v.charge]) == day
  {
    var v := Decide(w.db, w.guard, day, count);
    var db := w.db.value[day := v.charge];
    assert day in db && forall d | d in db :: d <= day;
    if day > w.guard.value.day { CostOfNone(w.charges, ChargedTo(day)); }
  }

  lemma ReserveIsExact(w: World, day: int, count: nat)
    requires FilesExact(w)
    ensures FilesExact(Step(w, Reserve(day, count, Never)))
  {
    if Decide(w.db, w.guard, day, count).Granted? {
      GrantIsExact(w, day, count);
      if count > 0 { CostOfOneMore(w.charges, Job(day, count), ChargedTo(day)); }
    }
  }

  lemma QuietStepKeepsFiles(w: World, e: Event)
    requires FilesExact(w) && Quiet(e)
    ensures FilesExact(Step(w, e))
  {
    if e.Reserve? { ReserveIsExact(w, e.day, e.count); }
  }

  lemma QuietStepIsExact(w: World, e: Event, d: int)
    requires FilesExact(w) && InBalance(w, d) && Quiet(e)
    ensures FilesExact(Step(w, e)) && InBalance(Step(w, e), d)
  {
    QuietStepKeepsFiles(w, e);
    QuietStepMoves(w, e);
    QuietMoveIsExact(w, Step(w, e), e, d);
  }

  /** A process that started on no files, and a quiet run of it. */
  ghost predicate QuietRun(events: seq<Event>) {
    && events != [] && events[0].Start? && events[0].day >= 0
    && events[0].created == Never && events[0].crash == Never
    && forall i | 1 <= i < |events| :: Quiet(events[i])
  }

  lemma RunOfStart(start: int, d: int)
    requires start >= 0
    ensures var w := Run(FRESH, [Start(start, Never, Never)]); FilesExact(w) && InBalance(w, d)
  {
    var none: seq<Event> := [];
    RunMore(FRESH, none, Start(start, Never, Never));
    assert none + [Start(start, Never, Never)] == [Start(start, Never, Never)];
    StartIsExact(start, d);
  }

  lemma {:induction false} QuietRunIsExact(events: seq<Event>, d: int)
    requires QuietRun(events)
    ensures FilesExact(Run(FRESH, events)) && InBalance(Run(FRESH, events), d)
  {
    if |events| == 1 {
      assert events == [Start(events[0].day, Never, Never)];
      RunOfStart(events[0].day, d);
    } else {
      var init, e := events[..|events| - 1], events[|events| - 1];
      assert QuietRun(init);
      QuietRunIsExact(init, d);
      QuietStepIsExact(Run(FRESH, init), e, d);
    }
  }

  /** With files that agree, the decision is about the clock and the caps. */
  lemma DecidedExactly(db: Ledger, mark: Mark, day: int, count: nat)
    requires mark.day >= 0 && WithinCaps(mark.charge) && count > 0
    requires |db| > 0 && LatestDay(db) == mark.day && db[mark.day] == mark.charge
    ensures var spent := if day == mark.day then mark.charge else NOTHING;
      Decide(Some(db), Some(mark), day, count).Granted? <==>
        day >= mark.day && spent.used + count <= 80_000 && spent.requests + 1 <= 40_000
  {
  }

  lemma RowIsCharged(w: World, day: int)
    requires FilesExact(w) && day >= w.guard.value.day
    ensures Charged(w, day) == if day == w.guard.value.day then w.guard.value.charge else NOTHING
  {
    if day > w.guard.value.day { CostOfNone(w.charges, ChargedTo(day)); }
  }

  lemma GrantedExactly(w: World, day: int, count: nat)
    requires FilesExact(w) && count > 0
    ensures Decide(w.db, w.guard, day, count).Granted? <==>
      day >= w.guard.value.day && Charged(w, day).used + count <= 80_000 && Charged(w, day).requests + 1 <= 40_000
  {
    DecidedExactly(w.db.value, w.guard.value, day, count);
    if day >= w.guard.value.day { RowIsCharged(w, day); }
  }

  /**
   * In such a run nothing is lost: every charge was sent or waits in the queue, and a job is
   * granted exactly when the clock has not moved back and what was charged to the day leaves
   * room for it under both caps.
   */
  lemma WholeBudgetUsable(events: seq<Event>, day: int, count: nat)
    requires QuietRun(events) && count > 0
    ensures var w := Run(FRESH, events);
      && w.guard.Some? && InBalance(w, day)
      && (Decide(w.db, w.guard, day, count).Granted? <==>
            && day >= w.guard.value.day
            && Charged(w, day).used + count <= 80_000
            && Charged(w, day).requests + 1 <= 40_000)
  {
    QuietRunIsExact(events, day);
    GrantedExactly(Run(FRESH, events), day, count);
  }

  /** The latest row is behind the high-water mark. */
  predicate Rewinds(db: Option<Ledger>, mark: Mark) {
    db.Some? && |db.value| > 0 ==>
      var last := LatestDay(db.value);
      last < mark.day || (last == mark.day && !AtMost(mark.charge, db.value[last]))
  }

  /**
   * A database put back behind the high-water mark stops the service for good: until it is
   * replaced again nothing is charged, and all that is still sent was charged before.
   */
  lemma {:induction false} RewoundStaysShut(w: World, events: seq<Event>, day: int)
    requires w.guard.Some? && Rewinds(w.db, w.guard.value)
    requires forall e | e in events :: !e.Restore?
    ensures var t := Run(w, events);
      && t.db == w.db && t.guard == w.guard && t.charges == w.charges
      && AtMost(Accounted(t, day), Accounted(w, day))
  {
    if events != [] {
      var init, e := events[..|events| - 1], events[|events| - 1];
      assert e in events && forall x | x in init :: x in events;
      RewoundStaysShut(w, init, day);
      RewoundStep(Run(w, init), e, day);
      AtMostAll(Accounted(Run(w, events), day), Accounted(Run(w, init), day), Accounted(w, day));
    }
  }

  lemma RewoundStep(w: World, e: Event, day: int)
    requires w.guard.Some? && Rewinds(w.db, w.guard.value) && !e.Restore?
    ensures var t := Step(w, e);
      && t.db == w.db && t.guard == w.guard && t.charges == w.charges
      && AtMost(Accounted(t, day), Accounted(w, day))
  {
    StepMoves(w, e);
    var t := Step(w, e);
    assert t.db == w.db && t.guard == w.guard && t.charges == w.charges;
    if Loses(w, t) {
      LosingKeepsBalance(w, t, day);
    } else {
      SendingKeepsBalance(w, t, e.day, day);
    }
  }
}
