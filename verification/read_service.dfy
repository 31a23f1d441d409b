/**
 * src/routes/midnight-read-rpc.ts, lines 74-245, put together: admitted requests read, reads
 * share jobs, a job is charged the calls it asks for and waits its turn to be sent, a
 * reservation may fail between its two writes, and the process may die and start again. What
 * waits to be sent is bounded by what is admitted.
 */
module ReadService {
  import opened Common
  import opened ReadCalls
  import opened ReadFlight
  import Admission
  import Quota = ReadQuota
  import Q = QuotaRuns
  import R = ReadRuns

  /** The calls of one request. */
  const MAXIMUM_BATCH: nat := 32

  /**
   * The reads and the admitted requests of a process, the request each read was made for, the
   * jobs not yet sent in the order of their turns, and every event of the budget so far.
   */
  datatype State = State(
    upstream: R.State, admission: Admission.State, owner: map<nat, nat>, line: seq<nat>, log: seq<Q.Event>)

  /** The budget's files and accounts. */
  function Budget(s: State): Q.World { Q.Run(Q.FRESH, s.log) }

  // ------------------------------------------------------------ steps

  /** What a reservation answers; one that fails between its writes throws. */
  function PermitOf(v: Quota.Verdict, crash: Quota.Crash): R.Permit {
    match v
    case Granted(_) => if crash == Quota.Never then R.Granted else R.Threw
    case Exhausted => R.Refused
    case Rewound => R.Threw
  }

  ghost predicate Admits(s: State, t: State, peer: string, now: int) {
    t == s.(admission := Admission.Admitted(s.admission, peer, now))
  }

  /** The request has not settled and has made no read. */
  predicate MayRead(s: State, request: nat) {
    request < |s.admission.requests| && !s.admission.requests[request].settled && request !in s.owner.Values
  }

  /** The read needs a job that is not running yet. */
  predicate Asks(s: State, arrange: set<string> -> seq<string>, missing: seq<Call>) {
    missing != [] && Group(arrange, KeySet(KeyOf(), missing)) !in s.upstream.pending
  }

  function PermitFor(s: State, day: int, missing: seq<Call>, crash: Quota.Crash): R.Permit {
    PermitOf(Quota.Decide(Budget(s).db, Budget(s).guard, day, |missing|), crash)
  }

  /** A read up to its await; a new job is charged one call for each key that is missing. */
  function Read(s: State, arrange: set<string> -> seq<string>, id: nat, request: nat, calls: seq<Call>, day: int,
                crash: Quota.Crash, answers: map<string, Answer>, missing: seq<Call>): State
  {
    var permit := PermitFor(s, day, missing, crash);
    var upstream := R.Begun(s.upstream, arrange, id, calls, permit, answers, missing);
    var begun := s.(upstream := upstream, owner := s.owner[id := request]);
    if !Asks(s, arrange, missing) then begun
    else
      begun.(line := if permit.Granted? then s.line + [|s.upstream.jobs|] else s.line,
             log := s.log + [Q.Reserve(day, |missing|, crash)])
  }

  ghost predicate Reads(s: State, t: State, arrange: set<string> -> seq<string>, id: nat, request: nat,
                        calls: seq<Call>, now: int, day: int, crash: Quota.Crash) {
    && MayRead(s, request) && id !in s.owner && id !in s.upstream.waiting && id !in s.upstream.done
    && 1 <= |calls| <= MAXIMUM_BATCH && (forall c | c in calls :: Allowed(c))
    && exists answers, missing ::
        && R.Partitioned(s.upstream.cache, calls, now, answers, missing)
        && t == Read(s, arrange, id, request, calls, day, crash, answers, missing)
  }

  /** The first job in line is sent. */
  ghost predicate SendsJob(s: State, t: State, day: int) {
    s.line != [] && t == s.(line := s.line[1..], log := s.log + [Q.Send(day)])
  }

  /** The answer to a job that was sent. */
  ghost predicate Answers(s: State, t: State, arrange: set<string> -> seq<string>, job: nat, rows: seq<Row>, l: Limits,
                          now: int) {
    job !in s.line && R.Settles(s.upstream, t.upstream, arrange, job, rows, l, now) && t == s.(upstream := t.upstream)
  }

  /** A job that was sent fails, or the `i`th in line meets its deadline. */
  ghost predicate Fails(s: State, t: State, arrange: set<string> -> seq<string>, job: nat) {
    job !in s.line && R.Breaks(s.upstream, t.upstream, arrange, job) && t == s.(upstream := t.upstream)
  }

  ghost predicate Expires(s: State, t: State, arrange: set<string> -> seq<string>, i: nat) {
    && i < |s.line| && R.Breaks(s.upstream, t.upstream, arrange, s.line[i])
    && t == s.(upstream := t.upstream, line := Q.Without(s.line, i), log := s.log + [Q.Drop(i)])
  }

  ghost predicate Evicts(s: State, t: State) { R.Evicts(s.upstream, t.upstream) && t == s.(upstream := t.upstream) }

  /** A request holds bytes, settles once its read is done, or finishes. */
  ghost predicate Responds(s: State, t: State, e: Admission.Event) {
    && !e.Admit? && t == s.(admission := Admission.Step(s.admission, e))
    && (e.Settle? ==> exists id :: id in s.owner && s.owner[id] == e.id && id in s.upstream.done)
  }

  /** The process dies; the next one has nothing in hand but the cache and the budget's files that were left. */
  ghost predicate Restarts(s: State, t: State, e: Q.Event) {
    e.Start? && R.Restarts(s.upstream, t.upstream) && t == State(t.upstream, Admission.IDLE, map[], [], s.log + [e])
  }

  ghost predicate Replaces(s: State, t: State, copy: Option<Quota.Ledger>) { t == s.(log := s.log + [Q.Restore(copy)]) }

  ghost predicate Next(s: State, t: State, arrange: set<string> -> seq<string>) {
    || (exists peer, now :: Admits(s, t, peer, now))
    || (exists id, request, calls, now, day, crash :: Reads(s, t, arrange, id, request, calls, now, day, crash))
    || (exists day :: SendsJob(s, t, day))
    || (exists job, rows, l, now :: Answers(s, t, arrange, job, rows, l, now))
    || (exists job :: Fails(s, t, arrange, job))
    || (exists i :: Expires(s, t, arrange, i))
    || Evicts(s, t)
    || (exists e :: Responds(s, t, e))
    || (exists e :: Restarts(s, t, e))
    || (exists copy :: Replaces(s, t, copy))
  }

  // ------------------------------------------------------------ invariant

  /** The read is made for a request that has not settled, and no other read is. */
  ghost predicate Owned(s: State, id: nat) {
    && id in s.owner && s.owner[id] < |s.admission.requests| && !s.admission.requests[s.owner[id]].settled
    && id !in s.upstream.done
  }

  ghost predicate OneReadEach(owner: map<nat, nat>) {
    forall a, b | a in owner && b in owner && owner[a] == owner[b] :: a == b
  }

  /** Some read waits for the job. */
  ghost predicate Awaited(upstream: R.State, job: nat) {
    exists id :: id in upstream.waiting && upstream.waiting[id].job == job
  }

  /** A job in line runs, is awaited, and was charged the calls it asks for. */
  ghost predicate Queues(upstream: R.State, job: nat, charged: Q.Job) {
    && job < |upstream.jobs| && upstream.jobs[job].running && Awaited(upstream, job)
    && charged.count == |upstream.jobs[job].request| <= MAXIMUM_BATCH
  }

  ghost predicate LineOk(upstream: R.State, line: seq<nat>, queue: seq<Q.Job>) {
    && |queue| == |line| && (forall i | 0 <= i < |line| :: Queues(upstream, line[i], queue[i]))
    && (forall i, j | 0 <= i < j < |line| :: line[i] < line[j])
  }

  ghost predicate Inv(s: State, arrange: set<string> -> seq<string>) {
    && Admission.Inv(s.admission) && R.Inv(s.upstream, arrange)
    && (forall id | id in s.upstream.waiting :: Owned(s, id)) && OneReadEach(s.owner)
    && LineOk(s.upstream, s.line, Budget(s).queue)
  }

  lemma BudgetSteps(s: State, t: State, e: Q.Event)
    requires t.log == s.log + [e]
    ensures Budget(t) == Q.Step(Budget(s), e)
  {
    Q.RunMore(Q.FRESH, s.log, e);
  }

  lemma AdmitsKeepsInv(s: State, t: State, arrange: set<string> -> seq<string>, peer: string, now: int)
    requires Inv(s, arrange) && Admits(s, t, peer, now)
    ensures Inv(t, arrange)
  {
    Admission.AdmitKeepsInv(s.admission, peer, now);
    forall id | id in t.upstream.waiting ensures Owned(t, id) { assert Owned(s, id); }
  }

  lemma EvictsKeepsInv(s: State, t: State, arrange: set<string> -> seq<string>)
    requires Inv(s, arrange) && Evicts(s, t)
    ensures Inv(t, arrange)
  {
    R.EvictKeepsInv(s.upstream, t.upstream, arrange);
    forall id | id in t.upstream.waiting ensures Owned(t, id) { assert Owned(s, id); }
    LineStays(s.upstream, t.upstream, s.line, Budget(s).queue);
  }

  /** A job in line stays as it is when it still runs with its request and a read still waits for it. */
  lemma LineStays(u: R.State, v: R.State, line: seq<nat>, queue: seq<Q.Job>)
    requires LineOk(u, line, queue) && |u.jobs| <= |v.jobs|
    requires forall i | 0 <= i < |line| :: v.jobs[line[i]] == u.jobs[line[i]]
    requires forall id | id in u.waiting && u.waiting[id].job in line ::
      id in v.waiting && v.waiting[id] == u.waiting[id]
    ensures LineOk(v, line, queue)
  {
    forall i | 0 <= i < |line| ensures Queues(v, line[i], queue[i]) {
      assert Queues(u, line[i], queue[i]);
      var id :| id in u.waiting && u.waiting[id].job == line[i];
      assert id in v.waiting && v.waiting[id].job == line[i];
    }
  }

  lemma SendsJobKeepsInv(s: State, t: State, arrange: set<string> -> seq<string>, day: int)
    requires Inv(s, arrange) && SendsJob(s, t, day)
    ensures Inv(t, arrange)
  {
    BudgetSteps(s, t, Q.Send(day));
    forall id | id in t.upstream.waiting ensures Owned(t, id) { assert Owned(s, id); }
    forall i | 0 <= i < |t.line| ensures Queues(t.upstream, t.line[i], Budget(t).queue[i]) {
      assert Queues(s.upstream, s.line[i + 1], Budget(s).queue[i + 1]);
    }
  }

  /** A job ends; what waits for others goes on waiting. */
  ghost predicate Ends(u: R.State, v: R.State, job: nat) {
    && job < |u.jobs| && |v.jobs| == |u.jobs| && (forall j | 0 <= j < |u.jobs| && j != job :: v.jobs[j] == u.jobs[j])
    && (forall id :: id in v.waiting <==> id in u.waiting && u.waiting[id].job != job)
    && (forall id | id in v.waiting :: v.waiting[id] == u.waiting[id])
    && (forall id | id in v.done :: id in u.done || (id in u.waiting && u.waiting[id].job == job))
  }

  lemma SettlesEnds(u: R.State, v: R.State, arrange: set<string> -> seq<string>, job: nat, rows: seq<Row>, l: Limits,
                    now: int)
    requires R.Settles(u, v, arrange, job, rows, l, now)
    ensures Ends(u, v, job)
  {
  }

  lemma BreaksEnds(u: R.State, v: R.State, arrange: set<string> -> seq<string>, job: nat)
    requires R.Breaks(u, v, arrange, job)
    ensures Ends(u, v, job)
  {
  }

  lemma EndKeepsOwned(s: State, t: State, job: nat)
    requires (forall id | id in s.upstream.waiting :: Owned(s, id)) && Ends(s.upstream, t.upstream, job)
    requires t.owner == s.owner && t.admission == s.admission
    ensures forall id | id in t.upstream.waiting :: Owned(t, id)
  {
    forall id | id in t.upstream.waiting ensures Owned(t, id) { assert Owned(s, id); }
  }

  /** The end of a job that was sent. */
  lemma SentEndKeepsInv(s: State, t: State, arrange: set<string> -> seq<string>, job: nat)
    requires Inv(s, arrange) && R.Inv(t.upstream, arrange) && Ends(s.upstream, t.upstream, job)
    requires t == s.(upstream := t.upstream) && job !in s.line
    ensures Inv(t, arrange)
  {
    EndKeepsOwned(s, t, job);
    forall i | 0 <= i < |s.line|
      ensures s.line[i] < |s.upstream.jobs| && t.upstream.jobs[s.line[i]] == s.upstream.jobs[s.line[i]]
    {
      assert Queues(s.upstream, s.line[i], Budget(s).queue[i]) && s.line[i] in s.line;
    }
    LineStays(s.upstream, t.upstream, s.line, Budget(s).queue);
  }

  lemma AnswersKeepsInv(s: State, t: State, arrange: set<string> -> seq<string>, job: nat, rows: seq<Row>, l: Limits,
                        now: int)
    requires Inv(s, arrange) && Answers(s, t, arrange, job, rows, l, now)
    ensures Inv(t, arrange)
  {
    R.SettleKeepsInv(s.upstream, t.upstream, arrange, job, rows, l, now);
    SettlesEnds(s.upstream, t.upstream, arrange, job, rows, l, now);
    SentEndKeepsInv(s, t, arrange, job);
  }

  lemma FailsKeepsInv(s: State, t: State, arrange: set<string> -> seq<string>, job: nat)
    requires Inv(s, arrange) && Fails(s, t, arrange, job)
    ensures Inv(t, arrange)
  {
    R.BreaksKeepsInv(s.upstream, t.upstream, arrange, job);
    BreaksEnds(s.upstream, t.upstream, arrange, job);
    SentEndKeepsInv(s, t, arrange, job);
  }

  lemma BudgetDrops(s: State, t: State, i: nat)
    requires t.log == s.log + [Q.Drop(i)]
    ensures Budget(t).queue == Q.Without(Budget(s).queue, i)
  {
    BudgetSteps(s, t, Q.Drop(i));
  }

  lemma ExpiryKeepsInv(s: State, t: State, arrange: set<string> -> seq<string>, i: nat)
    requires Inv(s, arrange) && R.Inv(t.upstream, arrange) && i < |s.line| && Ends(s.upstream, t.upstream, s.line[i])
    requires t == s.(upstream := t.upstream, line := Q.Without(s.line, i), log := s.log + [Q.Drop(i)])
    ensures Inv(t, arrange)
  {
    EndKeepsOwned(s, t, s.line[i]);
    BudgetDrops(s, t, i);
    WithoutStays(s.upstream, t.upstream, s.line, Budget(s).queue, i);
  }

  lemma ExpiresKeepsInv(s: State, t: State, arrange: set<string> -> seq<string>, i: nat)
    requires Inv(s, arrange) && Expires(s, t, arrange, i)
    ensures Inv(t, arrange)
  {
    R.BreaksKeepsInv(s.upstream, t.upstream, arrange, s.line[i]);
    BreaksEnds(s.upstream, t.upstream, arrange, s.line[i]);
    ExpiryKeepsInv(s, t, arrange, i);
  }

  lemma WithoutStays(u: R.State, v: R.State, line: seq<nat>, queue: seq<Q.Job>, i: nat)
    requires LineOk(u, line, queue) && i < |line| && Ends(u, v, line[i])
    ensures LineOk(v, Q.Without(line, i), Q.Without(queue, i))
  {
    Q.WithoutAt(line, i);
    Q.WithoutAt(queue, i);
    var rest, charged := Q.Without(line, i), Q.Without(queue, i);
    forall k | 0 <= k < |rest| ensures Queues(v, rest[k], charged[k]) {
      var old_ := if k < i then k else k + 1;
      assert Queues(u, line[old_], queue[old_]) && line[old_] != line[i];
      var id :| id in u.waiting && u.waiting[id].job == line[old_];
      assert id in v.waiting && v.waiting[id].job == rest[k];
    }
  }

  lemma RespondsKeepsInv(s: State, t: State, arrange: set<string> -> seq<string>, e: Admission.Event)
    requires Inv(s, arrange) && Responds(s, t, e)
    ensures Inv(t, arrange)
  {
    Admission.StepKeepsInv(s.admission, e);
    forall id | id in t.upstream.waiting ensures Owned(t, id) {
      assert Owned(s, id);
      assert e.Settle? ==> s.owner[id] != e.id;
    }
  }

  lemma RestartsKeepsInv(s: State, t: State, arrange: set<string> -> seq<string>, e: Q.Event)
    requires Arranges(arrange) && Inv(s, arrange) && Restarts(s, t, e)
    ensures Inv(t, arrange)
  {
    BudgetSteps(s, t, e);
    R.NextKeepsInv(s.upstream, t.upstream, arrange);
    assert Admission.Inv(Admission.IDLE);
  }

  lemma ReplacesKeepsInv(s: State, t: State, arrange: set<string> -> seq<string>, copy: Option<Quota.Ledger>)
    requires Inv(s, arrange) && Replaces(s, t, copy)
    ensures Inv(t, arrange)
  {
    BudgetSteps(s, t, Q.Restore(copy));
    forall id | id in t.upstream.waiting ensures Owned(t, id) { assert Owned(s, id); }
  }

  // ------------------------------------------------------------ a read keeps it

  lemma {:induction false} KeySetIsSmall<C>(key: C -> string, calls: seq<C>)
    ensures |KeySet(key, calls)| <= |calls|
    ensures DistinctKeys(key, calls) ==> |KeySet(key, calls)| == |calls|
  {
    if calls != [] {
      var n := |calls| - 1;
      var init := calls[..n];
      KeySetIsSmall(key, init);
      assert init + [calls[n]] == calls;
      KeySetSnoc(key, init, calls[n]);
      if DistinctKeys(key, calls) { assert key(calls[n]) !in KeySet(key, init); }
    }
  }

  /** A job asks for no more calls than the read it is started for. */
  lemma MissingIsShort(cache: Cache, calls: seq<Call>, now: int, answers: map<string, Answer>, missing: seq<Call>)
    requires R.Partitioned(cache, calls, now, answers, missing)
    ensures |missing| <= |calls|
  {
    KeySetIsSmall(KeyOf(), calls);
    KeySetIsSmall(KeyOf(), missing);
    SubsetCardinality(KeySet(KeyOf(), missing), KeySet(KeyOf(), calls));
  }

  /** What a read does to the reads of the process: no job changes, and at most the read itself is new. */
  ghost predicate Joins(u: R.State, v: R.State, id: nat) {
    && |u.jobs| <= |v.jobs| && (forall j | 0 <= j < |u.jobs| :: v.jobs[j] == u.jobs[j])
    && (forall i | i in u.waiting :: i in v.waiting && v.waiting[i] == u.waiting[i])
    && (forall i | i in v.waiting :: i in u.waiting || (i == id && id !in v.done))
    && (forall i | i in v.done :: i in u.done || i == id)
  }

  lemma BegunJoins(u: R.State, arrange: set<string> -> seq<string>, id: nat, calls: seq<Call>, permit: R.Permit,
                   answers: map<string, Answer>, missing: seq<Call>)
    requires id !in u.waiting && id !in u.done
    ensures Joins(u, R.Begun(u, arrange, id, calls, permit, answers, missing), id)
  {
  }

  lemma ReadKeepsOwned(s: State, t: State, id: nat, request: nat)
    requires (forall i | i in s.upstream.waiting :: Owned(s, i)) && OneReadEach(s.owner)
    requires MayRead(s, request) && id !in s.owner && Joins(s.upstream, t.upstream, id)
    requires t.owner == s.owner[id := request] && t.admission == s.admission
    ensures (forall i | i in t.upstream.waiting :: Owned(t, i)) && OneReadEach(t.owner)
  {
    forall i | i in t.upstream.waiting ensures Owned(t, i) {
      if i in s.upstream.waiting { assert Owned(s, i); }
    }
    forall a, b | a in t.owner && b in t.owner && t.owner[a] == t.owner[b] ensures a == b {
      assert a != id ==> s.owner[a] in s.owner.Values;
      assert b != id ==> s.owner[b] in s.owner.Values;
    }
  }

  lemma LineJoined(u: R.State, v: R.State, id: nat, line: seq<nat>, queue: seq<Q.Job>)
    requires LineOk(u, line, queue) && Joins(u, v, id)
    ensures LineOk(v, line, queue)
  {
    forall i | 0 <= i < |line| ensures line[i] < |u.jobs| { assert Queues(u, line[i], queue[i]); }
    LineStays(u, v, line, queue);
  }

  /** The line after a job was granted and joined it at the end. */
  lemma LineGrows(u: R.State, v: R.State, id: nat, line: seq<nat>, queue: seq<Q.Job>, job: R.Job, charged: Q.Job)
    requires LineOk(u, line, queue) && Joins(u, v, id) && v.jobs == u.jobs + [job]
    requires job.running && charged.count == |job.request| <= MAXIMUM_BATCH
    requires id in v.waiting && v.waiting[id].job == |u.jobs|
    ensures LineOk(v, line + [|u.jobs|], queue + [charged])
  {
    LineJoined(u, v, id, line, queue);
    var longer, more := line + [|u.jobs|], queue + [charged];
    forall i | 0 <= i < |longer| ensures Queues(v, longer[i], more[i]) {
      if i < |line| { assert Queues(v, line[i], queue[i]); } else { assert Awaited(v, |u.jobs|); }
    }
    forall i | 0 <= i < |line| ensures line[i] < |u.jobs| { assert Queues(u, line[i], queue[i]); }
  }

  lemma ReservingQueue(w: Q.World, day: int, count: nat, crash: Quota.Crash)
    requires count > 0
    ensures var t := Q.Step(w, Q.Reserve(day, count, crash));
      t.queue == if PermitOf(Quota.Decide(w.db, w.guard, day, count), crash).Granted?
                 then w.queue + [Q.Job(day, count)] else w.queue
  {
  }

  lemma ReadKeepsLine(s: State, arrange: set<string> -> seq<string>, id: nat, request: nat, calls: seq<Call>, day: int,
                      crash: Quota.Crash, answers: map<string, Answer>, missing: seq<Call>)
    requires LineOk(s.upstream, s.line, Budget(s).queue) && id !in s.upstream.waiting && id !in s.upstream.done
    requires |missing| <= MAXIMUM_BATCH
    ensures var t := Read(s, arrange, id, request, calls, day, crash, answers, missing);
      LineOk(t.upstream, t.line, Budget(t).queue)
  {
    var t := Read(s, arrange, id, request, calls, day, crash, answers, missing);
    var permit := PermitFor(s, day, missing, crash);
    BegunJoins(s.upstream, arrange, id, calls, permit, answers, missing);
    if Asks(s, arrange, missing) {
      BudgetSteps(s, t, Q.Reserve(day, |missing|, crash));
      ReservingQueue(Budget(s), day, |missing|, crash);
    }
    if Asks(s, arrange, missing) && permit.Granted? {
      LineGrows(s.upstream, t.upstream, id, s.line, Budget(s).queue, R.Job(missing, true), Q.Job(day, |missing|));
    } else {
      LineJoined(s.upstream, t.upstream, id, s.line, Budget(s).queue);
    }
  }

  lemma ReadsKeepsInv(s: State, t: State, arrange: set<string> -> seq<string>, id: nat, request: nat, calls: seq<Call>,
                      now: int, day: int, crash: Quota.Crash)
    requires Arranges(arrange) && Inv(s, arrange) && Reads(s, t, arrange, id, request, calls, now, day, crash)
    ensures Inv(t, arrange)
  {
    var answers, missing :|
      && R.Partitioned(s.upstream.cache, calls, now, answers, missing)
      && t == Read(s, arrange, id, request, calls, day, crash, answers, missing);
    var permit := PermitFor(s, day, missing, crash);
    MissingIsShort(s.upstream.cache, calls, now, answers, missing);
    R.BeginKeepsInv(s.upstream, arrange, id, calls, now, permit, answers, missing);
    BegunJoins(s.upstream, arrange, id, calls, permit, answers, missing);
    ReadKeepsOwned(s, t, id, request);
    ReadKeepsLine(s, arrange, id, request, calls, day, crash, answers, missing);
  }

  lemma NextKeepsInv(s: State, t: State, arrange: set<string> -> seq<string>)
    requires Arranges(arrange) && Inv(s, arrange) && Next(s, t, arrange)
    ensures Inv(t, arrange)
  {
    if peer, now :| Admits(s, t, peer, now) {
      AdmitsKeepsInv(s, t, arrange, peer, now);
    } else if id, request, calls, now, day, crash :| Reads(s, t, arrange, id, request, calls, now, day, crash) {
      ReadsKeepsInv(s, t, arrange, id, request, calls, now, day, crash);
    } else if day :| SendsJob(s, t, day) {
      SendsJobKeepsInv(s, t, arrange, day);
    } else if job, rows, l, now :| Answers(s, t, arrange, job, rows, l, now) {
      AnswersKeepsInv(s, t, arrange, job, rows, l, now);
    } else if job :| Fails(s, t, arrange, job) {
      FailsKeepsInv(s, t, arrange, job);
    } else if i :| Expires(s, t, arrange, i) {
      ExpiresKeepsInv(s, t, arrange, i);
    } else if Evicts(s, t) {
      EvictsKeepsInv(s, t, arrange);
    } else if e :| Responds(s, t, e) {
      RespondsKeepsInv(s, t, arrange, e);
    } else if e :| Restarts(s, t, e) {
      RestartsKeepsInv(s, t, arrange, e);
    } else {
      var copy :| Replaces(s, t, copy);
      ReplacesKeepsInv(s, t, arrange, copy);
    }
  }

  // ------------------------------------------------------------ what waits is bounded by what is admitted

  /** A read that waits for each job in line. */
  lemma {:induction false} Waiters(u: R.State, line: seq<nat>, queue: seq<Q.Job>, n: nat) returns (ids: seq<nat>)
    requires LineOk(u, line, queue) && n <= |line|
    ensures |ids| == n && forall k | 0 <= k < n :: ids[k] in u.waiting && u.waiting[ids[k]].job == line[k]
  {
    ids := [];
    if n > 0 {
      ids := Waiters(u, line, queue, n - 1);
      assert Queues(u, line[n - 1], queue[n - 1]);
      var id :| id in u.waiting && u.waiting[id].job == line[n - 1];
      ids := ids + [id];
    }
  }

  predicate AllDifferent(s: seq<nat>) { forall i, j | 0 <= i < j < |s| :: s[i] != s[j] }

  lemma {:induction false} DifferentMakeASet(s: seq<nat>) returns (some: set<nat>)
    requires AllDifferent(s)
    ensures |some| == |s| && forall x :: x in some <==> x in s
  {
    some := {};
    if s != [] {
      var init, last := s[..|s| - 1], s[|s| - 1];
      some := DifferentMakeASet(init);
      assert s == init + [last] && last !in init;
      some := some + {last};
    }
  }

  function OwnersOf(owner: map<nat, nat>, ids: seq<nat>): (rs: seq<nat>)
    requires forall id | id in ids :: id in owner
    ensures |rs| == |ids| && forall k | 0 <= k < |ids| :: rs[k] == owner[ids[k]]
  {
    seq(|ids|, k requires 0 <= k < |ids| => owner[ids[k]])
  }

  /** As many requests that have not settled as jobs in line. */
  lemma Owners(s: State) returns (owners: set<nat>)
    requires (forall id | id in s.upstream.waiting :: Owned(s, id)) && OneReadEach(s.owner)
    requires LineOk(s.upstream, s.line, Budget(s).queue)
    ensures |owners| == |s.line|
    ensures forall r | r in owners :: r < |s.admission.requests| && !s.admission.requests[r].settled
  {
    var ids := Waiters(s.upstream, s.line, Budget(s).queue, |s.line|);
    assert forall id | id in ids :: Owned(s, id);
    var rs := OwnersOf(s.owner, ids);
    forall i, j | 0 <= i < j < |rs| ensures rs[i] != rs[j] {
      assert s.line[i] != s.line[j] && ids[i] != ids[j];
    }
    owners := DifferentMakeASet(rs);
    forall r | r in owners ensures r < |s.admission.requests| && !s.admission.requests[r].settled {
      var k :| 0 <= k < |rs| && rs[k] == r;
      assert Owned(s, ids[k]);
    }
  }

  lemma {:induction false} UnreleasedAtLeast(rs: seq<Admission.Request>, some: set<nat>)
    requires forall r | r in some :: r < |rs| && !rs[r].released
    ensures |some| <= Admission.Unreleased(rs)
  {
    if rs == [] {
      assert some == {};
    } else {
      var last := |rs| - 1;
      UnreleasedAtLeast(rs[..last], some - {last});
      assert last in some ==> |some - {last}| == |some| - 1;
      assert last !in some ==> some - {last} == some;
    }
  }

  /** No more jobs wait to be sent than requests are active. */
  lemma LineWithinActive(s: State, arrange: set<string> -> seq<string>)
    requires Inv(s, arrange)
    ensures |s.line| <= s.admission.active <= Admission.MAXIMUM_ACTIVE
  {
    var owners := Owners(s);
    UnreleasedAtLeast(s.admission.requests, owners);
  }

  lemma {:induction false} QueueCosts(queue: seq<Q.Job>)
    requires forall j | j in queue :: j.count <= MAXIMUM_BATCH
    ensures Q.Cost(queue, Q.Every()).used <= MAXIMUM_BATCH * |queue|
    ensures Q.Cost(queue, Q.Every()).requests == |queue|
  {
    if queue != [] {
      var rest := queue[1..];
      assert queue[0] in queue && forall j | j in rest :: j in queue;
      QueueCosts(rest);
    }
  }

  /** At most 8 jobs of at most 32 calls wait to be sent. */
  lemma QueueIsShort(s: State, arrange: set<string> -> seq<string>)
    requires Inv(s, arrange)
    ensures Quota.AtMost(Q.Cost(Budget(s).queue, Q.Every()), Quota.Charge(256, 8))
  {
    var queue := Budget(s).queue;
    LineWithinActive(s, arrange);
    forall j | j in queue ensures j.count <= MAXIMUM_BATCH {
      var i :| 0 <= i < |queue| && queue[i] == j;
      assert Queues(s.upstream, s.line[i], queue[i]);
    }
    QueueCosts(queue);
  }

  // ------------------------------------------------------------ runs

  /** Nothing is in hand and the budget has no history; the cache is one an earlier process left. */
  ghost predicate Starts(s: State) {
    && s == State(s.upstream, Admission.IDLE, map[], [], [])
    && exists stored :: OldCacheOk(stored, s.upstream.heard) &&
         s.upstream == R.INITIAL.(cache := Reopened(stored), heard := s.upstream.heard)
  }

  ghost predicate Runs(states: seq<State>, arrange: set<string> -> seq<string>) {
    states != [] && Starts(states[0]) && forall i | 0 < i < |states| :: Next(states[i - 1], states[i], arrange)
  }

  /** At every point of the budget's history the queue was short. */
  ghost predicate AlwaysShort(log: seq<Q.Event>) {
    forall n | 0 <= n <= |log| ::
      Quota.AtMost(Q.Cost(Q.Run(Q.FRESH, log[..n]).queue, Q.Every()), Quota.Charge(256, 8))
  }

  lemma OneMoreShort(log: seq<Q.Event>, t: State, arrange: set<string> -> seq<string>)
    requires AlwaysShort(log) && Inv(t, arrange)
    requires t.log == log || (|t.log| == |log| + 1 && t.log[..|log|] == log)
    ensures AlwaysShort(t.log)
  {
    forall n | 0 <= n <= |t.log|
      ensures Quota.AtMost(Q.Cost(Q.Run(Q.FRESH, t.log[..n]).queue, Q.Every()), Quota.Charge(256, 8))
    {
      if n <= |log| {
        assert t.log[..n] == log[..n];
      } else {
        assert t.log[..n] == t.log;
        QueueIsShort(t, arrange);
      }
    }
  }

  /** A step adds at most one event to the history. */
  lemma StepLogs(s: State, t: State, arrange: set<string> -> seq<string>)
    requires Next(s, t, arrange)
    ensures t.log == s.log || (|t.log| == |s.log| + 1 && t.log[..|s.log|] == s.log)
  {
  }

  lemma {:induction false} RunKeepsInv(states: seq<State>, arrange: set<string> -> seq<string>)
    requires Arranges(arrange) && Runs(states, arrange)
    ensures Inv(states[|states| - 1], arrange) && AlwaysShort(states[|states| - 1].log)
  {
    var n := |states|;
    if n == 1 {
      var stored :| OldCacheOk(stored, states[0].upstream.heard) &&
        states[0].upstream == R.INITIAL.(cache := Reopened(stored), heard := states[0].upstream.heard);
      ReopeningKeepsCacheOk(stored, states[0].upstream.heard);
      assert Admission.Inv(Admission.IDLE);
      OneMoreShort([], states[0], arrange);
    } else {
      RunKeepsInv(states[..n - 1], arrange);
      NextKeepsInv(states[n - 2], states[n - 1], arrange);
      StepLogs(states[n - 2], states[n - 1], arrange);
      OneMoreShort(states[n - 2].log, states[n - 1], arrange);
    }
  }

  /** Where a day begins in a history whose clock does not go back. */
  lemma {:induction false} DayBegins(log: seq<Q.Event>, day: int) returns (n: nat)
    requires Q.InOrder(log)
    ensures n <= |log| && Q.AllBefore(log[..n], day) && Q.AllFrom(log[n..], day)
  {
    if log == [] {
      n := 0;
    } else {
      var init, e := log[..|log| - 1], log[|log| - 1];
      n := DayBegins(init, day);
      assert log[..n] == init[..n];
      if Q.Reading(e).Some? && Q.Reading(e).value < day {
        n := |log|;
        assert log[..n] == log && log[n..] == [] && forall x | x in log :: x in init || x == e;
      } else {
        assert log[n..] == init[n..] + [e];
        LaterStays(init, n, e, day);
      }
    }
  }

  lemma LaterStays(init: seq<Q.Event>, n: nat, e: Q.Event, day: int)
    requires n <= |init| && Q.AllFrom(init[n..], day)
    requires Q.Reading(e).Some? ==> Q.AllUpTo(init, Q.Reading(e).value)
    requires Q.Reading(e).Some? ==> day <= Q.Reading(e).value
    ensures Q.AllFrom(init[n..] + [e], day)
  {
    var later := init[n..] + [e];
    assert later[..|later| - 1] == init[n..] && later[|later| - 1] == e;
    assert forall x | x in init[n..] :: x in init;
    assert forall x | x in later :: x in init[n..] || x == e;
  }

  /**
   * In every run in which the clock does not go back, at most 80,256 calls and 40,008 requests
   * are sent on a day: the caps, and 8 jobs of 32 calls that were charged the day before.
   */
  lemma {:induction false} SentOnADay(states: seq<State>, arrange: set<string> -> seq<string>, day: int)
    requires Arranges(arrange) && Runs(states, arrange) && Q.InOrder(states[|states| - 1].log)
    ensures Quota.AtMost(Q.Sent(Budget(states[|states| - 1]), day), Quota.Charge(80_256, 40_008))
  {
    var log := states[|states| - 1].log;
    RunKeepsInv(states, arrange);
    var n := DayBegins(log, day);
    assert log[..n] + log[n..] == log;
    Q.SentIsCapAndQueue(log[..n], log[n..], day);
  }

  /**
   * A job is charged, under the day its reservation read, the calls it asks upstream for: one
   * for each key its read misses; and a job sent later adds exactly those calls to what was sent.
   */
  lemma {:induction false} JobsAreChargedTheirCalls(states: seq<State>, arrange: set<string> -> seq<string>, i: nat)
    requires Arranges(arrange) && Runs(states, arrange) && i < |states[|states| - 1].line|
    ensures var s := states[|states| - 1];
      && s.line[i] < |s.upstream.jobs| && i < |Budget(s).queue|
      && Budget(s).queue[i].count == |s.upstream.jobs[s.line[i]].request|
      && |s.upstream.jobs[s.line[i]].request| == |KeySet(KeyOf(), s.upstream.jobs[s.line[i]].request)| <= MAXIMUM_BATCH
  {
    RunKeepsInv(states, arrange);
    var s := states[|states| - 1];
    assert Queues(s.upstream, s.line[i], Budget(s).queue[i]);
    KeySetIsSmall(KeyOf(), s.upstream.jobs[s.line[i]].request);
  }

  /** Sending the first job in line sends the calls of its request, charged to the day they were reserved on. */
  lemma SendingSendsTheRequest(s: State, t: State, arrange: set<string> -> seq<string>, day: int)
    requires Inv(s, arrange) && SendsJob(s, t, day)
    ensures var charged := Budget(s).queue[0];
      && charged.count == |s.upstream.jobs[s.line[0]].request|
      && Budget(t).sends == Budget(s).sends + [Q.Sending(charged, day)]
  {
    BudgetSteps(s, t, Q.Send(day));
    assert Queues(s.upstream, s.line[0], Budget(s).queue[0]);
  }
}
