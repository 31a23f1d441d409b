/**
 * src/routes/midnight-read-rpc.ts, lines 172-212: what becomes of every read. A read whose
 * calls are all cached is answered at once, any other awaits a job that is running, and when
 * the job ends each read that awaits it is answered, or fails, with it.
 */
module ReadOutcomes {
  import opened Common
  import opened Json
  import opened ReadCalls
  import opened ReadFlight
  import opened ReadRuns

  function KeysOf(calls: seq<Call>): set<string> { KeySet(KeyOf(), calls) }

  /** The keys of a read's calls that the cache does not answer. */
  function Misses(s: State, calls: seq<Call>, now: int): set<string> {
    set k | k in KeysOf(calls) && !Live(s.cache, k, now)
  }

  // ------------------------------------------------------------ what waits is running

  /** Pending groups are the running jobs, each under the name of its keys, and reads await running jobs only. */
  ghost predicate Attended(s: State, arrange: set<string> -> seq<string>) {
    && (forall g | g in s.pending ::
          s.pending[g] < |s.jobs| && s.jobs[s.pending[g]].running
          && g == Group(arrange, KeysOf(s.jobs[s.pending[g]].request)))
    && (forall j | 0 <= j < |s.jobs| && s.jobs[j].running ::
          var g := Group(arrange, KeysOf(s.jobs[j].request)); g in s.pending && s.pending[g] == j)
    && (forall id | id in s.waiting :: s.waiting[id].job < |s.jobs| && s.jobs[s.waiting[id].job].running)
  }

  /** A new job under the name of its keys, which no running job has. */
  lemma NewJobKeepsAttended(s: State, t: State, arrange: set<string> -> seq<string>, id: nat, w: Waiting, job: Job)
    requires Attended(s, arrange) && job.running && Group(arrange, KeysOf(job.request)) !in s.pending
    requires t.jobs == s.jobs + [job] && t.pending == s.pending[Group(arrange, KeysOf(job.request)) := |s.jobs|]
    requires t.waiting == s.waiting[id := w] && w.job == |s.jobs|
    ensures Attended(t, arrange)
  {
    forall j | 0 <= j < |t.jobs| && t.jobs[j].running
      ensures var g := Group(arrange, KeysOf(t.jobs[j].request)); g in t.pending && t.pending[g] == j
    {
      if j < |s.jobs| { assert t.jobs[j] == s.jobs[j]; }
    }
  }

  /** A read that joins a running job, or is over at once. */
  lemma SameJobsKeepAttended(s: State, t: State, arrange: set<string> -> seq<string>, id: nat)
    requires Attended(s, arrange) && t.jobs == s.jobs && t.pending == s.pending
    requires t.waiting == s.waiting
      || (id in t.waiting && t.waiting == s.waiting[id := t.waiting[id]] && t.waiting[id].job in s.pending.Values)
    ensures Attended(t, arrange)
  {
  }

  lemma BegunKeepsAttended(s: State, arrange: set<string> -> seq<string>, id: nat, calls: seq<Call>, permit: Permit,
                           answers: map<string, Answer>, missing: seq<Call>)
    requires Attended(s, arrange)
    ensures Attended(Begun(s, arrange, id, calls, permit, answers, missing), arrange)
  {
    var t, g := Begun(s, arrange, id, calls, permit, answers, missing), Group(arrange, KeysOf(missing));
    if missing == [] || g in s.pending || !permit.Granted? {
      if missing != [] && g in s.pending { assert s.pending[g] in s.pending.Values; }
      SameJobsKeepAttended(s, t, arrange, id);
    } else {
      NewJobKeepsAttended(s, t, arrange, id, t.waiting[id], Job(missing, true));
    }
  }

  lemma EndedKeepsAttended(s: State, arrange: set<string> -> seq<string>, job: nat,
                           values: Option<map<string, Answer>>, cache: Cache, heard: Heard)
    requires Attended(s, arrange) && job < |s.jobs| && s.jobs[job].running
    ensures Attended(Ended(s, arrange, job, values).(cache := cache, heard := heard), arrange)
  {
    var t := Ended(s, arrange, job, values).(cache := cache, heard := heard);
    forall g | g in t.pending
      ensures t.pending[g] < |t.jobs| && t.jobs[t.pending[g]].running
      ensures g == Group(arrange, KeysOf(t.jobs[t.pending[g]].request))
    {
      assert g in s.pending && t.pending[g] == s.pending[g] && s.pending[g] != job;
    }
  }

  lemma NextKeepsAttended(s: State, t: State, arrange: set<string> -> seq<string>)
    requires Attended(s, arrange) && Next(s, t, arrange)
    ensures Attended(t, arrange)
  {
    if Evicts(s, t) {
    } else if Restarts(s, t) {
    } else if job: nat :| Breaks(s, t, arrange, job) {
      EndedKeepsAttended(s, arrange, job, None, s.cache, s.heard);
    } else if job: nat, rows, l, now :| Settles(s, t, arrange, job, rows, l, now) {
      SettlesKeepsAttended(s, t, arrange, job, rows, l, now);
    } else {
      var id, calls, now, permit :| Begins(s, t, arrange, id, calls, now, permit);
      BeginsKeepsAttended(s, t, arrange, id, calls, now, permit);
    }
  }

  lemma SettlesKeepsAttended(s: State, t: State, arrange: set<string> -> seq<string>, job: nat, rows: seq<Row>,
                             l: Limits, now: int)
    requires Attended(s, arrange) && Settles(s, t, arrange, job, rows, l, now)
    ensures Attended(t, arrange)
  {
    var values: Option<map<string, Answer>> :| t == Ended(s, arrange, job, values).(cache := t.cache, heard := t.heard);
    EndedKeepsAttended(s, arrange, job, values, t.cache, t.heard);
  }

  lemma BeginsKeepsAttended(s: State, t: State, arrange: set<string> -> seq<string>, id: nat, calls: seq<Call>,
                            now: int, permit: Permit)
    requires Attended(s, arrange) && Begins(s, t, arrange, id, calls, now, permit)
    ensures Attended(t, arrange)
  {
    var answers, missing :|
      && Partitioned(s.cache, calls, now, answers, missing)
      && t == Begun(s, arrange, id, calls, permit, answers, missing);
    BegunKeepsAttended(s, arrange, id, calls, permit, answers, missing);
  }

  /** In every run, through any restarts, reads await running jobs only, and no two of those have the same keys. */
  lemma {:induction false} RunKeepsAttended(states: seq<State>, arrange: set<string> -> seq<string>)
    requires Arranges(arrange) && Runs(states, arrange)
    ensures Inv(states[|states| - 1], arrange) && Attended(states[|states| - 1], arrange)
  {
    RunKeepsInv(states, arrange);
    var n := |states|;
    if n > 1 {
      RunKeepsAttended(states[..n - 1], arrange);
      NextKeepsAttended(states[n - 2], states[n - 1], arrange);
    }
  }

  lemma {:induction false} RunningJobsDiffer(states: seq<State>, arrange: set<string> -> seq<string>, i: nat, j: nat)
    requires Arranges(arrange) && Runs(states, arrange)
    requires var jobs := states[|states| - 1].jobs; i < j < |jobs| && jobs[i].running && jobs[j].running
    ensures var jobs := states[|states| - 1].jobs; KeysOf(jobs[i].request) != KeysOf(jobs[j].request)
  {
    RunKeepsAttended(states, arrange);
  }

  // ------------------------------------------------------------ how a read begins

  /** What a read is given for the calls the cache answers: each the value cached for it. */
  ghost predicate FromCache(answers: map<string, Answer>, s: State, calls: seq<Call>, now: int) {
    forall c | c in calls && Live(s.cache, Key(c), now) ::
      Key(c) in answers && answers[Key(c)] == Answer(s.cache[Key(c)].value)
  }

  /** The read awaits this job, for the keys the cache does not answer. */
  ghost predicate Awaits(s: State, t: State, id: nat, calls: seq<Call>, now: int, job: nat) {
    && id in t.waiting && id !in t.done && job < |t.jobs|
    && t.jobs[job].running && KeysOf(t.jobs[job].request) == Misses(s, calls, now)
    && t.waiting == s.waiting[id := t.waiting[id]] && t.done == s.done
    && var w := t.waiting[id];
    && w.job == job && w.calls == calls && w.missing == Misses(s, calls, now) && FromCache(w.answers, s, calls, now)
  }

  /** The read is over at once and nothing else changes. */
  predicate Finishes(s: State, t: State, id: nat) { id in t.done && t == s.(done := s.done[id := t.done[id]]) }

  lemma PartitionMisses(s: State, calls: seq<Call>, now: int, answers: map<string, Answer>, missing: seq<Call>)
    requires Partitioned(s.cache, calls, now, answers, missing)
    ensures KeysOf(missing) == Misses(s, calls, now) && FromCache(answers, s, calls, now)
    ensures missing == [] <==> Misses(s, calls, now) == {}
  {
    forall c | c in calls && Live(s.cache, Key(c), now)
      ensures Key(c) in answers && answers[Key(c)] == Answer(s.cache[Key(c)].value)
    {
      KeySetHas(calls, c);
    }
    if missing != [] { KeySetHas(missing, missing[0]); }
  }

  /** A read that the cache answers is over at once, with what is cached for each of its calls. */
  lemma CachedReadIsAnswered(s: State, t: State, arrange: set<string> -> seq<string>, id: nat, calls: seq<Call>,
                             now: int, permit: Permit)
    requires Begins(s, t, arrange, id, calls, now, permit) && Misses(s, calls, now) == {}
    ensures Finishes(s, t, id) && t.done[id].Answered? && t.done[id].calls == calls
    ensures FromCache(t.done[id].answers, s, calls, now)
  {
    var answers, missing :|
      && Partitioned(s.cache, calls, now, answers, missing)
      && t == Begun(s, arrange, id, calls, permit, answers, missing);
    PartitionMisses(s, calls, now, answers, missing);
  }

  /** A read that misses the keys of a running job joins it, whatever the quota says. */
  lemma MissingReadJoins(s: State, t: State, arrange: set<string> -> seq<string>, id: nat, calls: seq<Call>, now: int,
                         permit: Permit, job: nat)
    requires Attended(s, arrange) && Begins(s, t, arrange, id, calls, now, permit) && Misses(s, calls, now) != {}
    requires job < |s.jobs| && s.jobs[job].running && KeysOf(s.jobs[job].request) == Misses(s, calls, now)
    ensures Awaits(s, t, id, calls, now, job) && t.jobs == s.jobs && t.pending == s.pending
  {
    var answers, missing :|
      && Partitioned(s.cache, calls, now, answers, missing)
      && t == Begun(s, arrange, id, calls, permit, answers, missing);
    PartitionMisses(s, calls, now, answers, missing);
  }

  /** No running job asks for just the keys that the read misses. */
  ghost predicate NoJobFor(s: State, calls: seq<Call>, now: int) {
    forall j | 0 <= j < |s.jobs| && s.jobs[j].running :: KeysOf(s.jobs[j].request) != Misses(s, calls, now)
  }

  lemma NoGroupPending(s: State, arrange: set<string> -> seq<string>, calls: seq<Call>, now: int, missing: seq<Call>)
    requires Arranges(arrange) && Inv(s, arrange) && Attended(s, arrange) && NoJobFor(s, calls, now)
    requires missing != [] && (forall c | c in missing :: Allowed(c)) && KeysOf(missing) == Misses(s, calls, now)
    ensures Group(arrange, KeysOf(missing)) !in s.pending
  {
    if Group(arrange, KeysOf(missing)) in s.pending {
      PendingGroupMatches(s, arrange, missing);
    }
  }

  /** Otherwise it starts a job for exactly those keys, or is refused, or fails, as the quota says. */
  lemma MissingReadAsks(s: State, t: State, arrange: set<string> -> seq<string>, id: nat, calls: seq<Call>, now: int,
                        permit: Permit)
    requires Arranges(arrange) && Inv(s, arrange) && Attended(s, arrange)
    requires Begins(s, t, arrange, id, calls, now, permit)
    requires Misses(s, calls, now) != {} && NoJobFor(s, calls, now)
    ensures permit.Granted? ==>
      && Awaits(s, t, id, calls, now, |s.jobs|)
      && |t.jobs| == |s.jobs| + 1 && t.jobs[..|s.jobs|] == s.jobs
      && DistinctKeys(KeyOf(), t.jobs[|s.jobs|].request)
    ensures permit.Refused? ==> Finishes(s, t, id) && t.done[id] == Exhausted(calls)
    ensures permit.Threw? ==> Finishes(s, t, id) && t.done[id] == Failed(calls)
  {
    var answers, missing :|
      && Partitioned(s.cache, calls, now, answers, missing)
      && t == Begun(s, arrange, id, calls, permit, answers, missing);
    PartitionMisses(s, calls, now, answers, missing);
    NoGroupPending(s, arrange, calls, now, missing);
  }

  // ------------------------------------------------------------ how a job ends

  /** One row for each request: well formed in every respect, each naming a request no other row names. */
  ghost predicate OneRowEach(rows: seq<Row>, n: nat, l: Limits) {
    && |rows| == n
    && (forall j | 0 <= j < n :: UsableRow(rows[j], n, l))
    && (forall i, j | 0 <= i < j < n :: rows[i].id != rows[j].id)
  }

  /** Version 2.0, the id of a request, and either a result without the credential or an integer error code. */
  ghost predicate UsableRow(r: Row, n: nat, l: Limits) {
    && r.isObject && r.version2 && r.id.Num? && 0 <= r.id.n < n
    && ((r.result.Some? && r.error.None? && !l.leaks(r.result.value)) || (r.result.None? && HasErrorCode(r)))
  }

  ghost predicate HasErrorCode(r: Row) {
    r.error.Some? && r.error.value.Obj? && IsSafeInt(Field(r.error.value.fields, "code"))
  }

  /** The row's result, or the code of its error. */
  ghost predicate Says(r: Row, a: Answer) {
    if r.result.Some? then a == Answer(r.result.value)
    else HasErrorCode(r) && a == Answer.Refused(Field(r.error.value.fields, "code").n)
  }

  lemma GoodExactly(rows: seq<Row>, n: nat, l: Limits)
    ensures |rows| == n && GoodRows(rows, |rows|, l, |rows|) <==> OneRowEach(rows, n, l)
  {
    forall j | 0 <= j < |rows| ensures WellFormed(rows[j], n, l) <==> UsableRow(rows[j], n, l) { }
  }

  /**
   * When upstream answers a running job, each read that awaits it is answered if and only if the
   * answer has one usable row for each request, and fails otherwise; the job is over, and no
   * other job and no other read is touched.
   */
  lemma AnsweredExactly(s: State, t: State, arrange: set<string> -> seq<string>, job: nat, rows: seq<Row>, l: Limits,
                        now: int, id: nat)
    requires Settles(s, t, arrange, job, rows, l, now) && id in s.waiting && s.waiting[id].job == job
    ensures id !in t.waiting && id in t.done && t.done[id].calls == s.waiting[id].calls
    ensures if OneRowEach(rows, |s.jobs[job].request|, l) then t.done[id].Answered? else t.done[id].Failed?
  {
    GoodExactly(rows, |s.jobs[job].request|, l);
  }

  lemma RowOfRequest(request: seq<Call>, rows: seq<Row>, l: Limits, values: map<string, Answer>, c: Call)
    returns (j: nat)
    requires Complete(KeyOf(), request, rows, l, values)
    requires Allowed(c) && Key(c) in KeysOf(request) && forall d | d in request :: Allowed(d)
    ensures j < |rows| && rows[j].id.Num? && 0 <= rows[j].id.n < |request| && request[rows[j].id.n] == c
    ensures Key(c) in values && Says(rows[j], values[Key(c)])
  {
    var i :| 0 <= i < |request| && KeyOf()(request[i]) == Key(c);
    assert request[i] in request;
    KeyInjective(request[i], c);
    assert i in Named(rows, |rows|);
    j :| 0 <= j < |rows| && rows[j].id.Num? && rows[j].id.n == i;
    assert WellFormed(rows[j], |request|, l);
  }

  /**
   * A read that is answered has, for each call it missed, what the row said that upstream gave
   * for that very call, and for every other call what the cache gave when the read began.
   */
  lemma AnsweredByItsRow(s: State, t: State, arrange: set<string> -> seq<string>, job: nat, rows: seq<Row>, l: Limits,
                         now: int, id: nat, c: Call) returns (j: nat)
    requires Inv(s, arrange) && Settles(s, t, arrange, job, rows, l, now)
    requires id in s.waiting && s.waiting[id].job == job && c in s.waiting[id].calls
    requires OneRowEach(rows, |s.jobs[job].request|, l)
    ensures id in t.done && t.done[id].Answered? && Key(c) in t.done[id].answers
    ensures if Key(c) in s.waiting[id].missing
      then && j < |rows| && rows[j].id.Num? && 0 <= rows[j].id.n < |s.jobs[job].request|
           && s.jobs[job].request[rows[j].id.n] == c && Says(rows[j], t.done[id].answers[Key(c)])
      else Key(c) in s.waiting[id].answers && t.done[id].answers[Key(c)] == s.waiting[id].answers[Key(c)]
  {
    j := 0;
    var request, w := s.jobs[job].request, s.waiting[id];
    GoodExactly(rows, |request|, l);
    assert WaitingOk(w, s);
    var values := ValuesOf(s, t, arrange, job, rows, l, now, id);
    CompleteOwnsAll(request, rows, l, values);
    if Key(c) in w.missing {
      j := RowOfRequest(request, rows, l, values, c);
    }
  }

  /** What a complete answer gives to the reads of its job. */
  lemma ValuesOf(s: State, t: State, arrange: set<string> -> seq<string>, job: nat, rows: seq<Row>, l: Limits, now: int,
                 id: nat) returns (values: map<string, Answer>)
    requires Settles(s, t, arrange, job, rows, l, now) && id in s.waiting && s.waiting[id].job == job
    requires |rows| == |s.jobs[job].request| && GoodRows(rows, |rows|, l, |rows|)
    ensures Complete(KeyOf(), s.jobs[job].request, rows, l, values)
    ensures id in t.done && t.done[id] == Answered(s.waiting[id].calls, s.waiting[id].answers + values)
  {
    var v: Option<map<string, Answer>> :|
      && v.Some? && Complete(KeyOf(), s.jobs[job].request, rows, l, v.value)
      && t == Ended(s, arrange, job, v).(cache := t.cache, heard := t.heard);
    values := v.value;
  }

  /** A job that breaks fails the reads that await it. */
  lemma BrokenReadsFail(s: State, t: State, arrange: set<string> -> seq<string>, job: nat, id: nat)
    requires Breaks(s, t, arrange, job) && id in s.waiting && s.waiting[id].job == job
    ensures id !in t.waiting && id in t.done && t.done[id] == Failed(s.waiting[id].calls)
  {
  }

  /** The job is over, and nothing else about jobs and reads changes. */
  ghost predicate EndsAlone(s: State, t: State, job: nat) {
    && job < |s.jobs| && t.jobs == s.jobs[job := Job(s.jobs[job].request, false)]
    && (forall g | g in s.pending && s.pending[g] != job :: g in t.pending && t.pending[g] == s.pending[g])
    && (forall g | g in t.pending :: g in s.pending && t.pending[g] != job)
    && (forall id | id in s.waiting && s.waiting[id].job != job :: id in t.waiting && t.waiting[id] == s.waiting[id])
    && (forall id | id in t.waiting :: id in s.waiting && t.waiting[id].job != job)
    && (forall id | id in s.done && id !in s.waiting :: id in t.done && t.done[id] == s.done[id])
  }

  lemma EndedEndsAlone(s: State, arrange: set<string> -> seq<string>, job: nat, values: Option<map<string, Answer>>)
    requires Attended(s, arrange) && job < |s.jobs| && s.jobs[job].running
    ensures EndsAlone(s, Ended(s, arrange, job, values), job)
  {
  }

  /** However a job ends, it leaves the pending ones, and no other job and no other read is touched. */
  lemma JobEndsAlone(s: State, t: State, arrange: set<string> -> seq<string>, job: nat, rows: seq<Row>, l: Limits,
                     now: int)
    requires Attended(s, arrange)
    requires Settles(s, t, arrange, job, rows, l, now) || Breaks(s, t, arrange, job)
    ensures EndsAlone(s, t, job)
  {
    if Breaks(s, t, arrange, job) {
      EndedEndsAlone(s, arrange, job, None);
    } else {
      var values: Option<map<string, Answer>> :|
        t == Ended(s, arrange, job, values).(cache := t.cache, heard := t.heard);
      EndedEndsAlone(s, arrange, job, values);
    }
  }

  // ------------------------------------------------------------ what is cached

  /** An answer that may be cached at all: no null, no block hash, at most 256 KiB. */
  predicate MayKeep(c: Call, value: Json, oversized: bool) { !value.Null? && !c.kind.BlockHash? && !oversized }

  /** A cached header under this hash, not yet expired, ends its set. */
  ghost predicate KnownToEnd(cache: Cache, block: string, now: int) {
    Live(cache, Key(Call(Header, Hash(block))), now) && EndsSet(cache[Key(Call(Header, Hash(block)))].value)
  }

  /** A proof of a block whose header is cached and ends its set. */
  ghost predicate ProvesKnownEnd(cache: Cache, proof: Json, now: int) {
    proof.Str? && |proof.s| >= 66 && IsHash(proof.s[..66]) && KnownToEnd(cache, proof.s[..66], now)
  }

  /** For how many milliseconds an answer is served: 3 seconds, a minute or a week. */
  ghost function ServedFor(cache: Cache, c: Call, value: Json, now: int): int {
    if c.kind.FinalizedHead? then 3_000
    else if c.kind.Block? && value.Obj? && Field(value.fields, "justifications").Null? then 60_000
    else if c.kind.ProveFinality? && !ProvesKnownEnd(cache, value, now) then 60_000
    else 604_800_000
  }

  /** A header that ends its set makes a live proof of its block last a week. */
  ghost predicate Lengthens(c: Call, value: Json, d: Call, proof: Json) {
    && c.kind.Header? && c.arg.Hash? && EndsSet(value)
    && d.kind.ProveFinality? && proof.Str? && |proof.s| >= 66 && proof.s[..66] == c.arg.s
  }

  lemma ProofKeyExactly(d: Call)
    ensures IsProofKey(Key(d)) <==> d.kind.ProveFinality?
  {
    if IsProofKey(Key(d)) {
      ProofKeysAreProofs(d);
    } else {
      KeysStartWithMethod(d);
    }
  }

  /** Whether a call is served from the cache, by an answer stored now or by an earlier one, and which. */
  ghost predicate ServedAfter(cache: Cache, after: Cache, c: Call, value: Json, now: int, d: Call, later: int) {
    if d == c then
      && (Live(after, Key(c), later) <==> later < now + ServedFor(cache, c, value, now))
      && (Live(after, Key(c), later) ==> after[Key(c)].value == value)
    else
      && (Live(after, Key(d), later) <==>
            Live(cache, Key(d), now) && (
              if Lengthens(c, value, d, cache[Key(d)].value) then later < now + 604_800_000
              else Live(cache, Key(d), later)))
      && (Live(after, Key(d), later) ==> after[Key(d)].value == cache[Key(d)].value)
  }

  lemma OwnAnswerIsServed(cache: Cache, c: Call, value: Json, now: int, later: int)
    requires Allowed(c) && later >= now && MayKeep(c, value, false)
    ensures ServedAfter(cache, Put(cache, c, value, false, now), c, value, now, c, later)
  {
    ProofKeyExactly(c);
  }

  lemma OthersAreServed(cache: Cache, c: Call, value: Json, now: int, d: Call, later: int)
    requires Allowed(c) && Allowed(d) && d != c && later >= now && MayKeep(c, value, false)
    ensures ServedAfter(cache, Put(cache, c, value, false, now), c, value, now, d, later)
  {
    ProofKeyExactly(d);
    if Key(c) == Key(d) { KeyInjective(c, d); }
  }

  /**
   * Storing an answer: from then on its call is served with it exactly until its time is over,
   * live proofs of a block now known to end its set are served for another week, and every other
   * call is served as before. An answer that may not be kept changes nothing.
   */
  lemma StoredIsServedExactly(cache: Cache, c: Call, value: Json, oversized: bool, now: int, d: Call, later: int)
    requires Allowed(c) && Allowed(d) && later >= now
    ensures if MayKeep(c, value, oversized)
      then ServedAfter(cache, Put(cache, c, value, oversized, now), c, value, now, d, later)
      else Put(cache, c, value, oversized, now) == cache
  {
    if MayKeep(c, value, oversized) {
      if d == c {
        OwnAnswerIsServed(cache, c, value, now, later);
      } else {
        OthersAreServed(cache, c, value, now, d, later);
      }
    }
  }

  ghost predicate Serves(cache: Cache, c: Call, value: Json, later: int) {
    Live(cache, Key(c), later) && cache[Key(c)].value == value
  }

  /** The shortest time for which an answer that may be kept is served. */
  function ServedAtLeast(c: Call, value: Json): int {
    if c.kind.FinalizedHead? then 3_000
    else if c.kind.ProveFinality? || (c.kind.Block? && value.Obj? && Field(value.fields, "justifications").Null?)
    then 60_000 else 604_800_000
  }

  lemma StoringMoreStillServes(cache: Cache, c: Call, value: Json, l: Limits, now: int, d: Call, v: Json, later: int)
    requires Allowed(c) && Allowed(d) && d != c && now <= later < now + 604_800_000 && Serves(cache, d, v, later)
    ensures Serves(Keep(l, now)(cache, c, value), d, v, later)
  {
    StoredIsServedExactly(cache, c, value, l.oversized(value), now, d, later);
  }

  lemma StoringServes(cache: Cache, c: Call, value: Json, l: Limits, now: int, later: int)
    requires Allowed(c) && MayKeep(c, value, l.oversized(value)) && now <= later < now + ServedAtLeast(c, value)
    ensures Serves(Keep(l, now)(cache, c, value), c, value, later)
  {
    StoredIsServedExactly(cache, c, value, l.oversized(value), now, c, later);
  }

  /** What one row says about its call is served after it is stored. */
  lemma RowServes(cache: Cache, request: seq<Call>, r: Row, l: Limits, now: int, later: int)
    requires WellFormed(r, |request|, l) && r.result.Some? && forall c | c in request :: Allowed(c)
    requires MayKeep(request[r.id.n], r.result.value, l.oversized(r.result.value))
    requires now <= later < now + ServedAtLeast(request[r.id.n], r.result.value)
    ensures Serves(StoreRow(Keep(l, now), cache, request, r), request[r.id.n], r.result.value, later)
  {
    assert request[r.id.n] in request;
    StoringServes(cache, request[r.id.n], r.result.value, l, now, later);
  }

  /** What is served for a call still is after a row for another one. */
  lemma OtherRowStillServes(cache: Cache, request: seq<Call>, r: Row, l: Limits, now: int, d: Call, v: Json, later: int)
    requires WellFormed(r, |request|, l) && request[r.id.n] != d && Allowed(d) && forall c | c in request :: Allowed(c)
    requires Serves(cache, d, v, later) && now <= later < now + 604_800_000
    ensures Serves(StoreRow(Keep(l, now), cache, request, r), d, v, later)
  {
    if r.result.Some? {
      assert request[r.id.n] in request;
      StoringMoreStillServes(cache, request[r.id.n], r.result.value, l, now, d, v, later);
    }
  }

  lemma OtherRowsNameOthers(request: seq<Call>, rows: seq<Row>, l: Limits, upto: nat, i: nat, j: nat)
    requires i < j < upto <= |rows| && GoodRows(rows, |request|, l, upto) && DistinctKeys(KeyOf(), request)
    ensures WellFormed(rows[i], |request|, l) && WellFormed(rows[j], |request|, l)
    ensures request[rows[i].id.n] != request[rows[j].id.n]
  {
    assert rows[i].id != rows[j].id;
    assert KeyOf()(request[rows[i].id.n]) != KeyOf()(request[rows[j].id.n]);
  }

  lemma {:induction false} StoredRowIsServed(cache: Cache, request: seq<Call>, rows: seq<Row>, l: Limits, upto: nat,
                                             now: int, j: nat, c: Call, v: Json, later: int)
    requires j < upto <= |rows| && GoodRows(rows, |request|, l, upto) && DistinctKeys(KeyOf(), request)
    requires forall d | d in request :: Allowed(d)
    requires WellFormed(rows[j], |request|, l) && rows[j].result == Some(v) && request[rows[j].id.n] == c
    requires MayKeep(c, v, l.oversized(v)) && now <= later < now + ServedAtLeast(c, v)
    ensures Serves(Stored(Keep(l, now), cache, request, rows, upto), c, v, later)
  {
    var before := Stored(Keep(l, now), cache, request, rows, upto - 1);
    if j == upto - 1 {
      RowServes(before, request, rows[j], l, now, later);
    } else {
      StoredRowIsServed(cache, request, rows, l, upto - 1, now, j, c, v, later);
      OtherRowsNameOthers(request, rows, l, upto, j, upto - 1);
      assert c in request;
      OtherRowStillServes(before, request, rows[upto - 1], l, now, c, v, later);
    }
  }

  /**
   * What a usable answer says about a call, if it may be kept, answers later reads of the call
   * without another job: for 3 seconds, a minute or a week, unless the row is evicted.
   */
  lemma SettledAnswerIsServed(s: State, t: State, arrange: set<string> -> seq<string>, job: nat, rows: seq<Row>,
                              l: Limits, now: int, j: nat, later: int)
    requires Inv(s, arrange) && Settles(s, t, arrange, job, rows, l, now)
    requires OneRowEach(rows, |s.jobs[job].request|, l) && j < |rows| && rows[j].result.Some?
    requires var c, v := s.jobs[job].request[rows[j].id.n], rows[j].result.value;
      MayKeep(c, v, l.oversized(v)) && now <= later < now + ServedAtLeast(c, v)
    ensures Serves(t.cache, s.jobs[job].request[rows[j].id.n], rows[j].result.value, later)
  {
    var request := s.jobs[job].request;
    GoodExactly(rows, |request|, l);
    forall c | c in request ensures Allowed(c) { assert s.jobs[job].request == request; }
    StoredRowIsServed(s.cache, request, rows, l, |rows|, now, j, request[rows[j].id.n], rows[j].result.value, later);
  }
}
