/**
 * src/routes/midnight-read-rpc.ts, lines 172-212, over whole runs: reads start, share jobs,
 * jobs settle in any order, fail or are refused, cache rows vanish at any time, and the
 * process restarts on the cache it left.
 */
module ReadRuns {
  import opened Common
  import opened Json
  import opened ReadCalls
  import opened ReadFlight

  /** An upstream job: the calls it sends, in order, and whether it is still running. */
  datatype Job = Job(request: seq<Call>, running: bool)

  /** A read awaiting a job: what the cache gave it, and the keys it still misses. */
  datatype Waiting = Waiting(calls: seq<Call>, answers: map<string, Answer>, missing: set<string>, job: nat)

  datatype Done = Answered(calls: seq<Call>, answers: map<string, Answer>) | Exhausted(calls: seq<Call>)
    | Failed(calls: seq<Call>)

  datatype State = State(
    cache: Cache,
    jobs: seq<Job>,
    pending: map<string, nat>,   // group name to running job
    waiting: map<nat, Waiting>,
    done: map<nat, Done>,
    heard: Heard)                // history: what upstream ever answered, and to which call

  const INITIAL := State(map[], [], map[], map[], map[], {})

  function Keep(l: Limits, now: int): (Cache, Call, Json) -> Cache {
    (cache: Cache, c: Call, v: Json) => Put(cache, c, v, l.oversized(v), now)
  }

  function After(w: Waiting, values: Option<map<string, Answer>>): Done {
    if values.Some? then Answered(w.calls, w.answers + values.value) else Failed(w.calls)
  }

  /** What the first `upto` rows of an answer tell about the calls they were requested for. */
  function Told(request: seq<Call>, rows: seq<Row>, l: Limits, upto: nat): Heard
    requires upto <= |rows|
  {
    set j | 0 <= j < upto && WellFormed(rows[j], |request|, l) ::
      (request[rows[j].id.n], AnswerOf(rows[j], |request|, l))
  }

  // ------------------------------------------------------------ steps

  ghost predicate Partitioned(cache: Cache, calls: seq<Call>, now: int, answers: map<string, Answer>,
      missing: seq<Call>) {
    && answers.Keys == LiveKeys(cache, KeySet(KeyOf(), calls), now)
    && (forall k | k in answers :: answers[k] == Answer(cache[k].value))
    && DistinctKeys(KeyOf(), missing) && (forall c | c in missing :: c in calls)
    && KeySet(KeyOf(), missing) == KeySet(KeyOf(), calls) - answers.Keys
  }

  /** What `reserve` does: it returns true, returns false, or throws. */
  datatype Permit = Granted | Refused | Threw

  /** A read up to its await; `permit` is the quota's answer, asked only for a new job. */
  function Begun(s: State, arrange: set<string> -> seq<string>, id: nat, calls: seq<Call>, permit: Permit,
                 answers: map<string, Answer>, missing: seq<Call>): State
  {
    var keys := KeySet(KeyOf(), missing);
    var group := Group(arrange, keys);
    if missing == [] then s.(done := s.done[id := Answered(calls, answers)])
    else if group in s.pending then s.(waiting := s.waiting[id := Waiting(calls, answers, keys, s.pending[group])])
    else if permit.Refused? then s.(done := s.done[id := Exhausted(calls)])
    else if permit.Threw? then s.(done := s.done[id := Failed(calls)])
    else
      s.(jobs := s.jobs + [Job(missing, true)], pending := s.pending[group := |s.jobs|],
         waiting := s.waiting[id := Waiting(calls, answers, keys, |s.jobs|)])
  }

  ghost predicate Begins(s: State, t: State, arrange: set<string> -> seq<string>, id: nat, calls: seq<Call>, now: int,
      permit: Permit) {
    && id !in s.waiting && id !in s.done && (forall c | c in calls :: Allowed(c))
    && exists answers, missing ::
        && Partitioned(s.cache, calls, now, answers, missing)
        && t == Begun(s, arrange, id, calls, permit, answers, missing)
  }

  /** A job ends: every read waiting for it is answered, or fails with it. */
  function Ended(s: State, arrange: set<string> -> seq<string>, job: nat, values: Option<map<string, Answer>>): State
    requires job < |s.jobs|
  {
    s.(jobs := s.jobs[job := s.jobs[job].(running := false)],
       pending := s.pending - {Group(arrange, KeySet(KeyOf(), s.jobs[job].request))},
       waiting := map id | id in s.waiting && s.waiting[id].job != job :: s.waiting[id],
       done := s.done + map id | id in s.waiting && s.waiting[id].job == job :: After(s.waiting[id], values))
  }

  /** Upstream's answer arrives and is read. */
  ghost predicate Settles(s: State, t: State, arrange: set<string> -> seq<string>, job: nat, rows: seq<Row>, l: Limits,
      now: int) {
    && job < |s.jobs| && s.jobs[job].running
    && exists values: Option<map<string, Answer>>, read: nat ::
        && read <= |rows| && ReadsTo(rows, |s.jobs[job].request|, l, read)
        && (values.Some? <==> |rows| == |s.jobs[job].request| && GoodRows(rows, |rows|, l, |rows|))
        && (values.Some? ==> read == |rows| && Complete(KeyOf(), s.jobs[job].request, rows, l, values.value))
        && t == Ended(s, arrange, job, values).(
                  cache := Stored(Keep(l, now), s.cache, s.jobs[job].request, rows, read),
                  heard := s.heard + Told(s.jobs[job].request, rows, l, read))
  }

  /** No usable answer arrives: a failed fetch, the deadline, a bad status or text. */
  predicate Breaks(s: State, t: State, arrange: set<string> -> seq<string>, job: nat) {
    job < |s.jobs| && s.jobs[job].running && t == Ended(s, arrange, job, None)
  }

  predicate Evicts(s: State, t: State) {
    t == s.(cache := t.cache) && forall k | k in t.cache :: k in s.cache && s.cache[k] == t.cache[k]
  }

  /** The process dies and a new one opens the cache; finished reads stay on record. */
  predicate Restarts(s: State, t: State) {
    t == s.(cache := Reopened(s.cache), jobs := [], pending := map[], waiting := map[])
  }

  ghost predicate Next(s: State, t: State, arrange: set<string> -> seq<string>) {
    || (exists id, calls, now, permit :: Begins(s, t, arrange, id, calls, now, permit))
    || (exists job, rows, l, now :: Settles(s, t, arrange, job, rows, l, now))
    || (exists job :: Breaks(s, t, arrange, job))
    || Evicts(s, t)
    || Restarts(s, t)
  }

  /** The service's variables; `waiting` and `done` are the reads suspended on a job and finished. */
  class UpstreamReads {
    const arrange: set<string> -> seq<string>
    var cache: Cache
    var jobs: seq<Job>
    var pending: map<string, nat>
    var waiting: map<nat, Waiting>
    var done: map<nat, Done>
    ghost var heard: Heard

    ghost function Now(): State
      reads this
    {
      State(cache, jobs, pending, waiting, done, heard)
    }

    /** Startup on a cache an earlier process left; `told` is what upstream had answered by then. */
    constructor (arrange: set<string> -> seq<string>, stored: Cache, ghost told: Heard)
      ensures Now() == INITIAL.(cache := Reopened(stored), heard := told) && this.arrange == arrange
      ensures OldCacheOk(stored, told) ==> Inv(Now(), arrange)
    {
      this.arrange := arrange;
      cache, jobs, pending, waiting, done, heard := Reopened(stored), [], map[], map[], map[], told;
      new;
      if OldCacheOk(stored, told) { ReopeningKeepsCacheOk(stored, told); }
    }

    /** `read` up to its await. */
    method Begin(id: nat, calls: seq<Call>, now: int, permit: Permit)
      requires id !in waiting && id !in done && forall c | c in calls :: Allowed(c)
      modifies this
      ensures Begins(old(Now()), Now(), arrange, id, calls, now, permit)
    {
      var answers, missing := Partition(KeyOf(), cache, calls, now);
      assert Partitioned(cache, calls, now, answers, missing);
      if missing == [] {
        done := done[id := Answered(calls, answers)];
        return;
      }
      var keys := KeySet(KeyOf(), missing);
      var group := Group(arrange, keys);
      if group !in pending {
        if permit.Refused? {
          done := done[id := Exhausted(calls)];
          return;
        }
        if permit.Threw? {
          done := done[id := Failed(calls)];
          return;
        }
        pending := pending[group := |jobs|];
        jobs := jobs + [Job(missing, true)];
      }
      waiting := waiting[id := Waiting(calls, answers, keys, pending[group])];
    }

    /** The end of a job: it leaves `pending`, and the reads awaiting it go on. */
    method End(job: nat, values: Option<map<string, Answer>>)
      requires job < |jobs|
      modifies this
      ensures Now() == Ended(old(Now()), arrange, job, values)
    {
      pending := pending - {Group(arrange, KeySet(KeyOf(), jobs[job].request))};
      jobs := jobs[job := jobs[job].(running := false)];
      done := done + map id | id in waiting && waiting[id].job == job :: After(waiting[id], values);
      waiting := map id | id in waiting && waiting[id].job != job :: waiting[id];
    }

    /** Upstream's answer to a running job. */
    method Settle(job: nat, rows: seq<Row>, l: Limits, now: int)
      requires job < |jobs| && jobs[job].running && DistinctKeys(KeyOf(), jobs[job].request)
      modifies this
      ensures Settles(old(Now()), Now(), arrange, job, rows, l, now)
    {
      ghost var before := Now();
      var values, after, read := Receive(KeyOf(), Keep(l, now), cache, jobs[job].request, rows, l);
      cache := after;
      heard := heard + Told(jobs[job].request, rows, l, read);
      End(job, values);
      assert Now() == Ended(before, arrange, job, values).(cache := after,
        heard := before.heard + Told(before.jobs[job].request, rows, l, read));
    }
  }

  // ------------------------------------------------------------ invariant

  /** The answer stored under a call's key was upstream's answer to that very call. */
  ghost predicate Owns(answers: map<string, Answer>, c: Call, heard: Heard) {
    Key(c) in answers && (c, answers[Key(c)]) in heard
  }

  ghost predicate WaitingOk(w: Waiting, s: State) {
    && w.job < |s.jobs|
    && w.missing == KeySet(KeyOf(), s.jobs[w.job].request)
    && (forall c | c in w.calls :: Allowed(c) && (Owns(w.answers, c, s.heard) || Key(c) in w.missing))
  }

  ghost predicate Inv(s: State, arrange: set<string> -> seq<string>) {
    && CacheOk(s.cache, s.heard)
    && (forall j | 0 <= j < |s.jobs| :: s.jobs[j].request != [] && DistinctKeys(KeyOf(), s.jobs[j].request))
    && (forall j, c | 0 <= j < |s.jobs| && c in s.jobs[j].request :: Allowed(c))
    && (forall g | g in s.pending ::
          s.pending[g] < |s.jobs| && g == Group(arrange, KeySet(KeyOf(), s.jobs[s.pending[g]].request)))
    && (forall id | id in s.waiting :: WaitingOk(s.waiting[id], s))
    && (forall id | id in s.done && s.done[id].Answered? ::
          forall c | c in s.done[id].calls :: Owns(s.done[id].answers, c, s.heard))
  }

  lemma KeySetHas(calls: seq<Call>, c: Call)
    requires c in calls
    ensures Key(c) in KeySet(KeyOf(), calls)
  {
    var i :| 0 <= i < |calls| && calls[i] == c;
    assert KeyOf()(calls[i]) == Key(c);
  }

  /** What the cache gave and what is missing cover a read's calls. */
  lemma PartitionCovers(s: State, calls: seq<Call>, now: int, answers: map<string, Answer>, missing: seq<Call>, c: Call)
    requires CacheOk(s.cache, s.heard) && Partitioned(s.cache, calls, now, answers, missing)
    requires c in calls && Allowed(c)
    ensures Owns(answers, c, s.heard) || Key(c) in KeySet(KeyOf(), missing)
  {
    KeySetHas(calls, c);
  }

  /** A group that is pending is a job for the very keys that are missing. */
  lemma PendingGroupMatches(s: State, arrange: set<string> -> seq<string>, missing: seq<Call>)
    requires Arranges(arrange) && Inv(s, arrange) && missing != [] && (forall c | c in missing :: Allowed(c))
    requires Group(arrange, KeySet(KeyOf(), missing)) in s.pending
    ensures var job := s.pending[Group(arrange, KeySet(KeyOf(), missing))];
      job < |s.jobs| && KeySet(KeyOf(), s.jobs[job].request) == KeySet(KeyOf(), missing)
  {
    var request := s.jobs[s.pending[Group(arrange, KeySet(KeyOf(), missing))]].request;
    forall c | c in missing + request ensures Allowed(c) {
      assert c in missing || c in request;
    }
    GroupInjective(arrange, missing, request);
  }

  lemma WaitingStays(s: State, t: State, w: Waiting)
    requires WaitingOk(w, s) && t.heard == s.heard && |s.jobs| <= |t.jobs| && t.jobs[..|s.jobs|] == s.jobs
    ensures WaitingOk(w, t)
  {
    assert t.jobs[w.job] == t.jobs[..|s.jobs|][w.job];
  }

  /** A read that waits, for a running job or for the one it adds at the end. */
  lemma WaitKeepsInv(s: State, t: State, arrange: set<string> -> seq<string>, id: nat, w: Waiting)
    requires Inv(s, arrange) && t.cache == s.cache && t.heard == s.heard && t.done == s.done
       && t.waiting == s.waiting[id := w]
    requires |s.jobs| <= |t.jobs| && t.jobs[..|s.jobs|] == s.jobs
    requires forall j | |s.jobs| <= j < |t.jobs| ::
      t.jobs[j].request != [] && DistinctKeys(KeyOf(), t.jobs[j].request)
    requires forall j, c | |s.jobs| <= j < |t.jobs| && c in t.jobs[j].request :: Allowed(c)
    requires forall g | g in t.pending ::
      t.pending[g] < |t.jobs| && g == Group(arrange, KeySet(KeyOf(), t.jobs[t.pending[g]].request))
    requires WaitingOk(w, t)
    ensures Inv(t, arrange)
  {
    forall j | 0 <= j < |t.jobs| ensures t.jobs[j].request != [] && DistinctKeys(KeyOf(), t.jobs[j].request)
      ensures forall c | c in t.jobs[j].request :: Allowed(c)
    {
      if j < |s.jobs| { assert t.jobs[j] == t.jobs[..|s.jobs|][j]; }
    }
    forall i | i in t.waiting ensures WaitingOk(t.waiting[i], t) {
      if i != id { WaitingStays(s, t, s.waiting[i]); }
    }
  }

  lemma BeginKeepsInv(s: State, arrange: set<string> -> seq<string>, id: nat, calls: seq<Call>, now: int,
                      permit: Permit, answers: map<string, Answer>, missing: seq<Call>)
    requires Arranges(arrange) && Inv(s, arrange) && id !in s.waiting && id !in s.done
    requires forall c | c in calls :: Allowed(c)
    requires Partitioned(s.cache, calls, now, answers, missing)
    ensures Inv(Begun(s, arrange, id, calls, permit, answers, missing), arrange)
  {
    var t := Begun(s, arrange, id, calls, permit, answers, missing);
    forall c | c in calls ensures Owns(answers, c, s.heard) || Key(c) in KeySet(KeyOf(), missing) {
      PartitionCovers(s, calls, now, answers, missing, c);
    }
    if id !in t.waiting {
      assert missing == [] ==> KeySet(KeyOf(), missing) == {};
      DoneKeepsInv(s, t, arrange);
    } else if Group(arrange, KeySet(KeyOf(), missing)) in s.pending {
      JoinKeepsInv(s, arrange, id, calls, answers, missing);
    } else {
      StartKeepsInv(s, arrange, id, calls, answers, missing);
    }
  }

  /** A read covered by its answers and its missing keys. */
  ghost predicate Covers(s: State, calls: seq<Call>, answers: map<string, Answer>, missing: seq<Call>) {
    && missing != [] && DistinctKeys(KeyOf(), missing) && (forall c | c in missing :: Allowed(c))
    && (forall c | c in calls :: Allowed(c) && (Owns(answers, c, s.heard) || Key(c) in KeySet(KeyOf(), missing)))
  }

  lemma JoinKeepsInv(s: State, arrange: set<string> -> seq<string>, id: nat, calls: seq<Call>,
      answers: map<string, Answer>, missing: seq<Call>)
    requires Arranges(arrange) && Inv(s, arrange) && Covers(s, calls, answers, missing)
    requires Group(arrange, KeySet(KeyOf(), missing)) in s.pending
    ensures var keys := KeySet(KeyOf(), missing);
      Inv(s.(waiting := s.waiting[id := Waiting(calls, answers, keys, s.pending[Group(arrange, keys)])]), arrange)
  {
    var keys := KeySet(KeyOf(), missing);
    var w := Waiting(calls, answers, keys, s.pending[Group(arrange, keys)]);
    PendingGroupMatches(s, arrange, missing);
    assert s.jobs[..|s.jobs|] == s.jobs;
    WaitKeepsInv(s, s.(waiting := s.waiting[id := w]), arrange, id, w);
  }

  lemma StartKeepsInv(s: State, arrange: set<string> -> seq<string>, id: nat, calls: seq<Call>,
      answers: map<string, Answer>, missing: seq<Call>)
    requires Inv(s, arrange) && Covers(s, calls, answers, missing)
    ensures var keys := KeySet(KeyOf(), missing);
      Inv(s.(jobs := s.jobs + [Job(missing, true)], pending := s.pending[Group(arrange, keys) := |s.jobs|],
             waiting := s.waiting[id := Waiting(calls, answers, keys, |s.jobs|)]), arrange)
  {
    var keys := KeySet(KeyOf(), missing);
    var w := Waiting(calls, answers, keys, |s.jobs|);
    var t := s.(jobs := s.jobs + [Job(missing, true)], pending := s.pending[Group(arrange, keys) := |s.jobs|],
      waiting := s.waiting[id := w]);
    WaitKeepsInv(s, t, arrange, id, w);
  }

  lemma DoneKeepsInv(s: State, t: State, arrange: set<string> -> seq<string>)
    requires Inv(s, arrange) && t == s.(done := t.done)
    requires forall id | id in t.done && t.done[id].Answered? ::
      forall c | c in t.done[id].calls :: Owns(t.done[id].answers, c, t.heard)
    ensures Inv(t, arrange)
  {
    forall i | i in t.waiting ensures WaitingOk(t.waiting[i], t) { WaitingStays(s, t, s.waiting[i]); }
  }

  /** An answer read to its end gives each waiting read its own calls' answers. */
  lemma CompleteOwns(request: seq<Call>, rows: seq<Row>, l: Limits, values: map<string, Answer>, c: Call)
    requires Complete(KeyOf(), request, rows, l, values)
    requires Allowed(c) && Key(c) in KeySet(KeyOf(), request) && forall d | d in request :: Allowed(d)
    ensures Owns(values, c, Told(request, rows, l, |rows|))
  {
    var i :| 0 <= i < |request| && KeyOf()(request[i]) == Key(c);
    assert request[i] in request;
    KeyInjective(request[i], c);
    assert i in Named(rows, |rows|);
    var j :| 0 <= j < |rows| && rows[j].id.Num? && rows[j].id.n == i;
    assert (request[rows[j].id.n], AnswerOf(rows[j], |request|, l)) in Told(request, rows, l, |rows|);
  }

  lemma StoringRowKeepsCacheOk(cache: Cache, heard: Heard, request: seq<Call>, r: Row, l: Limits, now: int)
    requires WellFormed(r, |request|, l) && CacheOk(cache, heard)
    requires Allowed(request[r.id.n]) && (request[r.id.n], AnswerOf(r, |request|, l)) in heard
    ensures CacheOk(StoreRow(Keep(l, now), cache, request, r), heard)
  {
    if r.result.Some? {
      PutKeepsCacheOk(cache, heard, request[r.id.n], r.result.value, l.oversized(r.result.value), now);
    }
  }

  lemma StoringKeepsCacheOk(cache: Cache, heard: Heard, request: seq<Call>, rows: seq<Row>, l: Limits, upto: nat,
      now: int)
    requires upto <= |rows| && CacheOk(cache, heard)
    requires forall c | c in request :: Allowed(c)
    requires forall j | 0 <= j < upto ::
      WellFormed(rows[j], |request|, l) && (request[rows[j].id.n], AnswerOf(rows[j], |request|, l)) in heard
    ensures CacheOk(Stored(Keep(l, now), cache, request, rows, upto), heard)
  {
    var ok := (kept: Cache) => CacheOk(kept, heard);
    forall j, kept | 0 <= j < upto && ok(kept) ensures ok(StoreRow(Keep(l, now), kept, request, rows[j])) {
      assert request[rows[j].id.n] in request;
      StoringRowKeepsCacheOk(kept, heard, request, rows[j], l, now);
    }
    StoringKeeps(Keep(l, now), cache, request, rows, upto, ok);
  }

  lemma EndKeepsInv(s: State, arrange: set<string> -> seq<string>, job: nat, values: Option<map<string, Answer>>,
      cache: Cache, heard: Heard)
    requires Inv(s, arrange) && job < |s.jobs| && s.heard <= heard && CacheOk(cache, heard)
    requires values.Some? ==> forall c | Allowed(c) && Key(c) in KeySet(KeyOf(), s.jobs[job].request) ::
      Owns(values.value, c, heard)
    requires values.Some? ==> values.value.Keys == KeySet(KeyOf(), s.jobs[job].request)
    ensures Inv(Ended(s, arrange, job, values).(cache := cache, heard := heard), arrange)
  {
    var t := Ended(s, arrange, job, values).(cache := cache, heard := heard);
    forall id | id in t.waiting ensures WaitingOk(t.waiting[id], t) {
      assert WaitingOk(s.waiting[id], s);
    }
    forall id, c | id in t.done && t.done[id].Answered? && c in t.done[id].calls
      ensures Owns(t.done[id].answers, c, t.heard)
    {
      if id in s.waiting && s.waiting[id].job == job {
        var w := s.waiting[id];
        assert WaitingOk(w, s);
        assert t.done[id] == After(w, values);
        assert Allowed(c) && (Owns(w.answers, c, s.heard) || Key(c) in w.missing);
      } else {
        assert Owns(s.done[id].answers, c, s.heard);
      }
    }
  }

  /** A complete answer owns every call whose key it was requested under, and has no other key. */
  lemma CompleteOwnsAll(request: seq<Call>, rows: seq<Row>, l: Limits, values: map<string, Answer>)
    requires Complete(KeyOf(), request, rows, l, values) && forall d | d in request :: Allowed(d)
    ensures forall c | Allowed(c) && Key(c) in KeySet(KeyOf(), request) ::
      Owns(values, c, Told(request, rows, l, |rows|))
    ensures values.Keys == KeySet(KeyOf(), request)
  {
    forall c | Allowed(c) && Key(c) in KeySet(KeyOf(), request)
      ensures Owns(values, c, Told(request, rows, l, |rows|))
    {
      CompleteOwns(request, rows, l, values, c);
    }
    forall k | k in KeySet(KeyOf(), request) ensures k in values {
      var i :| 0 <= i < |request| && KeyOf()(request[i]) == k;
      assert request[i] in request && Owns(values, request[i], Told(request, rows, l, |rows|));
    }
  }

  lemma SettleKeepsInv(s: State, t: State, arrange: set<string> -> seq<string>, job: nat, rows: seq<Row>, l: Limits,
      now: int)
    requires Inv(s, arrange) && Settles(s, t, arrange, job, rows, l, now)
    ensures Inv(t, arrange) && s.heard <= t.heard
  {
    var request := s.jobs[job].request;
    var values: Option<map<string, Answer>>, read: nat :|
      && read <= |rows| && ReadsTo(rows, |request|, l, read)
      && (values.Some? <==> |rows| == |request| && GoodRows(rows, |rows|, l, |rows|))
      && (values.Some? ==> read == |rows| && Complete(KeyOf(), request, rows, l, values.value))
      && t == Ended(s, arrange, job, values).(
                cache := Stored(Keep(l, now), s.cache, request, rows, read),
                heard := s.heard + Told(request, rows, l, read));
    HearingMoreKeepsCacheOk(s.cache, s.heard, t.heard);
    forall j | 0 <= j < read ensures (request[rows[j].id.n], AnswerOf(rows[j], |request|, l)) in t.heard {
      assert WellFormed(rows[j], |request|, l);
      assert (request[rows[j].id.n], AnswerOf(rows[j], |request|, l)) in Told(request, rows, l, read);
    }
    StoringKeepsCacheOk(s.cache, t.heard, request, rows, l, read, now);
    if values.Some? {
      CompleteOwnsAll(request, rows, l, values.value);
    }
    EndKeepsInv(s, arrange, job, values, t.cache, t.heard);
  }

  lemma EvictKeepsInv(s: State, t: State, arrange: set<string> -> seq<string>)
    requires Inv(s, arrange) && Evicts(s, t)
    ensures Inv(t, arrange)
  {
    forall id | id in t.waiting ensures WaitingOk(t.waiting[id], t) { assert WaitingOk(s.waiting[id], s); }
  }

  lemma BeginsKeepsInv(s: State, t: State, arrange: set<string> -> seq<string>, id: nat, calls: seq<Call>, now: int,
      permit: Permit)
    requires Arranges(arrange) && Inv(s, arrange) && Begins(s, t, arrange, id, calls, now, permit)
    ensures Inv(t, arrange) && s.heard <= t.heard
  {
    var answers, missing :|
      && Partitioned(s.cache, calls, now, answers, missing)
      && t == Begun(s, arrange, id, calls, permit, answers, missing);
    BeginKeepsInv(s, arrange, id, calls, now, permit, answers, missing);
  }

  lemma BreaksKeepsInv(s: State, t: State, arrange: set<string> -> seq<string>, job: nat)
    requires Inv(s, arrange) && Breaks(s, t, arrange, job)
    ensures Inv(t, arrange) && s.heard <= t.heard
  {
    EndKeepsInv(s, arrange, job, None, s.cache, s.heard);
  }

  lemma {:induction false} NextKeepsInv(s: State, t: State, arrange: set<string> -> seq<string>)
    requires Arranges(arrange) && Inv(s, arrange) && Next(s, t, arrange)
    ensures Inv(t, arrange) && s.heard <= t.heard
  {
    if Evicts(s, t) {
      EvictKeepsInv(s, t, arrange);
    } else if Restarts(s, t) {
      CacheOkIsOldCacheOk(s.cache, s.heard);
      ReopeningKeepsCacheOk(s.cache, s.heard);
    } else if job: nat :| Breaks(s, t, arrange, job) {
      BreaksKeepsInv(s, t, arrange, job);
    } else if job: nat, rows, l, now :| Settles(s, t, arrange, job, rows, l, now) {
      SettleKeepsInv(s, t, arrange, job, rows, l, now);
    } else {
      var id, calls, now, permit :| Begins(s, t, arrange, id, calls, now, permit);
      BeginsKeepsInv(s, t, arrange, id, calls, now, permit);
    }
  }

  /** A run from a first startup, on a cache that processes before it left, through any restarts. */
  ghost predicate Runs(states: seq<State>, arrange: set<string> -> seq<string>) {
    && states != []
    && (exists stored :: OldCacheOk(stored, states[0].heard) &&
          states[0] == INITIAL.(cache := Reopened(stored), heard := states[0].heard))
    && forall i | 0 < i < |states| :: Next(states[i - 1], states[i], arrange)
  }

  lemma {:induction false} RunKeepsInv(states: seq<State>, arrange: set<string> -> seq<string>)
    requires Arranges(arrange) && Runs(states, arrange)
    ensures Inv(states[|states| - 1], arrange)
  {
    var n := |states|;
    if n > 1 {
      RunKeepsInv(states[..n - 1], arrange);
      NextKeepsInv(states[n - 2], states[n - 1], arrange);
    } else {
      var stored :| OldCacheOk(stored, states[0].heard) &&
        states[0] == INITIAL.(cache := Reopened(stored), heard := states[0].heard);
      ReopeningKeepsCacheOk(stored, states[0].heard);
    }
  }

  /**
   * Whenever a read succeeds, each of its calls has an answer upstream gave to that call's own
   * method and params, whoever asked for it and whatever ran in between.
   */
  lemma {:induction false} EveryCallGetsItsOwnAnswer(states: seq<State>, arrange: set<string> -> seq<string>, id: nat,
      c: Call)
    requires Arranges(arrange) && Runs(states, arrange)
    requires var s := states[|states| - 1]; id in s.done && s.done[id].Answered? && c in s.done[id].calls
    ensures var s := states[|states| - 1];
      Key(c) in s.done[id].answers && (c, s.done[id].answers[Key(c)]) in s.heard
  {
    RunKeepsInv(states, arrange);
  }

  /** Reads that wait for one job miss exactly the keys the job asks for, so the same keys. */
  lemma {:induction false} SharedJobsHaveEqualKeys(states: seq<State>, arrange: set<string> -> seq<string>, a: nat,
      b: nat)
    requires Arranges(arrange) && Runs(states, arrange)
    requires var s := states[|states| - 1]; a in s.waiting && b in s.waiting && s.waiting[a].job == s.waiting[b].job
    ensures var s := states[|states| - 1];
      s.waiting[a].job < |s.jobs| &&
      s.waiting[a].missing == s.waiting[b].missing == KeySet(KeyOf(), s.jobs[s.waiting[a].job].request)
  {
    RunKeepsInv(states, arrange);
    var s := states[|states| - 1];
    assert WaitingOk(s.waiting[a], s) && WaitingOk(s.waiting[b], s);
  }

  /**
   * What the cache serves at `now` is never stale: a finalized head is under 3 seconds old, an
   * unjustified block and a finality proof under a minute unless the proof cannot change, and
   * block hashes and nulls are never served.
   */
  lemma {:induction false} ServedAnswersAreFresh(states: seq<State>, arrange: set<string> -> seq<string>, c: Call,
      now: int)
    requires Arranges(arrange) && Runs(states, arrange) && Allowed(c)
    requires Live(states[|states| - 1].cache, Key(c), now)
    ensures var s := states[|states| - 1];
      var e := s.cache[Key(c)];
      && !c.kind.BlockHash? && !e.value.Null?
      && (c.kind.FinalizedHead? ==> now - e.touched < 3000)
      && (c.kind.Block? && Unjustified(e.value) ==> now - e.touched < 60_000)
      && (c.kind.ProveFinality? ==> now - e.touched < 60_000 || FixedProof(e.value, s.heard))
  {
    RunKeepsInv(states, arrange);
    assert Fresh(c, states[|states| - 1].cache[Key(c)], states[|states| - 1].heard);
  }
}
