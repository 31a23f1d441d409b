/**
 * src/routes/midnight-read-rpc.ts, lines 140-141 and 216-245: admitting requests, and
 * releasing what they hold once they are both settled and finished. A response emits
 * `finish` and `close` in any order, before or after its handler settles, or both.
 */
module Admission {
  import opened Common

  const MAXIMUM_ACTIVE: int := 8
  const MAXIMUM_RESPONSE: int := 40 * 1024 * 1024
  const WINDOW_MS: int := 60_000
  const WINDOW_REQUESTS: int := 600
  const MAXIMUM_PEERS: int := 256

  /** The closure variables of one admitted request. */
  datatype Request = Request(settled: bool, finished: bool, released: bool, held: int)

  datatype Window = Window(at: int, count: int)

  type Rates = map<string, Window>

  /** `requests` lists every request ever admitted, in order. */
  datatype State = State(active: int, responseBytes: int, requests: seq<Request>, rates: Rates)

  const IDLE := State(0, 0, [], map[])

  // ------------------------------------------------------------ steps

  /** The peer's window, if it is not over. */
  function Current(rates: Rates, peer: string, now: int): Option<Window> {
    if peer in rates && now - rates[peer].at < WINDOW_MS then Some(rates[peer]) else None
  }

  function Pruned(rates: Rates, now: int): Rates {
    map p | p in rates && now - rates[p].at < WINDOW_MS :: rates[p]
  }

  predicate Busy(s: State, peer: string, now: int) {
    var window := Current(s.rates, peer, now);
    || s.active >= MAXIMUM_ACTIVE
    || (window.Some? && window.value.count >= WINDOW_REQUESTS)
    || (window.None? && |Pruned(s.rates, now)| >= MAXIMUM_PEERS)
  }

  function Admitted(s: State, peer: string, now: int): State {
    var window := Current(s.rates, peer, now);
    var rates := Pruned(s.rates, now);
    if Busy(s, peer, now) then s.(rates := rates)
    else
      s.(active := s.active + 1,
         requests := s.requests + [Request(false, false, false, 0)],
         rates := rates[peer := if window.Some? then Window(window.value.at, window.value.count + 1)
           else Window(now, 1)])
  }

  /** `release`. */
  function Released(s: State, id: nat): State
    requires id < |s.requests|
  {
    var r := s.requests[id];
    if !r.released && r.settled && r.finished
    then s.(active := s.active - 1, responseBytes := s.responseBytes - r.held,
      requests := s.requests[id := r.(released := true)])
    else s
  }

  /** The handler reserves room for its response, once and before it settles, or throws. */
  function Held(s: State, id: nat, bytes: nat): State
    requires id < |s.requests|
  {
    var r := s.requests[id];
    if r.settled || r.held != 0 || bytes > MAXIMUM_RESPONSE || s.responseBytes + bytes > 2 * MAXIMUM_RESPONSE then s
    else s.(responseBytes := s.responseBytes + bytes, requests := s.requests[id := r.(held := bytes)])
  }

  datatype Event =
    | Admit(peer: string, now: int)
    | Hold(id: nat, bytes: nat)
    | Settle(id: nat)
    | Finish(id: nat)   // `finish` or `close`

  function Step(s: State, e: Event): State {
    match e
    case Admit(peer, now) => Admitted(s, peer, now)
    case Hold(id, bytes) => if id < |s.requests| then Held(s, id, bytes) else s
    case Settle(id) =>
      if id < |s.requests| then Released(s.(requests := s.requests[id := s.requests[id].(settled := true)]), id) else s
    case Finish(id) =>
      if id < |s.requests| then Released(s.(requests := s.requests[id := s.requests[id].(finished := true)]), id) else s
  }

  function Run(s: State, events: seq<Event>): State {
    if events == [] then s else Step(Run(s, events[..|events| - 1]), events[|events| - 1])
  }

  /** The handler's shared variables. */
  class Handler {
    var active: int
    var responseBytes: int
    var requests: seq<Request>
    var rates: Rates

    ghost function Now(): State
      reads this
    {
      State(active, responseBytes, requests, rates)
    }

    method Admit(peer: string, now: int) returns (id: Option<nat>)
      modifies this
      ensures Now() == Step(old(Now()), Event.Admit(peer, now))
      ensures id == if Busy(old(Now()), peer, now) then None else Some(|old(requests)|)
    {
      var window := Current(rates, peer, now);
      rates := Pruned(rates, now);
      if active >= MAXIMUM_ACTIVE || (window.Some? && window.value.count >= WINDOW_REQUESTS)
         || (window.None? && |rates| >= MAXIMUM_PEERS) {
        return None;
      }
      id := Some(|requests|);
      rates := rates[peer := if window.Some? then Window(window.value.at, window.value.count + 1) else Window(now, 1)];
      active := active + 1;
      requests := requests + [Request(false, false, false, 0)];
    }

    method Release(id: nat)
      requires id < |requests|
      modifies this
      ensures Now() == Released(old(Now()), id)
    {
      var r := requests[id];
      if !r.released && r.settled && r.finished {
        requests := requests[id := r.(released := true)];
        active := active - 1;
        responseBytes := responseBytes - r.held;
      }
    }

    method Hold(id: nat, bytes: nat) returns (sent: bool)
      requires id < |requests| && !requests[id].settled && requests[id].held == 0
      modifies this
      ensures Now() == Step(old(Now()), Event.Hold(id, bytes))
      ensures sent <==> bytes <= MAXIMUM_RESPONSE && old(responseBytes) + bytes <= 2 * MAXIMUM_RESPONSE
    {
      if bytes > MAXIMUM_RESPONSE || responseBytes + bytes > 2 * MAXIMUM_RESPONSE {
        return false;
      }
      requests := requests[id := requests[id].(held := bytes)];
      responseBytes := responseBytes + bytes;
      sent := true;
    }

    method Settle(id: nat)
      requires id < |requests|
      modifies this
      ensures Now() == Step(old(Now()), Event.Settle(id))
    {
      requests := requests[id := requests[id].(settled := true)];
      Release(id);
    }

    method Finish(id: nat)
      requires id < |requests|
      modifies this
      ensures Now() == Step(old(Now()), Event.Finish(id))
    {
      requests := requests[id := requests[id].(finished := true)];
      Release(id);
    }
  }

  // ------------------------------------------------------------ invariant

  /** Admitted requests not yet released. */
  function Unreleased(rs: seq<Request>): nat {
    if rs == [] then 0 else Unreleased(rs[..|rs| - 1]) + if rs[|rs| - 1].released then 0 else 1
  }

  /** Bytes of the responses they hold. */
  function BytesHeld(rs: seq<Request>): int {
    if rs == [] then 0 else BytesHeld(rs[..|rs| - 1]) + if rs[|rs| - 1].released then 0 else rs[|rs| - 1].held
  }

  ghost predicate CountersOk(active: int, responseBytes: int, rs: seq<Request>) {
    && active == Unreleased(rs) && active <= MAXIMUM_ACTIVE
    && responseBytes == BytesHeld(rs) && responseBytes <= 2 * MAXIMUM_RESPONSE
    && (forall i | 0 <= i < |rs| :: rs[i].released <==> rs[i].settled && rs[i].finished)
    && (forall i | 0 <= i < |rs| :: 0 <= rs[i].held <= MAXIMUM_RESPONSE)
  }

  ghost predicate Inv(s: State) {
    CountersOk(s.active, s.responseBytes, s.requests) && RatesOk(s.rates)
  }

  ghost predicate RatesOk(rates: Rates) {
    |rates| <= MAXIMUM_PEERS && forall p | p in rates :: rates[p].count <= WINDOW_REQUESTS
  }

  lemma {:induction false} CountsAfterUpdate(rs: seq<Request>, id: nat, r: Request)
    requires id < |rs|
    ensures Unreleased(rs[id := r]) == Unreleased(rs) - (if rs[id].released then 0 else 1)
       + (if r.released then 0 else 1)
    ensures BytesHeld(rs[id := r]) == BytesHeld(rs) - (if rs[id].released then 0 else rs[id].held)
       + (if r.released then 0 else r.held)
  {
    var n := |rs| - 1;
    if id == n {
      assert rs[id := r][..n] == rs[..n];
    } else {
      assert rs[id := r][..n] == rs[..n][id := r];
      CountsAfterUpdate(rs[..n], id, r);
    }
  }

  lemma PrunedIsSmaller(rates: Rates, now: int)
    ensures |Pruned(rates, now)| <= |rates|
  {
    var pruned := Pruned(rates, now);
    assert pruned.Keys <= rates.Keys;
    assert |rates.Keys - pruned.Keys| == |rates.Keys| - |pruned.Keys|;
  }

  lemma SizeAfterSet(rates: Rates, peer: string, w: Window)
    ensures |rates[peer := w]| == if peer in rates then |rates| else |rates| + 1
  {
    assert rates[peer := w].Keys == rates.Keys + {peer};
  }

  lemma AdmitKeepsCounters(active: int, responseBytes: int, rs: seq<Request>)
    requires CountersOk(active, responseBytes, rs) && active < MAXIMUM_ACTIVE
    ensures CountersOk(active + 1, responseBytes, rs + [Request(false, false, false, 0)])
  {
    var added := rs + [Request(false, false, false, 0)];
    assert added[..|added| - 1] == rs;
    assert Unreleased(added) == Unreleased(rs) + 1 && BytesHeld(added) == BytesHeld(rs);
  }

  lemma AdmitKeepsRates(s: State, peer: string, now: int)
    requires RatesOk(s.rates)
    ensures RatesOk(Admitted(s, peer, now).rates)
  {
    PrunedIsSmaller(s.rates, now);
    if !Busy(s, peer, now) {
      var window := Current(s.rates, peer, now);
      var w := if window.Some? then Window(window.value.at, window.value.count + 1) else Window(now, 1);
      SizeAfterSet(Pruned(s.rates, now), peer, w);
    }
  }

  lemma AdmitKeepsInv(s: State, peer: string, now: int)
    requires Inv(s)
    ensures Inv(Admitted(s, peer, now))
  {
    AdmitKeepsRates(s, peer, now);
    if !Busy(s, peer, now) {
      AdmitKeepsCounters(s.active, s.responseBytes, s.requests);
    }
  }

  lemma StepKeepsInv(s: State, e: Event)
    requires Inv(s)
    ensures Inv(Step(s, e))
  {
    if e.Admit? {
      AdmitKeepsInv(s, e.peer, e.now);
    } else if e.id < |s.requests| {
      var r := s.requests[e.id];
      match e
      case Hold(id, bytes) => CountsAfterUpdate(s.requests, id, r.(held := bytes));
      case Settle(id) => UpdatesRelease(s, id, r.(settled := true));
      case Finish(id) => UpdatesRelease(s, id, r.(finished := true));
    }
  }

  lemma UpdatesRelease(s: State, id: nat, r: Request)
    requires Inv(s) && id < |s.requests|
    requires r.held == s.requests[id].held && r.released == s.requests[id].released
    requires s.requests[id].settled ==> r.settled
    requires s.requests[id].finished ==> r.finished
    ensures Inv(Released(s.(requests := s.requests[id := r]), id))
  {
    var rs := s.requests[id := r];
    CountsAfterUpdate(s.requests, id, r);
    CountsAfterUpdate(rs, id, r.(released := true));
  }

  /**
   * In every order of events the counters are exactly what the unreleased requests hold, at
   * most 8 requests are active, and at most two response budgets are held.
   */
  lemma {:induction false} RunKeepsInv(events: seq<Event>)
    ensures Inv(Run(IDLE, events))
  {
    if events != [] {
      RunKeepsInv(events[..|events| - 1]);
      StepKeepsInv(Run(IDLE, events[..|events| - 1]), events[|events| - 1]);
    }
  }

  lemma {:induction false} NothingUnreleased(rs: seq<Request>)
    requires forall i | 0 <= i < |rs| :: rs[i].released
    ensures Unreleased(rs) == 0 && BytesHeld(rs) == 0
  {
    if rs != [] { NothingUnreleased(rs[..|rs| - 1]); }
  }

  /** Once every admitted request has settled and finished, nothing is held any more. */
  lemma QuiescentRunHoldsNothing(events: seq<Event>)
    requires forall i | 0 <= i < |Run(IDLE, events).requests| ::
      Run(IDLE, events).requests[i].settled && Run(IDLE, events).requests[i].finished
    ensures Run(IDLE, events).active == 0 && Run(IDLE, events).responseBytes == 0
  {
    RunKeepsInv(events);
    NothingUnreleased(Run(IDLE, events).requests);
  }

  // ------------------------------------------------------------ when a request is released

  /** Room for a response is reserved once, before its request settles, within 40 MiB and 80 MiB in all. */
  lemma HeldExactly(s: State, id: nat, bytes: nat)
    requires id < |s.requests|
    ensures var t := Step(s, Hold(id, bytes));
      if !s.requests[id].settled && s.requests[id].held == 0 && bytes <= 41_943_040
         && s.responseBytes + bytes <= 83_886_080
      then
        && t.responseBytes == s.responseBytes + bytes && t.active == s.active && t.rates == s.rates
        && t.requests == s.requests[id := s.requests[id].(held := bytes)]
      else t == s
  {
  }

  /** The event came after the request was admitted. */
  predicate Came(events: seq<Event>, e: Event, id: nat) {
    events != [] &&
    var init := events[..|events| - 1];
    Came(init, e, id) || (events[|events| - 1] == e && id < |Run(IDLE, init).requests|)
  }

  lemma {:induction false} CameAfterAdmission(events: seq<Event>, e: Event, id: nat)
    requires Came(events, e, id)
    ensures id < |Run(IDLE, events).requests|
  {
    if Came(events[..|events| - 1], e, id) {
      CameAfterAdmission(events[..|events| - 1], e, id);
    }
  }

  lemma StepTells(s: State, e: Event, id: nat)
    requires id < |s.requests|
    ensures var t := Step(s, e);
      && id < |t.requests|
      && (t.requests[id].settled <==> s.requests[id].settled || e == Settle(id))
      && (t.requests[id].finished <==> s.requests[id].finished || e == Finish(id))
  {
  }

  lemma {:induction false} CameExactly(events: seq<Event>, id: nat)
    requires id < |Run(IDLE, events).requests|
    ensures var r := Run(IDLE, events).requests[id];
      (r.settled <==> Came(events, Settle(id), id)) && (r.finished <==> Came(events, Finish(id), id))
  {
    var init, last := events[..|events| - 1], events[|events| - 1];
    if id < |Run(IDLE, init).requests| {
      CameExactly(init, id);
      StepTells(Run(IDLE, init), last, id);
    } else {
      if Came(init, Settle(id), id) { CameAfterAdmission(init, Settle(id), id); }
      if Came(init, Finish(id), id) { CameAfterAdmission(init, Finish(id), id); }
    }
  }

  /** A request gives back what it holds exactly once its handler settled and its response finished or closed. */
  lemma ReleasedExactly(events: seq<Event>, id: nat)
    requires id < |Run(IDLE, events).requests|
    ensures Run(IDLE, events).requests[id].released <==>
      Came(events, Settle(id), id) && Came(events, Finish(id), id)
  {
    RunKeepsInv(events);
    CameExactly(events, id);
  }

  // ------------------------------------------------------------ who is admitted

  /** The peers whose minute is not over. */
  function Counting(rates: Rates, now: int): set<string> { set p | p in rates && now - rates[p].at < 60_000 }

  /** Fewer than 8 requests are active, and the peer has under 600 in its minute or begins one as one of 256 peers. */
  predicate HasRoom(s: State, peer: string, now: int) {
    && s.active < 8
    && (if peer in Counting(s.rates, now) then s.rates[peer].count < 600 else |Counting(s.rates, now)| < 256)
  }

  /**
   * A request is admitted exactly when there is room for it. It is counted in its peer's minute,
   * which keeps its first time, or begins one; other peers' minutes stay until they are over.
   */
  lemma AdmittedExactly(s: State, peer: string, now: int)
    ensures var t, counting := Step(s, Admit(peer, now)), Counting(s.rates, now);
      && t.responseBytes == s.responseBytes
      && (forall p | p in counting && p != peer :: p in t.rates && t.rates[p] == s.rates[p])
      && (if HasRoom(s, peer, now) then
            && t.active == s.active + 1 && t.requests == s.requests + [Request(false, false, false, 0)]
            && t.rates.Keys == counting + {peer}
            && t.rates[peer] == (if peer in counting then Window(s.rates[peer].at, s.rates[peer].count + 1)
                                 else Window(now, 1))
          else
            t.active == s.active && t.requests == s.requests && t.rates.Keys == counting
            && (peer in counting ==> t.rates[peer] == s.rates[peer]))
  {
    assert Pruned(s.rates, now).Keys == Counting(s.rates, now);
  }

  /** The last event of a run admitted a request of this peer. */
  predicate LastAdmits(events: seq<Event>, peer: string)
    requires events != []
  {
    && events[|events| - 1].Admit? && events[|events| - 1].peer == peer
    && |Run(IDLE, events).requests| > |Run(IDLE, events[..|events| - 1]).requests|
  }

  /** How many requests of a peer were admitted from a time on. */
  function AdmittedSince(events: seq<Event>, peer: string, from: int): nat {
    if events == [] then 0
    else
      AdmittedSince(events[..|events| - 1], peer, from) +
      if LastAdmits(events, peer) && events[|events| - 1].now >= from then 1 else 0
  }

  /** The readings of the clock do not decrease, and none is after `now`. */
  predicate Forward(events: seq<Event>, now: int)
    decreases |events|
  {
    events == [] ||
    (var e := events[|events| - 1];
     if e.Admit? then e.now <= now && Forward(events[..|events| - 1], e.now) else Forward(events[..|events| - 1], now))
  }

  /** A peer's window counts the requests admitted since it began, all of them in its minute. */
  ghost predicate Counts(events: seq<Event>, peer: string, now: int) {
    var rates := Run(IDLE, events).rates;
    if peer in rates then
      && rates[peer].at <= now && rates[peer].count == AdmittedSince(events, peer, rates[peer].at)
      && AdmittedSince(events, peer, rates[peer].at + 60_000) == 0
    else AdmittedSince(events, peer, now) == 0
  }

  lemma {:induction false} FewerLater(events: seq<Event>, peer: string, from: int, later: int)
    requires from <= later
    ensures AdmittedSince(events, peer, later) <= AdmittedSince(events, peer, from)
  {
    if events != [] { FewerLater(events[..|events| - 1], peer, from, later); }
  }

  /** No request of a peer was admitted from now on when its minute is over, or it has none. */
  lemma NothingSince(events: seq<Event>, peer: string, now: int)
    requires Counts(events, peer, now) && peer !in Counting(Run(IDLE, events).rates, now)
    ensures AdmittedSince(events, peer, now) == 0 == AdmittedSince(events, peer, now + 60_000)
  {
    var rates := Run(IDLE, events).rates;
    if peer in rates { FewerLater(events, peer, rates[peer].at + 60_000, now); }
    FewerLater(events, peer, now, now + 60_000);
  }

  /** A peer's window after a request of this or another peer was admitted or not. */
  lemma WindowAfter(s: State, caller: string, peer: string, now: int)
    ensures var t := Step(s, Admit(caller, now));
      var one := if caller == peer && |t.requests| > |s.requests| then 1 else 0;
      if peer in Counting(s.rates, now)
      then peer in t.rates && t.rates[peer] == Window(s.rates[peer].at, s.rates[peer].count + one)
      else (peer in t.rates <==> one == 1) && (one == 1 ==> t.rates[peer] == Window(now, 1))
  {
    AdmittedExactly(s, caller, now);
  }

  lemma LastSince(events: seq<Event>, peer: string, from: int)
    requires events != []
    ensures AdmittedSince(events, peer, from) == AdmittedSince(events[..|events| - 1], peer, from) +
      if LastAdmits(events, peer) && events[|events| - 1].now >= from then 1 else 0
  {
  }

  lemma AdmitCounts(events: seq<Event>, peer: string, now: int)
    requires events != [] && events[|events| - 1].Admit? && events[|events| - 1].now == now
    requires Counts(events[..|events| - 1], peer, now)
    ensures Counts(events, peer, now)
  {
    if peer in Counting(Run(IDLE, events[..|events| - 1]).rates, now) {
      RunningWindowCounts(events, peer, now);
    } else {
      NewWindowCounts(events, peer, now);
    }
  }

  lemma RunningWindowCounts(events: seq<Event>, peer: string, now: int)
    requires events != [] && events[|events| - 1].Admit? && events[|events| - 1].now == now
    requires Counts(events[..|events| - 1], peer, now)
    requires peer in Counting(Run(IDLE, events[..|events| - 1]).rates, now)
    ensures Counts(events, peer, now)
  {
    var s := Run(IDLE, events[..|events| - 1]);
    WindowAfter(s, events[|events| - 1].peer, peer, now);
    LastSince(events, peer, s.rates[peer].at);
    LastSince(events, peer, s.rates[peer].at + 60_000);
  }

  lemma NewWindowCounts(events: seq<Event>, peer: string, now: int)
    requires events != [] && events[|events| - 1].Admit? && events[|events| - 1].now == now
    requires Counts(events[..|events| - 1], peer, now)
    requires peer !in Counting(Run(IDLE, events[..|events| - 1]).rates, now)
    ensures Counts(events, peer, now)
  {
    var init := events[..|events| - 1];
    WindowAfter(Run(IDLE, init), events[|events| - 1].peer, peer, now);
    NothingSince(init, peer, now);
    LastSince(events, peer, now);
    LastSince(events, peer, now + 60_000);
  }

  /**
   * In every run whose clock does not go back, each peer's window counts exactly the requests of
   * the peer that were admitted since it began, and these are at most 600.
   */
  lemma {:induction false} WindowsCountAdmitted(events: seq<Event>, peer: string, now: int)
    requires Forward(events, now)
    ensures Counts(events, peer, now)
    ensures var rates := Run(IDLE, events).rates;
      peer in rates ==> AdmittedSince(events, peer, rates[peer].at) == rates[peer].count <= 600
  {
    RunKeepsInv(events);
    if events != [] {
      var init, e := events[..|events| - 1], events[|events| - 1];
      if e.Admit? {
        WindowsCountAdmitted(init, peer, e.now);
        LaterCounts(init, peer, e.now, e.now);
        AdmitCounts(events, peer, e.now);
        LaterCounts(events, peer, e.now, now);
      } else {
        WindowsCountAdmitted(init, peer, now);
      }
    }
  }

  lemma LaterCounts(events: seq<Event>, peer: string, now: int, later: int)
    requires Counts(events, peer, now) && now <= later
    ensures Counts(events, peer, later)
  {
    FewerLater(events, peer, now, later);
  }
}
