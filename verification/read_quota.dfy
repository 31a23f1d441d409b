/**
 * src/routes/midnight-read-rpc.ts, lines 74-138: the daily budget of upstream reads. A
 * reservation is committed to the database, then written to a separate high-water file;
 * either write may fail, and the process may die between the two.
 */
module ReadQuota {
  import opened Common

  const MAXIMUM_CALLS: int := 80_000
  const MAXIMUM_REQUESTS: int := 40_000

  /** What one day has been charged: upstream calls, and the HTTP requests that carry them. */
  datatype Charge = Charge(used: int, requests: int)

  const NOTHING := Charge(0, 0)

  /** Table read_budget. */
  type Ledger = map<int, Charge>

  /** The high-water file. */
  datatype Mark = Mark(day: int, charge: Charge)

  predicate WithinCaps(c: Charge) {
    0 <= c.used <= MAXIMUM_CALLS && 0 <= c.requests <= MAXIMUM_REQUESTS
  }

  predicate AtMost(a: Charge, b: Charge) {
    a.used <= b.used && a.requests <= b.requests
  }

  lemma PickDay(s: set<int>) returns (x: int)
    requires |s| > 0
    ensures x in s
  {
    assert s != {};
    assert (forall y :: y !in s) ==> s == {};
    x :| x in s;
  }

  lemma {:induction false} GreatestExists(s: set<int>)
    requires |s| > 0
    ensures exists d :: d in s && forall e | e in s :: e <= d
    decreases |s|
  {
    var x := PickDay(s);
    var rest := s - {x};
    assert forall e | e in s :: e == x || e in rest;
    if |rest| == 0 {
      assert forall e | e in s :: e <= x;
    } else {
      GreatestExists(rest);
      var m :| m in rest && forall e | e in rest :: e <= m;
      var g := if x < m then m else x;
      assert g in s && forall e | e in s :: e <= g;
    }
  }

  /** `order by day desc limit 1`. */
  function LatestDay(db: Ledger): (d: int)
    requires |db| > 0
    ensures d in db && forall e | e in db :: e <= d
  {
    GreatestExists(db.Keys);
    var d :| d in db.Keys && forall e | e in db.Keys :: e <= d;
    d
  }

  datatype Verdict =
    | Rewound                 // throws: the history is missing, invalid, or moved back
    | Exhausted               // returns false: the day's budget cannot take the charge
    | Granted(charge: Charge) // returns true once the high-water file holds the new charge

  /** The decision of `reserve`, which reads both files and the clock before it writes. */
  function Decide(db: Option<Ledger>, guard: Option<Mark>, day: int, count: nat): Verdict {
    if guard.None? || guard.value.day < 0 || !WithinCaps(guard.value.charge) then Rewound
    else if db.None? || |db.value| == 0 then Rewound
    else
      var last := LatestDay(db.value);
      var row := db.value[last];
      if last < guard.value.day
         || (last == guard.value.day && !AtMost(guard.value.charge, row))
         || day < last then Rewound
      else
        var spent := if last == day then row else NOTHING;
        var next := Charge(spent.used + count, spent.requests + if count > 0 then 1 else 0);
        if spent.used < 0 || spent.requests < 0 || !(next.used <= MAXIMUM_CALLS && next.requests <= MAXIMUM_REQUESTS)
        then Exhausted else Granted(next)
  }

  /** Where a write may fail, or the process die. */
  datatype Crash = Never | BeforeCommit | BeforeRename

  /** What a reservation answers: the caller may send, the budget is exhausted, or it throws. */
  datatype Reservation = MaySend | NoBudget | Throws

  /** The durable state of the service: the two files a reservation writes. */
  class ReadBudget {
    var db: Option<Ledger>
    var guard: Option<Mark>

    /** `reserve`: the caller may send exactly when the new charge is in both files. */
    method Reserve(day: int, count: nat, crash: Crash) returns (r: Reservation)
      modifies this
      ensures var v := Decide(old(db), old(guard), day, count);
        && (r.MaySend? <==> v.Granted? && crash == Never) && (r.NoBudget? <==> v.Exhausted?)
        && db == (if v.Granted? && crash != BeforeCommit then Some(old(db).value[day := v.charge]) else old(db))
        && guard == (if r.MaySend? then Some(Mark(day, v.charge)) else old(guard))
    {
      if guard.None? || guard.value.day < 0 || !WithinCaps(guard.value.charge) {
        return Throws;
      }
      if db.None? || |db.value| == 0 {
        return Throws;
      }
      var last := LatestDay(db.value);
      var latest := db.value[last];
      if last < guard.value.day
         || (last == guard.value.day
             && (latest.used < guard.value.charge.used || latest.requests < guard.value.charge.requests))
         || day < last {
        return Throws;
      }
      var used := if last == day then latest.used else 0;
      var requests := if last == day then latest.requests else 0;
      var nextRequests := requests + if count > 0 then 1 else 0;
      if used < 0 || used + count > MAXIMUM_CALLS || requests < 0 || nextRequests > MAXIMUM_REQUESTS {
        return NoBudget;
      }
      if crash == BeforeCommit {
        return Throws;
      }
      db := Some(db.value[day := Charge(used + count, nextRequests)]);
      if crash == BeforeRename {
        return Throws;
      }
      guard := Some(Mark(day, Charge(used + count, nextRequests)));
      r := MaySend;
    }

    /**
     * Startup: the two files must both exist or both be missing; missing ones are created
     * with a zero row and mark, and the service starts only if a zero charge is granted.
     * `created` is the point of a crash while creating, `crash` of one in the reservation.
     */
    method Open(day: int, created: Crash, crash: Crash) returns (started: bool)
      modifies this
      ensures var s := Opened(old(db), old(guard), day, created, crash);
        db == s.0 && guard == s.1 && started == s.2
    {
      if db.Some? != guard.Some? {
        return false;
      }
      if db.None? {
        db := Some(map[]);
        if created == BeforeCommit {
          return false;
        }
        db := Some(map[day := NOTHING]);
        if created == BeforeRename {
          return false;
        }
        guard := Some(Mark(day, NOTHING));
      }
      var reserved := Reserve(day, 0, crash);
      started := reserved.MaySend?;
    }
  }

  /** The files after `reserve`, and whether it returned true. */
  function Reserved(db: Option<Ledger>, guard: Option<Mark>, day: int, count: nat, crash: Crash)
    : (Option<Ledger>, Option<Mark>, bool)
  {
    var v := Decide(db, guard, day, count);
    if !v.Granted? || crash == BeforeCommit then (db, guard, false)
    else
      (Some(db.value[day := v.charge]),
       if crash == Never then Some(Mark(day, v.charge)) else guard,
       crash == Never)
  }

  /** The files after startup, and whether the service started. */
  function Opened(db: Option<Ledger>, guard: Option<Mark>, day: int, created: Crash, crash: Crash)
    : (Option<Ledger>, Option<Mark>, bool)
  {
    if db.Some? != guard.Some? then (db, guard, false)
    else if db.Some? then Reserved(db, guard, day, 0, crash)
    else match created
      case BeforeCommit => (Some(map[]), None, false)
      case BeforeRename => (Some(map[day := NOTHING]), None, false)
      case Never => Reserved(Some(map[day := NOTHING]), Some(Mark(day, NOTHING)), day, 0, crash)
  }
}
