/**
 * src/quota.ts: upload quotas. The tables of API keys and the tables of signing accounts run
 * the same statements, so one class stands for both: `owner` is a key hash or an address, and
 * an owner without a row in `keys` has the limits every account has.
 */
module UploadQuota {
  import opened Common

  datatype Limits = Limits(receipts: nat, bytes: nat, concurrent: nat)
  datatype KeyRow = KeyRow(validatorId: Option<string>, limits: Limits)
  datatype Daily = Daily(receipts: nat, bytes: nat)
  datatype Slot = Slot(owner: string, startedAt: int, bytes: nat, active: bool)

  datatype Tables = Tables(
    keys: map<string, KeyRow>, daily: map<(string, string), Daily>, inflight: map<string, Slot>, account: Limits)

  datatype Check = Allowed | Exceeded(limit: nat, current: nat)

  const STALE_MS: int := 600_000

  function LimitsOf(t: Tables, owner: string): Limits { if owner in t.keys then t.keys[owner].limits else t.account }

  // ------------------------------------------------------------ the statements

  function Stale(inflight: map<string, Slot>, owner: string, now: int): set<string> {
    set u | u in inflight && inflight[u].owner == owner && inflight[u].startedAt < now - STALE_MS && inflight[u].active
  }

  function Active(inflight: map<string, Slot>, owner: string): set<string> {
    set u | u in inflight && inflight[u].owner == owner && inflight[u].active
  }

  function Today(t: Tables, owner: string, day: string): Daily {
    if (owner, day) in t.daily then t.daily[(owner, day)] else Daily(0, 0)
  }

  function WithDaily(t: Tables, owner: string, day: string, d: Daily): Tables {
    t.(daily := t.daily[(owner, day) := d])
  }

  function Started(t: Tables, owner: string, upload: string, now: int): (Check, Tables) {
    var cleaned := t.inflight - Stale(t.inflight, owner, now);
    var count, limit := |Active(cleaned, owner)|, LimitsOf(t, owner).concurrent;
    if count >= limit then (Exceeded(limit, count), t.(inflight := cleaned))
    else (Allowed, t.(inflight := cleaned[upload := Slot(owner, now, 0, true)]))
  }

  /** A row of zeros appears whether the charge is allowed or not. */
  function Charged(t: Tables, owner: string, bytes: nat, day: string): (Check, Tables) {
    var d, limit := Today(t, owner, day), LimitsOf(t, owner).bytes;
    if d.bytes + bytes > limit then (Exceeded(limit, d.bytes), WithDaily(t, owner, day, d))
    else (Allowed, WithDaily(t, owner, day, d.(bytes := d.bytes + bytes)))
  }

  function Recorded(t: Tables, owner: string, upload: string, bytes: nat, day: string, now: int): (Check, Tables) {
    var (check, charged) := Charged(t, owner, bytes, day);
    if check.Allowed? && upload in charged.inflight && charged.inflight[upload].owner == owner then
      var slot := charged.inflight[upload];
      (check, charged.(inflight := charged.inflight[upload := slot.(bytes := slot.bytes + bytes, startedAt := now)]))
    else (check, charged)
  }

  /** The slot is freed whether the receipt is counted or not. */
  function Finalized(t: Tables, owner: string, upload: string, day: string): (Check, Tables) {
    var d, limit := Today(t, owner, day), LimitsOf(t, owner).receipts;
    var freed := if upload in t.inflight && t.inflight[upload].owner == owner
      then t.inflight[upload := t.inflight[upload].(active := false)] else t.inflight;
    var next := if d.receipts >= limit then d else d.(receipts := d.receipts + 1);
    (if d.receipts >= limit then Exceeded(limit, d.receipts) else Allowed,
     WithDaily(t.(inflight := freed), owner, day, next))
  }

  // ------------------------------------------------------------ re-keying

  function Swap(a: string, b: string, owner: string): string { if owner == a then b else owner }

  function MovedKeys(daily: map<(string, string), Daily>, a: string, b: string): set<(string, string)> {
    set x | x in daily :: (Swap(a, b, x.0), x.1)
  }

  /** Moves every row of one key hash to another, in the three tables. */
  function Rekeyed(t: Tables, a: string, b: string): Tables {
    Tables(
      if a in t.keys then (t.keys - {a})[b := t.keys[a]] else t.keys,
      map k | k in MovedKeys(t.daily, a, b) :: if k in t.daily && k.0 != a then t.daily[k] else t.daily[(a, k.1)],
      map u | u in t.inflight :: t.inflight[u].(owner := Swap(a, b, t.inflight[u].owner)),
      t.account)
  }

  /** The update would break a primary key. */
  predicate Clashes(t: Tables, a: string, b: string) {
    a != b && (b in t.keys || exists k | k in t.daily :: k.0 == a && (b, k.1) in t.daily)
  }

  /** A row whose key hash is the hash of its own, public, validator id. */
  predicate AddressDerived(hash: string -> string, keys: map<string, KeyRow>, k: string) {
    k in keys && keys[k].validatorId.Some? && keys[k].validatorId.value != "" && k == hash(keys[k].validatorId.value)
  }

  function Guessable(hash: string -> string, keys: map<string, KeyRow>): set<string> {
    set k | k in keys && AddressDerived(hash, keys, k)
  }

  /** The rows are the guessable ones, each once. */
  ghost predicate Reads(rows: seq<string>, guessable: set<string>) {
    (forall k :: k in rows <==> k in guessable) && forall i, j | 0 <= i < j < |rows| :: rows[i] != rows[j]
  }

  /** The re-keying of row `i` breaks no primary key. */
  predicate Goes(t: Tables, olds: seq<string>, news: seq<string>, i: nat)
    requires i < |olds| == |news|
  {
    !Clashes(RekeyedAll(t, olds, news, i), olds[i], news[i])
  }

  /** The first `n` of `olds` re-keyed to `news`, one after the other. */
  function RekeyedAll(t: Tables, olds: seq<string>, news: seq<string>, n: nat): Tables
    requires n <= |olds| == |news|
  {
    if n == 0 then t else Rekeyed(RekeyedAll(t, olds, news, n - 1), olds[n - 1], news[n - 1])
  }

  lemma SetTwice(m: map<(string, string), Daily>, k: (string, string), first: Daily, second: Daily)
    ensures m[k := first][k := second] == m[k := second]
    ensures k in m && m[k] == first ==> m[k := first] == m
  {
  }

  // ------------------------------------------------------------ the class

  class Quotas {
    var keys: map<string, KeyRow>
    var daily: map<(string, string), Daily>
    var inflight: map<string, Slot>
    const account: Limits

    constructor (account: Limits)
      ensures State() == Tables(map[], map[], map[], account)
    {
      keys, daily, inflight := map[], map[], map[];
      this.account := account;
    }

    function State(): Tables
      reads this
    {
      Tables(keys, daily, inflight, account)
    }

    function Limit(owner: string): (l: Limits)
      reads this
      ensures l == LimitsOf(State(), owner)
    {
      if owner in keys then keys[owner].limits else account
    }

    method StartUpload(owner: string, upload: string, now: int) returns (check: Check)
      modifies this
      ensures (check, State()) == Started(old(State()), owner, upload, now)
    {
      inflight := inflight - Stale(inflight, owner, now);
      var count := |Active(inflight, owner)|;
      if count >= Limit(owner).concurrent {
        return Exceeded(Limit(owner).concurrent, count);
      }
      inflight := inflight[upload := Slot(owner, now, 0, true)];
      check := Allowed;
    }

    method ChargeDailyBytes(owner: string, bytes: nat, day: string) returns (check: Check)
      modifies this
      ensures (check, State()) == Charged(old(State()), owner, bytes, day)
    {
      if (owner, day) !in daily {
        daily := daily[(owner, day) := Daily(0, 0)];
      }
      var row := daily[(owner, day)];
      SetTwice(old(daily), (owner, day), row, row.(bytes := row.bytes + bytes));
      if row.bytes + bytes > Limit(owner).bytes {
        return Exceeded(Limit(owner).bytes, row.bytes);
      }
      daily := daily[(owner, day) := row.(bytes := row.bytes + bytes)];
      check := Allowed;
    }

    method RecordChunkBytes(owner: string, upload: string, bytes: nat, day: string, now: int) returns (check: Check)
      modifies this
      ensures (check, State()) == Recorded(old(State()), owner, upload, bytes, day, now)
    {
      check := ChargeDailyBytes(owner, bytes, day);
      if check.Allowed? && upload in inflight && inflight[upload].owner == owner {
        inflight := inflight[upload := inflight[upload].(bytes := inflight[upload].bytes + bytes, startedAt := now)];
      }
    }

    method FinalizeUpload(owner: string, upload: string, day: string) returns (check: Check)
      modifies this
      ensures (check, State()) == Finalized(old(State()), owner, upload, day)
    {
      if (owner, day) !in daily {
        daily := daily[(owner, day) := Daily(0, 0)];
      }
      if upload in inflight && inflight[upload].owner == owner {
        inflight := inflight[upload := inflight[upload].(active := false)];
      }
      var row := daily[(owner, day)];
      SetTwice(old(daily), (owner, day), row, row.(receipts := row.receipts + 1));
      if row.receipts >= Limit(owner).receipts {
        return Exceeded(Limit(owner).receipts, row.receipts);
      }
      daily := daily[(owner, day) := row.(receipts := row.receipts + 1)];
      check := Allowed;
    }

    method Rekey(a: string, b: string)
      modifies this
      ensures State() == Rekeyed(old(State()), a, b)
    {
      if a in keys {
        keys := (keys - {a})[b := keys[a]];
      }
      daily := map k | k in MovedKeys(daily, a, b) :: if k in daily && k.0 != a then daily[k] else daily[(a, k.1)];
      inflight := map u | u in inflight :: inflight[u].(owner := Swap(a, b, inflight[u].owner));
    }

    /**
     * `rows` is the order the guessable rows are read in and `news` the random hashes drawn
     * for them. A clash aborts the transaction.
     */
    method RetireAddressDerivedApiKeys(hash: string -> string, rows: seq<string>, news: seq<string>) returns (ok: bool)
      requires |rows| == |news| && Reads(rows, Guessable(hash, keys))
      modifies this
      ensures State() == if ok then RekeyedAll(old(State()), rows, news, |rows|) else old(State())
      ensures ok <==> forall i | 0 <= i < |rows| :: Goes(old(State()), rows, news, i)
    {
      var before := State();
      var i := 0;
      while i < |rows|
        invariant 0 <= i <= |rows|
        invariant State() == RekeyedAll(before, rows, news, i)
        invariant forall j | 0 <= j < i :: Goes(before, rows, news, j)
      {
        if Clashes(State(), rows[i], news[i]) {
          assert !Goes(before, rows, news, i);
          keys, daily, inflight := before.keys, before.daily, before.inflight;
          return false;
        }
        Rekey(rows[i], news[i]);
        i := i + 1;
      }
      ok := true;
    }
  }

  // ------------------------------------------------------------ caps over every run

  datatype Event =
    | Start(owner: string, upload: string, now: int)
    | Record(owner: string, upload: string, bytes: nat, day: string, now: int)
    | ChargeManifest(owner: string, bytes: nat, day: string)
    | Finalize(owner: string, upload: string, day: string)
    | Retire(rows: seq<string>, news: seq<string>)

  /** A charge that was allowed. */
  datatype Charge = Charge(owner: string, day: string, bytes: nat)

  datatype World = World(tables: Tables, charges: seq<Charge>)

  ghost predicate InUse(t: Tables, k: string) {
    || k in t.keys
    || (exists d :: d in t.daily && d.0 == k)
    || (exists u :: u in t.inflight && t.inflight[u].owner == k)
  }

  /** The drawn hashes are in use nowhere and differ from each other. */
  ghost predicate Unused(t: Tables, news: seq<string>) {
    (forall i | 0 <= i < |news| :: !InUse(t, news[i])) && forall i, j | 0 <= i < j < |news| :: news[i] != news[j]
  }

  ghost predicate Possible(hash: string -> string, w: World, e: Event) {
    e.Retire? ==>
      |e.rows| == |e.news| && Reads(e.rows, Guessable(hash, w.tables.keys)) && Unused(w.tables, e.news)
  }

  /** The name an owner has after a re-keying. */
  function Renamed(rows: seq<string>, news: seq<string>, n: nat, owner: string): string
    requires n <= |rows| == |news|
  {
    if n == 0 then owner else Swap(rows[n - 1], news[n - 1], Renamed(rows, news, n - 1, owner))
  }

  function RenamedCharges(rows: seq<string>, news: seq<string>, charges: seq<Charge>): (r: seq<Charge>)
    requires |rows| == |news|
    ensures |r| == |charges|
  {
    seq(|charges|, i requires 0 <= i < |charges| => charges[i].(owner := Renamed(rows, news, |rows|, charges[i].owner)))
  }

  ghost function Next(hash: string -> string, w: World, e: Event): World
    requires Possible(hash, w, e)
  {
    match e
    case Start(owner, upload, now) => w.(tables := Started(w.tables, owner, upload, now).1)
    case Record(owner, upload, bytes, day, now) =>
      var r := Recorded(w.tables, owner, upload, bytes, day, now);
      World(r.1, if r.0.Allowed? then w.charges + [Charge(owner, day, bytes)] else w.charges)
    case ChargeManifest(owner, bytes, day) =>
      var r := Charged(w.tables, owner, bytes, day);
      World(r.1, if r.0.Allowed? then w.charges + [Charge(owner, day, bytes)] else w.charges)
    case Finalize(owner, upload, day) => w.(tables := Finalized(w.tables, owner, upload, day).1)
    case Retire(rows, news) => World(RekeyedAll(w.tables, rows, news, |rows|), RenamedCharges(rows, news, w.charges))
  }

  /** The bytes admitted for an owner on a day. */
  function Admitted(charges: seq<Charge>, owner: string, day: string): nat {
    if charges == [] then 0
    else
      var last := charges[|charges| - 1];
      Admitted(charges[..|charges| - 1], owner, day)
         + (if last.owner == owner && last.day == day then last.bytes else 0)
  }

  /** Counters and slots are within their caps, and the byte counter is what was admitted. */
  ghost predicate WithinCaps(w: World, owner: string, day: string) {
    var limits, d := LimitsOf(w.tables, owner), Today(w.tables, owner, day);
    && |Active(w.tables.inflight, owner)| <= limits.concurrent
    && d.bytes <= limits.bytes && d.receipts <= limits.receipts
    && d.bytes == Admitted(w.charges, owner, day)
  }

  /** A start fills at most one slot of its owner and none of anyone else, even when it takes over a row. */
  lemma StartKeeps(t: Tables, e: Event, owner: string)
    requires e.Start? && |Active(t.inflight, owner)| <= LimitsOf(t, owner).concurrent
    ensures |Active(Started(t, e.owner, e.upload, e.now).1.inflight, owner)| <= LimitsOf(t, owner).concurrent
  {
    var cleaned := t.inflight - Stale(t.inflight, e.owner, e.now);
    var after := Started(t, e.owner, e.upload, e.now).1.inflight;
    SubsetCardinality(Active(cleaned, owner), Active(t.inflight, owner));
    if Started(t, e.owner, e.upload, e.now).0.Allowed? && owner == e.owner {
      SubsetCardinality(Active(after, owner), Active(cleaned, owner) + {e.upload});
    } else {
      SubsetCardinality(Active(after, owner), Active(cleaned, owner));
    }
  }

  lemma SlotKeeps(inflight: map<string, Slot>, upload: string, slot: Slot, owner: string)
    requires upload in inflight && slot.owner == inflight[upload].owner && (slot.active ==> inflight[upload].active)
    ensures |Active(inflight[upload := slot], owner)| <= |Active(inflight, owner)|
  {
    SubsetCardinality(Active(inflight[upload := slot], owner), Active(inflight, owner));
  }

  lemma AdmittedOneMore(charges: seq<Charge>, c: Charge, owner: string, day: string)
    ensures Admitted(charges + [c], owner, day) ==
      Admitted(charges, owner, day) + (if c.owner == owner && c.day == day then c.bytes else 0)
  {
    assert (charges + [c])[..|charges|] == charges;
  }

  lemma ChargeKeeps(w: World, o: string, bytes: nat, d: string, owner: string, day: string)
    requires WithinCaps(w, owner, day)
    ensures var r := Charged(w.tables, o, bytes, d);
      WithinCaps(World(r.1, if r.0.Allowed? then w.charges + [Charge(o, d, bytes)] else w.charges), owner, day)
  {
    AdmittedOneMore(w.charges, Charge(o, d, bytes), owner, day);
  }

  lemma RecordKeeps(w: World, o: string, upload: string, bytes: nat, d: string, now: int, owner: string, day: string)
    requires WithinCaps(w, owner, day)
    ensures var r := Recorded(w.tables, o, upload, bytes, d, now);
      WithinCaps(World(r.1, if r.0.Allowed? then w.charges + [Charge(o, d, bytes)] else w.charges), owner, day)
  {
    ChargeKeeps(w, o, bytes, d, owner, day);
    if upload in w.tables.inflight {
      var slot := w.tables.inflight[upload];
      SlotKeeps(w.tables.inflight, upload, slot.(bytes := slot.bytes + bytes, startedAt := now), owner);
    }
  }

  lemma FinalizeKeeps(w: World, o: string, upload: string, d: string, owner: string, day: string)
    requires WithinCaps(w, owner, day)
    ensures WithinCaps(w.(tables := Finalized(w.tables, o, upload, d).1), owner, day)
  {
    if upload in w.tables.inflight {
      SlotKeeps(w.tables.inflight, upload, w.tables.inflight[upload].(active := false), owner);
    }
  }

  // ------------------------------------------------------------ re-keying conserves

  /** One owner's rows in both states: limits, counters of every day, and open slots. */
  ghost predicate SameRows(t: Tables, owner: string, u: Tables, other: string) {
    && LimitsOf(t, owner) == LimitsOf(u, other)
    && (owner in t.keys <==> other in u.keys) && (owner in t.keys ==> t.keys[owner] == u.keys[other])
    && (forall day ::
          ((owner, day) in t.daily <==> (other, day) in u.daily) && Today(t, owner, day) == Today(u, other, day))
    && Active(t.inflight, owner) == Active(u.inflight, other)
  }

  lemma RekeyMoves(t: Tables, a: string, b: string, owner: string)
    requires !InUse(t, b) && owner != b
    ensures SameRows(t, owner, Rekeyed(t, a, b), Swap(a, b, owner))
  {
    var u, other := Rekeyed(t, a, b), Swap(a, b, owner);
    forall day ensures (owner, day) in t.daily <==> (other, day) in u.daily
      ensures Today(t, owner, day) == Today(u, other, day)
    {
      DailyMoves(t, a, b, owner, day);
    }
    assert Active(t.inflight, owner) == Active(u.inflight, other);
  }

  lemma DailyMoves(t: Tables, a: string, b: string, owner: string, day: string)
    requires !InUse(t, b) && owner != b
    ensures var u, other := Rekeyed(t, a, b), Swap(a, b, owner);
      ((owner, day) in t.daily <==> (other, day) in u.daily) && Today(t, owner, day) == Today(u, other, day)
  {
    var other := Swap(a, b, owner);
    if (owner, day) in t.daily {
      assert (other, day) == (Swap(a, b, (owner, day).0), (owner, day).1);
      assert (other, day) in MovedKeys(t.daily, a, b);
      assert (b, day) in t.daily ==> (b, day).0 == b;
    }
    if (other, day) in MovedKeys(t.daily, a, b) {
      var x :| x in t.daily && (other, day) == (Swap(a, b, x.0), x.1);
      assert x.0 != b;
    }
  }

  /** Names to retire, each once and in use, and names to give, each once and unused. */
  ghost predicate Apart(t: Tables, olds: seq<string>, news: seq<string>) {
    && |olds| == |news| && Unused(t, news)
    && (forall i, j | 0 <= i < j < |olds| :: olds[i] != olds[j])
    && (forall i | 0 <= i < |olds| :: olds[i] in t.keys)
  }

  lemma {:induction false} RenamedIs(t: Tables, olds: seq<string>, news: seq<string>, n: nat, owner: string)
    requires Apart(t, olds, news) && n <= |olds| && owner !in news
    ensures owner !in olds[..n] ==> Renamed(olds, news, n, owner) == owner
    ensures forall i | 0 <= i < n && olds[i] == owner :: Renamed(olds, news, n, owner) == news[i]
  {
    if n > 0 {
      RenamedIs(t, olds, news, n - 1, owner);
      assert forall i | 0 <= i < |news| :: !InUse(t, news[i]);
      assert InUse(t, olds[n - 1]);
    }
  }

  lemma RekeyUses(t: Tables, a: string, b: string, k: string)
    requires InUse(Rekeyed(t, a, b), k)
    ensures k == b || (InUse(t, k) && k != a)
    ensures a == b || k != a
  {
    var u := Rekeyed(t, a, b);
    if d :| d in u.daily && d.0 == k {
      var x :| x in t.daily && d == (Swap(a, b, x.0), x.1);
    }
    if x :| x in u.inflight && u.inflight[x].owner == k {
      assert u.inflight[x].owner == Swap(a, b, t.inflight[x].owner);
    }
  }

  /** What is in use after a re-keying: what was, apart from the retired names, and new names. */
  lemma {:induction false} RekeyedUses(t: Tables, olds: seq<string>, news: seq<string>, n: nat, k: string)
    requires Apart(t, olds, news) && n <= |olds| && InUse(RekeyedAll(t, olds, news, n), k)
    ensures k !in olds[..n] && (InUse(t, k) || exists i :: 0 <= i < n && news[i] == k)
  {
    if n > 0 {
      RekeyUses(RekeyedAll(t, olds, news, n - 1), olds[n - 1], news[n - 1], k);
      assert InUse(t, olds[n - 1]) && forall i | 0 <= i < |olds| :: InUse(t, olds[i]);
      if k != news[n - 1] {
        RekeyedUses(t, olds, news, n - 1, k);
      }
    }
  }

  /** Re-keying moves every owner's rows to its new name and changes none of them. */
  lemma {:induction false} RekeyedAllMoves(t: Tables, olds: seq<string>, news: seq<string>, n: nat, owner: string)
    requires Apart(t, olds, news) && n <= |olds| && owner !in news
    ensures SameRows(t, owner, RekeyedAll(t, olds, news, n), Renamed(olds, news, n, owner))
  {
    if n > 0 {
      var before, name := RekeyedAll(t, olds, news, n - 1), Renamed(olds, news, n - 1, owner);
      RekeyedAllMoves(t, olds, news, n - 1, owner);
      RenamedIs(t, olds, news, n - 1, owner);
      if InUse(before, news[n - 1]) {
        RekeyedUses(t, olds, news, n - 1, news[n - 1]);
      }
      assert name != news[n - 1];
      RekeyMoves(before, olds[n - 1], news[n - 1], name);
    }
  }

  lemma GuessableApart(hash: string -> string, t: Tables, rows: seq<string>, news: seq<string>)
    requires |rows| == |news| && Reads(rows, Guessable(hash, t.keys)) && Unused(t, news)
    ensures Apart(t, rows, news)
  {
    forall i | 0 <= i < |rows| ensures rows[i] in t.keys {
      assert rows[i] in rows;
    }
  }

  /** Where the rows of a name came from. */
  lemma KeyOrigin(t: Tables, olds: seq<string>, news: seq<string>, k: string) returns (owner: string)
    requires Apart(t, olds, news) && k !in olds
    requires k in RekeyedAll(t, olds, news, |olds|).keys
    ensures owner in t.keys && t.keys[owner] == RekeyedAll(t, olds, news, |olds|).keys[k]
    ensures owner == k || (owner in olds && k in news)
  {
    RekeyedUses(t, olds, news, |olds|, k);
    if i :| 0 <= i < |olds| && news[i] == k {
      owner := olds[i];
      assert InUse(t, owner);
    } else {
      owner := k;
    }
    RenamedIs(t, olds, news, |olds|, owner);
    assert olds[..|olds|] == olds;
    RekeyedAllMoves(t, olds, news, |olds|, owner);
  }

  /** A re-keying clashes exactly if it would give one key hash, or one hash and day, to two rows. */
  lemma ClashesExactly(t: Tables, a: string, b: string)
    requires a in t.keys
    ensures Clashes(t, a, b) <==>
      || (exists x, y :: x in t.keys && y in t.keys && x != y && Swap(a, b, x) == Swap(a, b, y))
      || (exists x, y ::
            x in t.daily && y in t.daily && x != y && Swap(a, b, x.0) == Swap(a, b, y.0) && x.1 == y.1)
  {
    if a != b && b in t.keys {
      assert Swap(a, b, a) == Swap(a, b, b);
    }
    if k :| a != b && k in t.daily && k.0 == a && (b, k.1) in t.daily {
      assert Swap(a, b, k.0) == Swap(a, b, (b, k.1).0);
    }
    if x, y :| x in t.daily && y in t.daily && x != y && Swap(a, b, x.0) == Swap(a, b, y.0) && x.1 == y.1 {
      var k := if x.0 == a then x else y;
      assert k in t.daily && k.0 == a && (b, k.1) in t.daily;
    }
  }

  /** Hashes that are in use nowhere clash with nothing, so every guessable key is retired. */
  lemma UnusedHashesGo(hash: string -> string, t: Tables, rows: seq<string>, news: seq<string>, i: nat)
    requires |rows| == |news| && Reads(rows, Guessable(hash, t.keys)) && Unused(t, news) && i < |rows|
    ensures Goes(t, rows, news, i)
  {
    GuessableApart(hash, t, rows, news);
    if Clashes(RekeyedAll(t, rows, news, i), rows[i], news[i]) {
      RekeyedUses(t, rows, news, i, news[i]);
    }
  }

  /** After a retirement no key hash is derived from its row's address, so repeating it changes nothing. */
  lemma RetiredOnce(hash: string -> string, t: Tables, rows: seq<string>, news: seq<string>)
    requires |rows| == |news| && Reads(rows, Guessable(hash, t.keys)) && Unused(t, news)
    ensures Guessable(hash, RekeyedAll(t, rows, news, |rows|).keys) == {}
  {
    var after := RekeyedAll(t, rows, news, |rows|);
    GuessableApart(hash, t, rows, news);
    forall k | k in after.keys ensures !AddressDerived(hash, after.keys, k) {
      RekeyedUses(t, rows, news, |rows|, k);
      assert rows[..|rows|] == rows;
      var owner := KeyOrigin(t, rows, news, k);
      assert AddressDerived(hash, t.keys, owner) <==> owner in Guessable(hash, t.keys);
      assert InUse(t, owner);
    }
  }

  // ------------------------------------------------------------ every run

  ghost predicate Inv(w: World) {
    && (forall owner, day :: WithinCaps(w, owner, day))
    && (forall c | c in w.charges :: (c.owner, c.day) in w.tables.daily)
  }

  lemma NoCharges(charges: seq<Charge>, owner: string, day: string)
    requires forall c | c in charges :: c.owner != owner
    ensures Admitted(charges, owner, day) == 0
    decreases |charges|
  {
    if charges != [] {
      assert charges[|charges| - 1] in charges;
      NoCharges(charges[..|charges| - 1], owner, day);
    }
  }

  lemma {:induction false} RenamedAdmitted(rows: seq<string>, news: seq<string>, charges: seq<Charge>, owner: string,
      name: string, day: string)
    requires |rows| == |news|
    requires forall c | c in charges :: (Renamed(rows, news, |rows|, c.owner) == name <==> c.owner == owner)
    ensures Admitted(RenamedCharges(rows, news, charges), name, day) == Admitted(charges, owner, day)
    decreases |charges|
  {
    if charges != [] {
      var init := charges[..|charges| - 1];
      assert RenamedCharges(rows, news, charges)[..|charges| - 1] == RenamedCharges(rows, news, init);
      assert charges[|charges| - 1] in charges;
      RenamedAdmitted(rows, news, init, owner, name, day);
    }
  }

  lemma UnusedIsEmpty(t: Tables, name: string, day: string)
    requires !InUse(t, name)
    ensures Active(t.inflight, name) == {} && Today(t, name, day) == Daily(0, 0)
  {
    assert forall d | d in t.daily :: d.0 != name;
    assert forall u | u in t.inflight :: t.inflight[u].owner != name;
  }

  /** The owner that has this name after the re-keying. */
  lemma Origin(t: Tables, rows: seq<string>, news: seq<string>, name: string) returns (owner: string)
    requires Apart(t, rows, news) && name !in rows
    ensures owner !in news && Renamed(rows, news, |rows|, owner) == name
  {
    assert forall i | 0 <= i < |rows| :: InUse(t, rows[i]);
    assert rows[..|rows|] == rows;
    if name in news {
      var i :| 0 <= i < |news| && news[i] == name;
      owner := rows[i];
    } else {
      owner := name;
    }
    RenamedIs(t, rows, news, |rows|, owner);
  }

  /** No two owners are given one name. */
  lemma RenamedApart(t: Tables, rows: seq<string>, news: seq<string>, a: string, b: string)
    requires Apart(t, rows, news) && a !in news && b !in news
    ensures Renamed(rows, news, |rows|, a) == Renamed(rows, news, |rows|, b) <==> a == b
  {
    RenamedIs(t, rows, news, |rows|, a);
    RenamedIs(t, rows, news, |rows|, b);
    assert rows[..|rows|] == rows;
  }

  /** A retired name is left without rows, every other name has its owner's rows and charges. */
  lemma RetireKeepsCaps(w: World, rows: seq<string>, news: seq<string>, name: string, day: string)
    requires Inv(w) && Apart(w.tables, rows, news)
    ensures WithinCaps(World(RekeyedAll(w.tables, rows, news, |rows|), RenamedCharges(rows, news, w.charges)),
      name, day)
  {
    var t, n := w.tables, |rows|;
    var after, charges := RekeyedAll(t, rows, news, n), RenamedCharges(rows, news, w.charges);
    assert rows[..n] == rows;
    assert forall i | 0 <= i < n :: InUse(t, rows[i]);
    forall c | c in w.charges ensures c.owner !in news && InUse(t, c.owner) {
      assert (c.owner, c.day).0 == c.owner;
    }
    if name in rows {
      if InUse(after, name) { RekeyedUses(t, rows, news, n, name); }
      UnusedIsEmpty(after, name, day);
      forall c | c in charges ensures c.owner != name {
        var i :| 0 <= i < |charges| && charges[i] == c;
        assert w.charges[i] in w.charges;
        RenamedIs(t, rows, news, n, w.charges[i].owner);
      }
      NoCharges(charges, name, day);
    } else {
      var owner := Origin(t, rows, news, name);
      RekeyedAllMoves(t, rows, news, n, owner);
      forall c | c in w.charges ensures Renamed(rows, news, n, c.owner) == name <==> c.owner == owner {
        RenamedApart(t, rows, news, owner, c.owner);
      }
      RenamedAdmitted(rows, news, w.charges, owner, name, day);
      assert WithinCaps(w, owner, day);
    }
  }

  lemma RowsStay(hash: string -> string, w: World, e: Event, k: (string, string))
    requires Possible(hash, w, e) && !e.Retire? && k in w.tables.daily
    ensures k in Next(hash, w, e).tables.daily
  {
  }

  lemma ChargesHaveRows(hash: string -> string, w: World, e: Event)
    requires Possible(hash, w, e) && Inv(w)
    ensures forall c | c in Next(hash, w, e).charges :: (c.owner, c.day) in Next(hash, w, e).tables.daily
  {
    var after := Next(hash, w, e);
    if e.Retire? {
      var t, n := w.tables, |e.rows|;
      GuessableApart(hash, t, e.rows, e.news);
      forall c | c in after.charges ensures (c.owner, c.day) in after.tables.daily {
        var i :| 0 <= i < |after.charges| && after.charges[i] == c;
        var x := w.charges[i];
        assert x in w.charges && (x.owner, x.day).0 == x.owner && InUse(t, x.owner);
        RekeyedAllMoves(t, e.rows, e.news, n, x.owner);
      }
    } else {
      forall c | c in after.charges ensures (c.owner, c.day) in after.tables.daily {
        if c in w.charges { RowsStay(hash, w, e, (c.owner, c.day)); }
      }
    }
  }

  lemma StepKeeps(hash: string -> string, w: World, e: Event)
    requires Possible(hash, w, e) && Inv(w)
    ensures Inv(Next(hash, w, e))
  {
    ChargesHaveRows(hash, w, e);
    forall owner, day ensures WithinCaps(Next(hash, w, e), owner, day) {
      StepKeepsCaps(hash, w, e, owner, day);
    }
  }

  lemma StepKeepsCaps(hash: string -> string, w: World, e: Event, owner: string, day: string)
    requires Possible(hash, w, e) && Inv(w)
    ensures WithinCaps(Next(hash, w, e), owner, day)
  {
    assert WithinCaps(w, owner, day);
    match e
    case Start(_, _, _) => StartKeeps(w.tables, e, owner);
    case Record(o, upload, bytes, d, now) => RecordKeeps(w, o, upload, bytes, d, now, owner, day);
    case ChargeManifest(o, bytes, d) => ChargeKeeps(w, o, bytes, d, owner, day);
    case Finalize(o, upload, d) => FinalizeKeeps(w, o, upload, d, owner, day);
    case Retire(rows, news) =>
      GuessableApart(hash, w.tables, rows, news);
      RetireKeepsCaps(w, rows, news, owner, day);
  }

  ghost predicate CanRun(hash: string -> string, w: World, es: seq<Event>)
    decreases |es|, 0
  {
    es == [] || (CanRun(hash, w, es[..|es| - 1]) && Possible(hash, After(hash, w, es[..|es| - 1]), es[|es| - 1]))
  }

  ghost function After(hash: string -> string, w: World, es: seq<Event>): World
    requires CanRun(hash, w, es)
    decreases |es|, 1
  {
    if es == [] then w else Next(hash, After(hash, w, es[..|es| - 1]), es[|es| - 1])
  }

  /** Registered keys and no uploads yet. */
  function Fresh(keys: map<string, KeyRow>, account: Limits): World { World(Tables(keys, map[], map[], account), []) }

  /**
   * In every run, re-keyings included, each owner's open uploads, bytes and receipts stay
   * within its caps on every day, and its byte counter is the sum of the charges admitted.
   */
  lemma {:induction false} EveryRunStaysWithinCaps(hash: string -> string, keys: map<string, KeyRow>, account: Limits,
      es: seq<Event>)
    requires CanRun(hash, Fresh(keys, account), es)
    ensures Inv(After(hash, Fresh(keys, account), es))
    decreases |es|
  {
    if es == [] {
      assert forall owner :: Active(map[], owner) == {};
    } else {
      EveryRunStaysWithinCaps(hash, keys, account, es[..|es| - 1]);
      StepKeeps(hash, After(hash, Fresh(keys, account), es[..|es| - 1]), es[|es| - 1]);
    }
  }
}
