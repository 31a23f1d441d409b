/**
 * The upload signature check under a clock that may read anything, earlier times included:
 * what the store of used signatures holds after any run, and exactly when a request that was
 * accepted can be accepted again.
 */
module SigClock {
  import opened Common
  import opened Decimal
  import opened Hex
  import opened SigRuns
  import opened UploadSigs

  // ------------------------------------------------------------ what the store holds

  /** A spend that reaches the store, which is purged at its reading. */
  ghost predicate Purges(env: Env, w: World, e: Event) {
    e.Settle? && e.eligible && e.i < |w.pending| && Fresh(env, w.pending[e.i].upload.ts, e.now)
  }

  ghost predicate Accepts(env: Env, w: World, e: Event, x: Item) {
    Purges(env, w, e) && w.pending[e.i] == x && Spent(env, w.used, x.upload, e.now).0
  }

  /** When a request's window closes, and its signatures may be purged. */
  function Until(env: Env, x: Item): int { x.upload.ts + env.window }

  /** The request was accepted with this signature, and no spend since then read a time past its window. */
  ghost predicate Holds(env: Env, w: World, es: seq<Event>, x: Item, s: string)
    requires CanRun(env, w, es)
    decreases |es|
  {
    && es != []
    && var init, e := es[..|es| - 1], es[|es| - 1];
    var before := After(env, w, init);
    || (Accepts(env, before, e, x) && s in x.upload.signatures)
    || (Holds(env, w, init, x, s) && !(Purges(env, before, e) && e.now > Until(env, x)) && (e.Lose? ==> s in e.kept))
  }

  /** What a step leaves of a signature that is not being spent. */
  lemma StepKeepsUsed(env: Env, w: World, e: Event, s: string)
    requires Possible(env, w, e) && s in w.used
    requires (Purges(env, w, e) ==> w.used[s] >= e.now) && (e.Lose? ==> s in e.kept)
    ensures s in Next(env, w, e).used && Next(env, w, e).used[s] == w.used[s]
  {
    if Purges(env, w, e) {
      var u := w.pending[e.i].upload;
      assert s in Purged(w.used, e.now);
      if s in u.signatures {
        var j :| 0 <= j < |u.signatures| && u.signatures[j] == s;
        assert AnyUsed(Purged(w.used, e.now), u.signatures);
      }
    }
  }

  lemma {:induction false} HoldsIsUsed(env: Env, w: World, es: seq<Event>, x: Item, s: string)
    requires CanRun(env, w, es) && Holds(env, w, es, x, s)
    ensures s in After(env, w, es).used && After(env, w, es).used[s] == Until(env, x)
    decreases |es|
  {
    var init, e := es[..|es| - 1], es[|es| - 1];
    var before := After(env, w, init);
    if !(Accepts(env, before, e, x) && s in x.upload.signatures) {
      HoldsIsUsed(env, w, init, x, s);
      StepKeepsUsed(env, before, e, s);
    }
  }

  /** A signature in the store after a step was there before, or the step accepted a request with it. */
  lemma UsedComesFrom(env: Env, w: World, e: Event, s: string)
    requires Possible(env, w, e) && s in Next(env, w, e).used
    ensures (e.Settle? && Accepts(env, w, e, w.pending[e.i]) && s in w.pending[e.i].upload.signatures)
      || (s in w.used && (Purges(env, w, e) ==> w.used[s] >= e.now) && (e.Lose? ==> s in e.kept))
  {
  }

  ghost predicate IsHeld(env: Env, w: World, es: seq<Event>, s: string)
    requires CanRun(env, w, es)
  {
    exists x :: Holds(env, w, es, x, s)
  }

  /**
   * After any run from an empty store, whatever the clock read, the store holds a signature
   * exactly if some request was accepted with it and no spend since then read a time past that
   * request's window; and it holds it until that window closes.
   */
  lemma StoreHoldsExactly(env: Env, w: World, es: seq<Event>, s: string)
    requires CanRun(env, w, es) && w.used == map[]
    ensures s in After(env, w, es).used <==> IsHeld(env, w, es, s)
    ensures forall x | Holds(env, w, es, x, s) ::
      s in After(env, w, es).used && After(env, w, es).used[s] == Until(env, x)
  {
    forall x | Holds(env, w, es, x, s)
      ensures s in After(env, w, es).used && After(env, w, es).used[s] == Until(env, x)
    {
      HoldsIsUsed(env, w, es, x, s);
    }
    if s in After(env, w, es).used {
      var x := HolderExists(env, w, es, s);
    }
  }

  lemma {:induction false} HolderExists(env: Env, w: World, es: seq<Event>, s: string) returns (x: Item)
    requires CanRun(env, w, es) && w.used == map[] && s in After(env, w, es).used
    ensures Holds(env, w, es, x, s)
    decreases |es|
  {
    if es == [] {
      assert false;
    } else {
      var init, e := es[..|es| - 1], es[|es| - 1];
      var before := After(env, w, init);
      UsedComesFrom(env, before, e, s);
      if e.Settle? && Accepts(env, before, e, before.pending[e.i]) && s in before.pending[e.i].upload.signatures {
        x := before.pending[e.i];
      } else {
        x := HolderExists(env, w, init, s);
        HoldsIsUsed(env, w, init, x, s);
      }
    }
  }

  // ------------------------------------------------------------ accepted again

  /** Every request that still holds the signature has its window closed at this reading. */
  ghost predicate Free(env: Env, w: World, es: seq<Event>, s: string, now: int)
    requires CanRun(env, w, es)
  {
    forall x | Holds(env, w, es, x, s) :: Until(env, x) < now
  }

  lemma FreeIsPurged(env: Env, w: World, es: seq<Event>, s: string, now: int)
    requires CanRun(env, w, es) && w.used == map[]
    ensures Free(env, w, es, s, now) <==> s !in Purged(After(env, w, es).used, now)
  {
    StoreHoldsExactly(env, w, es, s);
    if s in After(env, w, es).used {
      var x :| Holds(env, w, es, x, s);
      assert After(env, w, es).used[s] == Until(env, x);
    }
  }

  /** After any run, a spend succeeds exactly if it is fresh and each of its signatures is free. */
  lemma SpendsExactly(env: Env, w: World, es: seq<Event>, u: Upload, now: int)
    requires CanRun(env, w, es) && w.used == map[]
    ensures Spent(env, After(env, w, es).used, u, now).0 <==>
      Fresh(env, u.ts, now) && forall s | s in u.signatures :: Free(env, w, es, s, now)
  {
    var used := After(env, w, es).used;
    forall s ensures Free(env, w, es, s, now) <==> s !in Purged(used, now) { FreeIsPurged(env, w, es, s, now); }
    if Spent(env, used, u, now).0 {
      forall s | s in u.signatures ensures s !in Purged(used, now) {
        var j :| 0 <= j < |u.signatures| && u.signatures[j] == s;
      }
    }
  }

  /** The request arrives at this reading and is spent at once. */
  function Retry(w: World, x: Item, now: int): seq<Event> { [Arrive(x, now), Settle(|w.pending|, true, now)] }

  ghost predicate RetryAccepted(env: Env, w: World, x: Item, now: int) {
    CanRun(env, w, Retry(w, x, now)) && AcceptedSince(After(env, w, Retry(w, x, now)), |w.accepted|, x)
  }

  lemma RetryRuns(env: Env, w: World, x: Item, now: int)
    ensures CanRun(env, w, Retry(w, x, now)) <==> Authentic(env, x.request, x.id, now, w.start, x.upload)
    ensures RetryAccepted(env, w, x, now) <==>
      Authentic(env, x.request, x.id, now, w.start, x.upload) && Spent(env, w.used, x.upload, now).0
  {
    var es := Retry(w, x, now);
    var none: seq<Event> := [];
    assert es[..1] == [es[0]] && [es[0]][..0] == none && es[..|es| - 1] == [es[0]];
    assert CanRun(env, w, none) && After(env, w, none) == w;
    assert CanRun(env, w, [es[0]]) <==> Possible(env, w, es[0]);
    if Possible(env, w, es[0]) {
      var there := Next(env, w, es[0]);
      assert After(env, w, [es[0]]) == there && there.pending[|w.pending|] == x;
      var after := Next(env, there, es[1]);
      assert After(env, w, es) == after;
      if Spent(env, w.used, x.upload, now).0 { assert after.accepted[|w.accepted|] == x; }
    }
  }

  /**
   * After any run, whatever the clock read, a request can be accepted (once more, if it was
   * before) exactly if it is authentic at the new reading and each of its signatures was never
   * used, or has since been purged by a spend that read a time past the window it was used in,
   * or that window is over now.
   */
  lemma AcceptedAgainExactly(env: Env, w: World, es: seq<Event>, x: Item, now: int)
    requires CanRun(env, w, es) && w.used == map[]
    ensures RetryAccepted(env, After(env, w, es), x, now) <==>
      && Authentic(env, x.request, x.id, now, After(env, w, es).start, x.upload)
      && forall s | s in x.upload.signatures :: Free(env, w, es, s, now)
  {
    RetryRuns(env, After(env, w, es), x, now);
    SpendsExactly(env, w, es, x.upload, now);
  }

  // ------------------------------------------------------------ the clock must step back

  /** Some spend in the run read a time past the request's window. */
  predicate PassedBy(env: Env, es: seq<Event>, x: Item) {
    exists q :: 0 <= q < |es| && es[q].Settle? && es[q].eligible && es[q].now > Until(env, x)
  }

  lemma PassedEarlier(env: Env, es: seq<Event>, x: Item)
    requires es != [] && PassedBy(env, es[..|es| - 1], x)
    ensures PassedBy(env, es, x)
  {
    var q :| 0 <= q < |es| - 1 && es[..|es| - 1][q].Settle? && es[..|es| - 1][q].eligible
      && es[..|es| - 1][q].now > Until(env, x);
    assert es[q] == es[..|es| - 1][q];
  }

  /** What was accepted is still held, unless a spend read a time past its window. */
  lemma {:induction false} AcceptedIsHeldOrPassed(env: Env, w: World, es: seq<Event>, x: Item, s: string)
    requires Started(w) && CanRun(env, w, es) && KeepsStore(es)
    requires x in After(env, w, es).accepted && s in x.upload.signatures
    ensures Holds(env, w, es, x, s) || PassedBy(env, es, x)
    decreases |es|
  {
    if es != [] {
      var init, e := es[..|es| - 1], es[|es| - 1];
      var before := After(env, w, init);
      if !Accepts(env, before, e, x) {
        assert x in before.accepted;
        AcceptedIsHeldOrPassed(env, w, init, x, s);
        if PassedBy(env, init, x) {
          PassedEarlier(env, es, x);
        } else if Purges(env, before, e) && e.now > Until(env, x) {
          assert es[|es| - 1] == e;
        }
      }
    }
  }

  /** An accepted request carries a signature. */
  lemma SignedAtLeastOnce(env: Env, x: Item)
    requires WasAuthentic(env, x)
    ensures x.upload.signatures != []
  {
  }

  /** A spend that accepts a request finds its signatures free: what held them was passed by. */
  lemma AcceptedWasPassed(env: Env, w: World, es: seq<Event>, e: Event, x: Item)
    requires Started(w) && CanRun(env, w, es) && KeepsStore(es) && x in After(env, w, es).accepted
    requires Possible(env, After(env, w, es), e) && Accepts(env, After(env, w, es), e, x)
    ensures PassedBy(env, es, x) && e.now <= Until(env, x)
  {
    RunKeepsAuthentic(env, w, es, x);
    SignedAtLeastOnce(env, x);
    var s := x.upload.signatures[0];
    AcceptedIsHeldOrPassed(env, w, es, x, s);
    if Holds(env, w, es, x, s) { HoldsIsUsed(env, w, es, x, s); }
  }

  /** In the run a spend read a time past the request's window, and a later spend accepted it at a time in it. */
  ghost predicate SteppedBack(env: Env, es: seq<Event>, x: Item) {
    exists q, r :: 0 <= q < r < |es| && es[q].Settle? && es[r].Settle? && es[q].now > Until(env, x) >= es[r].now
  }

  lemma SteppedBackEarlier(env: Env, es: seq<Event>, x: Item)
    requires es != [] && SteppedBack(env, es[..|es| - 1], x)
    ensures SteppedBack(env, es, x)
  {
    var init := es[..|es| - 1];
    var q, r :| 0 <= q < r < |init| && init[q].Settle? && init[r].Settle? && init[q].now > Until(env, x) >= init[r].now;
    assert es[q] == init[q] && es[r] == init[r];
  }

  lemma SteppedBackNow(env: Env, es: seq<Event>, x: Item)
    requires es != [] && PassedBy(env, es[..|es| - 1], x)
    requires es[|es| - 1].Settle? && es[|es| - 1].now <= Until(env, x)
    ensures SteppedBack(env, es, x)
  {
    var init := es[..|es| - 1];
    var q :| 0 <= q < |init| && init[q].Settle? && init[q].eligible && init[q].now > Until(env, x);
    assert es[q] == init[q] && es[|es| - 1].now <= Until(env, x);
  }

  /**
   * At-most-once whatever the clock reads: in every run that keeps its store, a request that is
   * accepted twice was passed by, and then the clock stepped back into its window.
   */
  lemma {:induction false} AcceptedTwiceSteppedBack(env: Env, w: World, es: seq<Event>, x: Item, i: nat, j: nat)
    requires Started(w) && CanRun(env, w, es) && KeepsStore(es)
    requires i < j < |After(env, w, es).accepted|
    requires After(env, w, es).accepted[i] == x == After(env, w, es).accepted[j]
    ensures SteppedBack(env, es, x)
    decreases |es|
  {
    if es != [] {
      var init, e := es[..|es| - 1], es[|es| - 1];
      var before := After(env, w, init);
      assert forall k | 0 <= k < |init| :: init[k] == es[k];
      if j < |before.accepted| {
        AcceptedTwiceSteppedBack(env, w, init, x, i, j);
        SteppedBackEarlier(env, es, x);
      } else {
        assert Accepts(env, before, e, x) && before.accepted[i] == x;
        AcceptedWasPassed(env, w, init, e, x);
        SteppedBackNow(env, es, x);
      }
    }
  }

  // ------------------------------------------------------------ and then it happens

  /** A request that carries one signature, of one digit repeated, and this time. */
  function SignedWith(digit: char, ts: nat): Item {
    var sig := seq(128, i => digit);
    var request := Request(None, Some(sig), Some("gateway"), Some(Dec(ts)), "POST", "/batches", "");
    Item(request, "id", Upload("gateway", 1, ts, [SignatureKey(sig)]))
  }

  /** An environment in which every signature verifies. */
  function Trusting(window: nat): Env { Env((message, sig, address) => true, address => true, [], window) }

  lemma SignedIsAuthentic(window: nat, digit: char, ts: nat, start: int)
    requires digit == 'a' || digit == 'b'
    requires ts >= start
    ensures var x := SignedWith(digit, ts); Authentic(Trusting(window), x.request, x.id, ts, start, x.upload)
  {
    var x := SignedWith(digit, ts);
    ValueOfDec(ts);
    assert ReadsAs(x.request.ts.value, ts);
    var carried := CarriedBy(x.request, x.id, "gateway", ts);
    assert |carried| == 1 && carried[0].sig == seq(128, i => digit);
    assert Strip0x(carried[0].sig) == carried[0].sig;
    assert WellFormedSig(carried[0].sig);
    assert x.upload.signatures == KeysOf(carried);
  }

  lemma OtherDigitOtherKey(m: nat, n: nat)
    ensures SignedWith('a', m).upload.signatures[0] != SignedWith('b', n).upload.signatures[0]
  {
    assert SignedWith('a', m).upload.signatures[0][0] == 'a';
    assert SignedWith('b', n).upload.signatures[0][0] == 'b';
  }

  lemma RetryWorld(env: Env, w: World, x: Item, now: int)
    requires Authentic(env, x.request, x.id, now, w.start, x.upload) && Spent(env, w.used, x.upload, now).0
    ensures CanRun(env, w, Retry(w, x, now))
    ensures After(env, w, Retry(w, x, now)) ==
      World(Spent(env, w.used, x.upload, now).1, now, w.start, w.pending, w.accepted + [x])
  {
    RetryRuns(env, w, x, now);
    var es := Retry(w, x, now);
    var none: seq<Event> := [];
    assert es[..1] == [es[0]] && [es[0]][..0] == none && es[..|es| - 1] == [es[0]];
    assert After(env, w, none) == w;
    var there := Next(env, w, es[0]);
    assert After(env, w, [es[0]]) == there && there.pending == w.pending + [x];
    assert Without(there.pending, |w.pending|) == w.pending;
  }

  lemma {:induction false} Append(env: Env, w: World, es: seq<Event>, more: seq<Event>)
    requires CanRun(env, w, es) && CanRun(env, After(env, w, es), more)
    ensures CanRun(env, w, es + more) && After(env, w, es + more) == After(env, After(env, w, es), more)
    decreases |more|
  {
    if more == [] {
      assert es + more == es;
    } else {
      Append(env, w, es, more[..|more| - 1]);
      assert (es + more)[..|es + more| - 1] == es + more[..|more| - 1];
      assert (es + more)[|es + more| - 1] == more[|more| - 1];
    }
  }

  lemma StoreAfterTwo(env: Env, a: string, b: string, x: Upload, y: Upload)
    requires a != b && x.signatures == [a] && y.signatures == [b] && y.ts > x.ts + env.window
    ensures var first := Spent(env, map[], x, x.ts);
      var second := Spent(env, first.1, y, y.ts);
      first.0 && second.0 && Spent(env, second.1, x, x.ts).0
  {
    var first := Spent(env, map[], x, x.ts).1;
    assert forall s | s in first :: s == a && first[s] == x.ts + env.window;
    assert Purged(first, y.ts) == map[];
    var second := Spent(env, first, y, y.ts).1;
    assert forall s | s in second :: s == b;
  }

  /** Three requests in turn, each spent as it arrives. */
  lemma ThreeRetries(env: Env, w: World, x: Item, y: Item) returns (es: seq<Event>)
    requires w.pending == []
    requires Authentic(env, x.request, x.id, x.upload.ts, w.start, x.upload)
    requires Authentic(env, y.request, y.id, y.upload.ts, w.start, y.upload)
    requires var first := Spent(env, w.used, x.upload, x.upload.ts);
      var second := Spent(env, first.1, y.upload, y.upload.ts);
      first.0 && second.0 && Spent(env, second.1, x.upload, x.upload.ts).0
    ensures CanRun(env, w, es) && KeepsStore(es) && After(env, w, es).accepted == w.accepted + [x] + [y] + [x]
  {
    RetryWorld(env, w, x, x.upload.ts);
    var a := Retry(w, x, x.upload.ts);
    var one := After(env, w, a);
    RetryWorld(env, one, y, y.upload.ts);
    var b := Retry(one, y, y.upload.ts);
    var two := After(env, one, b);
    RetryWorld(env, two, x, x.upload.ts);
    var c := Retry(two, x, x.upload.ts);
    Append(env, w, a, b);
    Append(env, w, a + b, c);
    es := a + b + c;
  }

  /**
   * It does happen: for every window and time there is a run of requests with well-formed
   * signatures in which a request is accepted, another one is accepted after its window, the
   * clock steps back, and the first is accepted again.
   */
  lemma ClockStepBackAcceptsTwice(window: nat, ts: nat) returns (w: World, es: seq<Event>, x: Item, y: Item)
    ensures Started(w) && CanRun(Trusting(window), w, es) && KeepsStore(es)
    ensures After(Trusting(window), w, es).accepted == [x, y, x] && x != y && x.upload.ts == ts
  {
    x, y := SignedWith('a', ts), SignedWith('b', ts + window + 1);
    w := World(map[], ts, ts, [], []);
    SignedIsAuthentic(window, 'a', ts, ts);
    SignedIsAuthentic(window, 'b', ts + window + 1, ts);
    OtherDigitOtherKey(ts, ts + window + 1);
    StoreAfterTwo(Trusting(window), x.upload.signatures[0], y.upload.signatures[0], x.upload, y.upload);
    es := ThreeRetries(Trusting(window), w, x, y);
    assert [] + [x] + [y] + [x] == [x, y, x];
  }
}
