/**
 * Runs of the upload signature check (src/auth.ts: verify, await eligibility, spend). Requests
 * interleave freely between their verification and their spend, every spend purges the store,
 * and the gateway restarts, with or without its store. The clock may read anything; where a
 * theorem needs readings that do not decrease it says so.
 */
module SigRuns {
  import opened UploadSigs
  import opened Decimal

  /** A request that was verified, and what was read from it. */
  datatype Item = Item(request: Request, id: string, upload: Upload)

  datatype World = World(used: Used, clock: int, start: int, pending: seq<Item>, accepted: seq<Item>)

  datatype Event =
    | Arrive(item: Item, now: int)
    | Settle(i: nat, eligible: bool, now: int)
    | Restart(now: int)
    | Lose(kept: Used, now: int)

  ghost predicate Possible(env: Env, w: World, e: Event) {
    && (e.Arrive? ==> Authentic(env, e.item.request, e.item.id, e.now, w.start, e.item.upload))
    && (e.Settle? ==> e.i < |w.pending|)
    && (e.Lose? ==> forall s | s in e.kept :: s in w.used && e.kept[s] == w.used[s])
  }

  function Without(items: seq<Item>, i: nat): seq<Item>
    requires i < |items|
  {
    items[..i] + items[i + 1..]
  }

  ghost function Next(env: Env, w: World, e: Event): World
    requires Possible(env, w, e)
  {
    match e
    case Arrive(item, now) => w.(clock := now, pending := w.pending + [item])
    case Settle(i, eligible, now) =>
      var spent := Spent(env, w.used, w.pending[i].upload, now);
      var rest := w.(clock := now, pending := Without(w.pending, i));
      if !eligible then rest
      else rest.(used := spent.1, accepted := if spent.0 then w.accepted + [w.pending[i]] else w.accepted)
    case Restart(now) => w.(clock := now, start := now, pending := [])
    case Lose(kept, now) => w.(used := kept, clock := now, start := now, pending := [])
  }

  ghost predicate CanRun(env: Env, w: World, es: seq<Event>)
    decreases |es|, 0
  {
    es == [] || (CanRun(env, w, es[..|es| - 1]) && Possible(env, After(env, w, es[..|es| - 1]), es[|es| - 1]))
  }

  ghost function After(env: Env, w: World, es: seq<Event>): World
    requires CanRun(env, w, es)
    decreases |es|, 1
  {
    if es == [] then w else Next(env, After(env, w, es[..|es| - 1]), es[|es| - 1])
  }

  /** The readings of the clock do not decrease. */
  ghost predicate Forward(env: Env, w: World, es: seq<Event>)
    requires CanRun(env, w, es)
    decreases |es|
  {
    es == [] || (Forward(env, w, es[..|es| - 1]) && es[|es| - 1].now >= After(env, w, es[..|es| - 1]).clock)
  }

  /** A gateway that has accepted nothing yet. */
  predicate Started(w: World) { w.pending == [] && w.accepted == [] && w.start <= w.clock }

  predicate KeepsStore(es: seq<Event>) { forall i | 0 <= i < |es| :: !es[i].Lose? }

  // ------------------------------------------------------------ what every step keeps

  /** While an accepted signature's window is open, the store still holds it, and for at least as long. */
  ghost predicate Remembered(env: Env, w: World) {
    forall a, s | a in w.accepted && s in a.upload.signatures && a.upload.ts + env.window >= w.clock ::
      s in w.used && w.used[s] >= a.upload.ts + env.window
  }

  /** Two accepted requests that share a signature carry strictly rising times. */
  ghost predicate Rising(w: World) {
    forall i, j, s | 0 <= i < j < |w.accepted| && s in w.accepted[i].upload.signatures
       && s in w.accepted[j].upload.signatures ::
      w.accepted[i].upload.ts < w.accepted[j].upload.ts
  }

  lemma PurgeKeeps(used: Used, now: int, s: string, until: int)
    requires s in used && used[s] >= until >= now
    ensures s in Purged(used, now) && Purged(used, now)[s] == used[s]
  {
  }

  /** A request that shares a signature with an accepted one is refused while that one's window is open. */
  lemma {:induction false} SharedSignatureRefused(env: Env, w: World, a: Item, u: Upload, s: string, now: int)
    requires Remembered(env, w) && a in w.accepted && now >= w.clock
    requires s in a.upload.signatures && s in u.signatures && a.upload.ts + env.window >= now
    ensures !Spent(env, w.used, u, now).0
  {
    PurgeKeeps(w.used, now, s, a.upload.ts + env.window);
    var i :| 0 <= i < |u.signatures| && u.signatures[i] == s;
    assert u.signatures[i] in Purged(w.used, now);
  }

  lemma {:induction false} SpendKeepsRemembered(env: Env, w: World, i: nat, now: int)
    requires Remembered(env, w) && now >= w.clock && i < |w.pending|
    ensures Remembered(env, Next(env, w, Settle(i, true, now)))
  {
    var t, u := Next(env, w, Settle(i, true, now)), w.pending[i].upload;
    forall a, s | a in t.accepted && s in a.upload.signatures && a.upload.ts + env.window >= now
      ensures s in t.used && t.used[s] >= a.upload.ts + env.window
    {
      if a in w.accepted {
        PurgeKeeps(w.used, now, s, a.upload.ts + env.window);
        if Spent(env, w.used, u, now).0 && s in u.signatures {
          SharedSignatureRefused(env, w, a, u, s, now);
        }
      }
    }
  }

  lemma {:induction false} SpendKeepsRising(env: Env, w: World, i: nat, now: int)
    requires Remembered(env, w) && Rising(w) && now >= w.clock && i < |w.pending|
    ensures Rising(Next(env, w, Settle(i, true, now)))
  {
    var t, u := Next(env, w, Settle(i, true, now)), w.pending[i].upload;
    if Spent(env, w.used, u, now).0 {
      forall j, s | 0 <= j < |w.accepted| && s in w.accepted[j].upload.signatures && s in u.signatures
        ensures w.accepted[j].upload.ts < u.ts
      {
        if w.accepted[j].upload.ts + env.window >= now {
          SharedSignatureRefused(env, w, w.accepted[j], u, s, now);
        }
      }
    }
  }

  lemma {:induction false} RunKeeps(env: Env, w: World, es: seq<Event>)
    requires CanRun(env, w, es) && Forward(env, w, es) && KeepsStore(es) && Remembered(env, w) && Rising(w)
    ensures Remembered(env, After(env, w, es)) && Rising(After(env, w, es))
    decreases |es|
  {
    if es != [] {
      var init, e := es[..|es| - 1], es[|es| - 1];
      RunKeeps(env, w, init);
      var before := After(env, w, init);
      if e.Settle? && e.eligible {
        SpendKeepsRemembered(env, before, e.i, e.now);
        SpendKeepsRising(env, before, e.i, e.now);
      }
    }
  }

  // ------------------------------------------------------------ every signature signs once

  /** The item's signatures sign its messages. */
  predicate Signed(env: Env, x: Item) {
    var carried := CarriedBy(x.request, x.id, x.upload.address, x.upload.ts);
    x.upload.signatures == KeysOf(carried) && AllSign(env, x.upload.address, carried)
  }

  lemma {:induction false} RunKeepsSigned(env: Env, w: World, es: seq<Event>, x: Item)
    requires CanRun(env, w, es) && (x in w.pending || x in w.accepted ==> Signed(env, x))
    ensures x in After(env, w, es).pending || x in After(env, w, es).accepted ==> Signed(env, x)
    decreases |es|
  {
    if es != [] {
      RunKeepsSigned(env, w, es[..|es| - 1], x);
    }
  }

  lemma MessageTime(x: Item, c: Carried) returns (head: string)
    requires c in CarriedBy(x.request, x.id, x.upload.address, x.upload.ts)
    ensures c.message == head + "|" + Dec(x.upload.ts)
  {
    var r, id, address := x.request, x.id, x.upload.address;
    if c.message == V1Message(id, address, x.upload.ts) {
      head := "materios-upload-v1|" + id + "|" + address;
    } else {
      head := "materios-upload-v2|" + r.verb + "|" + r.path + "|" + r.bodySha256 + "|" + id + "|" + address;
    }
  }

  /** What the signature of a verified request signs. */
  lemma SignedMessage(env: Env, x: Item, s: string) returns (c: Carried)
    requires Signed(env, x) && s in x.upload.signatures
    ensures c in CarriedBy(x.request, x.id, x.upload.address, x.upload.ts)
    ensures SignatureKey(c.sig) == s && env.verifies(c.message, s, x.upload.address)
  {
    var carried := CarriedBy(x.request, x.id, x.upload.address, x.upload.ts);
    var i :| 0 <= i < |carried| && KeysOf(carried)[i] == s;
    c := carried[i];
  }

  /**
   * At-most-once acceptance. In any interleaving of requests, purges and restarts that keep
   * the store, a signature accepted twice would have to sign two different messages.
   */
  lemma {:induction false} AcceptedTwiceSignsTwice(env: Env, w: World, es: seq<Event>, i: nat, j: nat, s: string)
    returns (c: Carried, d: Carried)
    requires Started(w) && CanRun(env, w, es) && Forward(env, w, es) && KeepsStore(es)
    requires i < j < |After(env, w, es).accepted|
    requires s in After(env, w, es).accepted[i].upload.signatures
       && s in After(env, w, es).accepted[j].upload.signatures
    ensures var a, b := After(env, w, es).accepted[i].upload, After(env, w, es).accepted[j].upload;
      c.message != d.message && env.verifies(c.message, s, a.address) && env.verifies(d.message, s, b.address)
  {
    RunKeeps(env, w, es);
    var a, b := After(env, w, es).accepted[i], After(env, w, es).accepted[j];
    RunKeepsSigned(env, w, es, a);
    RunKeepsSigned(env, w, es, b);
    c := SignedMessage(env, a, s);
    d := SignedMessage(env, b, s);
    var x := MessageTime(a, c);
    var y := MessageTime(b, d);
    if c.message == d.message {
      MessageNamesItsTime(x, y, a.upload.ts, b.upload.ts);
    }
  }

  /**
   * A request that repeats a signature of an accepted one, with a time no later, is never
   * accepted: not the v1 of a v2 pair alone either.
   */
  lemma {:induction false} ReplayRefused(env: Env, w: World, es: seq<Event>, a: Item, u: Upload, s: string, now: int)
    requires Started(w) && CanRun(env, w, es) && Forward(env, w, es) && KeepsStore(es)
    requires now >= After(env, w, es).clock
    requires a in After(env, w, es).accepted && s in a.upload.signatures && s in u.signatures && u.ts <= a.upload.ts
    ensures !Spent(env, After(env, w, es).used, u, now).0
  {
    RunKeeps(env, w, es);
    if a.upload.ts + env.window >= now {
      SharedSignatureRefused(env, After(env, w, es), a, u, s, now);
    }
  }

  /** A refused request enters none of its signatures, an accepted one all of them. */
  lemma AllOrNone(env: Env, used: Used, u: Upload, now: int)
    ensures var (ok, after) := Spent(env, used, u, now);
      if ok then forall s | s in u.signatures :: s in after && after[s] == u.ts + env.window
      else forall s | s in after :: s in used && after[s] == used[s]
  {
  }

  // ------------------------------------------------------------ a lost store

  /** What is verified since the last start carries a time no earlier than it. */
  ghost predicate SinceStart(w: World, n: nat, at: int) {
    && at <= w.start <= w.clock
    && (forall x | x in w.pending :: x.upload.ts >= w.start)
    && n <= |w.accepted| && (forall i | n <= i < |w.accepted| :: w.accepted[i].upload.ts >= at)
  }

  lemma {:induction false} RunKeepsSinceStart(env: Env, w: World, es: seq<Event>, n: nat, at: int)
    requires CanRun(env, w, es) && Forward(env, w, es) && SinceStart(w, n, at)
    ensures SinceStart(After(env, w, es), n, at)
    decreases |es|
  {
    if es != [] {
      RunKeepsSinceStart(env, w, es[..|es| - 1], n, at);
    }
  }

  /** After the store is lost, whatever is accepted carries a time no earlier than the new start. */
  lemma {:induction false} LostStoreRefusesOlder(env: Env, w: World, kept: Used, now: int, es: seq<Event>, i: nat)
    requires Possible(env, w, Lose(kept, now)) && CanRun(env, Next(env, w, Lose(kept, now)), es)
    requires Forward(env, Next(env, w, Lose(kept, now)), es)
    requires |w.accepted| <= i < |After(env, Next(env, w, Lose(kept, now)), es).accepted|
    ensures After(env, Next(env, w, Lose(kept, now)), es).accepted[i].upload.ts >= now
  {
    RunKeepsSinceStart(env, Next(env, w, Lose(kept, now)), es, |w.accepted|, now);
  }

  /** The request was verified at some time. */
  ghost predicate WasAuthentic(env: Env, x: Item) {
    exists now, start :: Authentic(env, x.request, x.id, now, start, x.upload)
  }

  lemma {:induction false} RunKeepsAuthentic(env: Env, w: World, es: seq<Event>, x: Item)
    requires CanRun(env, w, es) && (x in w.pending || x in w.accepted ==> WasAuthentic(env, x))
    ensures x in After(env, w, es).pending || x in After(env, w, es).accepted ==> WasAuthentic(env, x)
    decreases |es|
  {
    if es != [] {
      RunKeepsAuthentic(env, w, es[..|es| - 1], x);
    }
  }

  /** Among what was accepted after the first `n`. */
  predicate AcceptedSince(w: World, n: nat, x: Item) { exists i :: n <= i < |w.accepted| && w.accepted[i] == x }

  /**
   * The request, accepted in `w`, is accepted again in some run that goes on from there, keeps
   * its store and has readings that do not decrease.
   */
  ghost predicate CanBeAcceptedAgain(env: Env, w: World, x: Item) {
    exists es ::
      CanRun(env, w, es) && Forward(env, w, es) && KeepsStore(es) && AcceptedSince(After(env, w, es), |w.accepted|, x)
  }

  /** Until its window closes the signature is held, and until then the request was not accepted again. */
  ghost predicate Held(env: Env, w: World, n: nat, x: Item, s: string) {
    && (w.clock <= x.upload.ts + env.window ==> s in w.used && w.used[s] >= x.upload.ts + env.window)
    && !AcceptedSince(w, n, x) && n <= |w.accepted|
  }

  lemma {:induction false} RunKeepsHeld(env: Env, w: World, es: seq<Event>, n: nat, x: Item, s: string)
    requires CanRun(env, w, es) && Forward(env, w, es) && KeepsStore(es)
    requires s in x.upload.signatures && Held(env, w, n, x, s)
    ensures Held(env, After(env, w, es), n, x, s)
    decreases |es|
  {
    if es != [] {
      var init, e := es[..|es| - 1], es[|es| - 1];
      RunKeepsHeld(env, w, init, n, x, s);
      var before := After(env, w, init);
      if e.Settle? && e.eligible {
        SpendKeepsHeld(env, before, e.i, e.now, n, x, s);
      }
    }
  }

  lemma SpendKeepsHeld(env: Env, w: World, i: nat, now: int, n: nat, x: Item, s: string)
    requires now >= w.clock && i < |w.pending| && s in x.upload.signatures && Held(env, w, n, x, s)
    ensures Held(env, Next(env, w, Settle(i, true, now)), n, x, s)
  {
    var u := w.pending[i].upload;
    if now <= x.upload.ts + env.window {
      PurgeKeeps(w.used, now, s, x.upload.ts + env.window);
      if s in u.signatures {
        var j :| 0 <= j < |u.signatures| && u.signatures[j] == s;
        assert u.signatures[j] in Purged(w.used, now);
        assert !Spent(env, w.used, u, now).0;
      }
    } else {
      assert w.pending[i] == x ==> !Fresh(env, u.ts, now);
    }
  }

  /** A request verified earlier can be verified and accepted at the time it carries, when that is still to come. */
  lemma {:induction false} AcceptedAtItsTime(env: Env, w: World, x: Item)
    requires WasAuthentic(env, x) && w.clock <= x.upload.ts && w.start <= x.upload.ts
    requires forall s | s in x.upload.signatures :: s !in w.used
    ensures CanBeAcceptedAgain(env, w, x)
  {
    var ts, n := x.upload.ts, |w.pending|;
    var arrive, settle := Arrive(x, ts), Settle(n, true, ts);
    var there := Next(env, w, arrive);
    assert there.pending[n] == x;
    assert [arrive, settle][..1] == [arrive] && [arrive][..0] == [];
    assert CanRun(env, w, []) && After(env, w, []) == w;
    assert CanRun(env, w, [arrive]) && After(env, w, [arrive]) == there && Forward(env, w, [arrive]);
    var after := Next(env, there, settle);
    assert After(env, w, [arrive, settle]) == after && Forward(env, w, [arrive, settle]);
    assert after.accepted[|w.accepted|] == x;
  }

  /**
   * A request accepted in some run, and then a store that is lost up to what is in `kept`: the
   * request can be accepted once more exactly if the new start is no later than the time it
   * carries and none of its signatures was kept.
   */
  lemma {:induction false} LostStoreAcceptsAgainExactly(env: Env, w: World, es: seq<Event>, x: Item, kept: Used,
      now: int)
    requires Started(w) && CanRun(env, w, es) && Forward(env, w, es) && KeepsStore(es)
    requires x in After(env, w, es).accepted
    requires Possible(env, After(env, w, es), Lose(kept, now)) && now >= After(env, w, es).clock
    ensures CanBeAcceptedAgain(env, Next(env, After(env, w, es), Lose(kept, now)), x) <==>
      x.upload.ts >= now && forall s | s in x.upload.signatures :: s !in kept
  {
    var before := After(env, w, es);
    var lost := Next(env, before, Lose(kept, now));
    RunKeepsAuthentic(env, w, es, x);
    if x.upload.ts >= now && forall s | s in x.upload.signatures :: s !in kept {
      AcceptedAtItsTime(env, lost, x);
    }
    if more :|
        && CanRun(env, lost, more) && Forward(env, lost, more) && KeepsStore(more)
        && AcceptedSince(After(env, lost, more), |lost.accepted|, x) {
      var i :| |lost.accepted| <= i < |After(env, lost, more).accepted| && After(env, lost, more).accepted[i] == x;
      LostStoreRefusesOlder(env, before, kept, now, more, i);
      RunKeeps(env, w, es);
      forall s | s in x.upload.signatures ensures s !in kept {
        if s in kept { RunKeepsHeld(env, lost, more, |lost.accepted|, x, s); }
      }
    }
  }
}
