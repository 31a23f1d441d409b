/**
 * What an upload signature signs: src/upload-auth.ts, lines 53-62. The message of version 2
 * names the whole request, so a signature for one request says nothing about another.
 */
module UploadMessages {
  import opened Common
  import opened Hex
  import opened Decimal
  import opened SigRuns
  import opened UploadSigs

  predicate NoBar(s: string) { forall i | 0 <= i < |s| :: s[i] != '|' }

  lemma SplitAtLast(x: string, a: string, y: string, b: string)
    requires x + "|" + a == y + "|" + b && NoBar(a) && NoBar(b)
    ensures x == y && a == b
  {
    var s := x + "|" + a;
    assert s[|x|] == '|' && s[|y|] == '|';
    assert forall i | |x| < i < |s| :: s[i] == a[i - |x| - 1];
    assert forall i | |y| < i < |s| :: s[i] == b[i - |y| - 1];
    assert s[..|x|] == x && s[..|y|] == y && s[|x| + 1..] == a && s[|y| + 1..] == b;
  }

  lemma SplitAtFirst(a: string, x: string, b: string, y: string)
    requires a + "|" + x == b + "|" + y && NoBar(a) && NoBar(b)
    ensures a == b && x == y
  {
    var s := a + "|" + x;
    assert s[|a|] == '|' && s[|b|] == '|';
    assert forall i | 0 <= i < |a| :: s[i] == a[i];
    assert forall i | 0 <= i < |b| :: s[i] == b[i];
    assert s[..|a|] == a && s[..|b|] == b && s[|a| + 1..] == x && s[|b| + 1..] == y;
  }

  lemma TimeHasNoBar(ts: nat)
    ensures NoBar(Dec(ts))
  {
    forall i | 0 <= i < |Dec(ts)| ensures Dec(ts)[i] != '|' { assert IsDigit(Dec(ts)[i]); }
  }

  /** A message with its address and time taken off its end. */
  lemma EndsWithAddressAndTime(x: string, a: string, m: nat, y: string, b: string, n: nat)
    requires x + "|" + a + "|" + Dec(m) == y + "|" + b + "|" + Dec(n) && NoBar(a) && NoBar(b)
    ensures x == y && a == b && m == n
  {
    TimeHasNoBar(m);
    TimeHasNoBar(n);
    SplitAtLast(x + "|" + a, Dec(m), y + "|" + b, Dec(n));
    DecInjective(m, n);
    SplitAtLast(x, a, y, b);
  }

  /** The start of a version 2 message: the method, then the path, which may hold bars. */
  function Target(r: Request): string { "materios-upload-v2|" + r.verb + "|" + r.path }

  lemma TargetsDiffer(r: Request, q: Request)
    requires Target(r) == Target(q) && NoBar(r.verb) && NoBar(q.verb)
    ensures r.verb == q.verb && r.path == q.path
  {
    var head := "materios-upload-v2|";
    assert Target(r)[|head|..] == r.verb + "|" + r.path;
    assert Target(q)[|head|..] == q.verb + "|" + q.path;
    SplitAtFirst(r.verb, r.path, q.verb, q.path);
  }

  /**
   * A version 2 message names its request: two requests with one message have the same method,
   * path, body, id, address and time. Only the path may hold bars.
   */
  lemma MessageNamesTheRequest(r: Request, id: string, a: string, m: nat, q: Request, jd: string, b: string, n: nat)
    requires NoBar(r.verb) && NoBar(r.bodySha256) && NoBar(id) && NoBar(a)
    requires NoBar(q.verb) && NoBar(q.bodySha256) && NoBar(jd) && NoBar(b)
    requires V2Message(r, id, a, m) == V2Message(q, jd, b, n)
    ensures r.verb == q.verb && r.path == q.path && r.bodySha256 == q.bodySha256 && id == jd && a == b && m == n
  {
    var x, y := Target(r) + "|" + r.bodySha256, Target(q) + "|" + q.bodySha256;
    assert V2Message(r, id, a, m) == x + "|" + id + "|" + a + "|" + Dec(m);
    assert V2Message(q, jd, b, n) == y + "|" + jd + "|" + b + "|" + Dec(n);
    EndsWithAddressAndTime(x + "|" + id, a, m, y + "|" + jd, b, n);
    SplitAtLast(x, id, y, jd);
    SplitAtLast(Target(r), r.bodySha256, Target(q), q.bodySha256);
    TargetsDiffer(r, q);
  }

  /** A version 1 message names the id, the address and the time, and nothing else of a request. */
  lemma OldMessageNamesTheId(id: string, a: string, m: nat, jd: string, b: string, n: nat)
    requires NoBar(a) && NoBar(b)
    ensures V1Message(id, a, m) == V1Message(jd, b, n) <==> id == jd && a == b && m == n
  {
    if V1Message(id, a, m) == V1Message(jd, b, n) {
      var head := "materios-upload-v1|";
      EndsWithAddressAndTime(head + id, a, m, head + jd, b, n);
      assert (head + id)[|head|..] == id && (head + jd)[|head|..] == jd;
    }
  }

  /** No message is of both versions. */
  lemma VersionsDiffer(id: string, a: string, m: nat, r: Request, jd: string, b: string, n: nat)
    ensures V1Message(id, a, m) != V2Message(r, jd, b, n)
  {
    assert V1Message(id, a, m)[17] == '1' && V2Message(r, jd, b, n)[17] == '2';
  }

  predicate Barless(x: Item) {
    NoBar(x.request.verb) && NoBar(x.request.bodySha256) && NoBar(x.id) && NoBar(x.upload.address)
  }

  /** The messages name one request, or both are of version 1 and name one id, address and time. */
  predicate SameRequest(x: Item, y: Item) {
    && x.id == y.id && x.upload.address == y.upload.address && x.upload.ts == y.upload.ts
    && x.request.verb == y.request.verb && x.request.path == y.request.path
    && x.request.bodySha256 == y.request.bodySha256
  }

  predicate OfVersion1(x: Item, c: Carried) { c.message == V1Message(x.id, x.upload.address, x.upload.ts) }

  lemma MessageOf(x: Item, c: Carried)
    requires c in CarriedBy(x.request, x.id, x.upload.address, x.upload.ts)
    ensures OfVersion1(x, c) || c.message == V2Message(x.request, x.id, x.upload.address, x.upload.ts)
  {
  }

  /** One message for two requests: they are the same request, or the message is of version 1. */
  lemma SameMessage(x: Item, c: Carried, y: Item, d: Carried)
    requires Barless(x) && Barless(y) && c.message == d.message
    requires c in CarriedBy(x.request, x.id, x.upload.address, x.upload.ts)
    requires d in CarriedBy(y.request, y.id, y.upload.address, y.upload.ts)
    ensures x.id == y.id && x.upload.address == y.upload.address && x.upload.ts == y.upload.ts
    ensures SameRequest(x, y) || (OfVersion1(x, c) && OfVersion1(y, d))
  {
    MessageOf(x, c);
    MessageOf(y, d);
    var a, b, m, n := x.upload.address, y.upload.address, x.upload.ts, y.upload.ts;
    OldMessageNamesTheId(x.id, a, m, y.id, b, n);
    VersionsDiffer(x.id, a, m, y.request, y.id, b, n);
    VersionsDiffer(y.id, b, n, x.request, x.id, a, m);
    if !OfVersion1(x, c) { MessageNamesTheRequest(x.request, x.id, a, m, y.request, y.id, b, n); }
  }

  /**
   * In any run, whatever the clock reads and whatever is lost: a signature accepted for two
   * requests of different method, path, body, id, address or time verifies for two different
   * messages, both returned, unless it signs a version 1 message for both, which names the id,
   * the address and the time alone.
   */
  lemma {:induction false} AcceptedSignatureNamesItsRequest(env: Env, w: World, es: seq<Event>, x: Item, y: Item,
                                                            s: string)
    returns (c: Carried, d: Carried)
    requires Started(w) && CanRun(env, w, es)
    requires x in After(env, w, es).accepted && y in After(env, w, es).accepted && Barless(x) && Barless(y)
    requires s in x.upload.signatures && s in y.upload.signatures && !SameRequest(x, y)
    ensures env.verifies(c.message, s, x.upload.address) && env.verifies(d.message, s, y.upload.address)
    ensures c.message != d.message || (OfVersion1(x, c) && OfVersion1(y, d))
    ensures x.id != y.id || x.upload.address != y.upload.address || x.upload.ts != y.upload.ts ==>
      c.message != d.message
  {
    RunKeepsSigned(env, w, es, x);
    RunKeepsSigned(env, w, es, y);
    c := SignedMessage(env, x, s);
    d := SignedMessage(env, y, s);
    if c.message == d.message { SameMessage(x, c, y, d); }
  }

  // ------------------------------------------------------------ what is accepted

  /** The signature in a header: 64 bytes in hex, over this text by this address. */
  ghost predicate Proves(env: Env, header: string, text: string, address: string) {
    && |Strip0x(header)| == 128 && (forall i | 0 <= i < 128 :: IsHexDigit(Strip0x(header)[i]))
    && env.verifies(text, Hex.Lower(Strip0x(header)), address)
  }

  ghost predicate Filled(h: Option<string>) { h.Some? && h.value != "" }

  /**
   * What a request must be, header by header. It names an address of an account and a time, at
   * most the window away and not before the start; it is signed, by a batch writer in version 2;
   * and every signature header it has proves the text of its version.
   */
  ghost predicate Proper(env: Env, r: Request, id: string, now: int, start: int, address: string, ts: nat) {
    && Filled(r.address) && r.address.value == address && env.decodes(address)
    && r.ts.Some? && ReadsAs(r.ts.value, ts) && ts <= now + env.window && now <= ts + env.window && start <= ts
    && (Filled(r.sigV2) || Filled(r.sigV1)) && (address in env.batchWriters ==> Filled(r.sigV2))
    && (Filled(r.sigV2) ==> Proves(env, r.sigV2.value,
          "materios-upload-v2|" + r.verb + "|" + r.path + "|" + r.bodySha256 + "|" + id + "|" + address + "|" + Dec(ts),
          address))
    && (Filled(r.sigV1) ==>
          Proves(env, r.sigV1.value, "materios-upload-v1|" + id + "|" + address + "|" + Dec(ts), address))
  }

  lemma CarriedExactly(env: Env, r: Request, id: string, address: string, ts: nat)
    requires Filled(r.address) && r.address.value == address
    ensures AllSign(env, address, CarriedBy(r, id, address, ts)) <==>
      && (Filled(r.sigV2) ==> Proves(env, r.sigV2.value, V2Message(r, id, address, ts), address))
      && (Filled(r.sigV1) ==> Proves(env, r.sigV1.value, V1Message(id, address, ts), address))
  {
    var carried := CarriedBy(r, id, address, ts);
    if Filled(r.sigV2) { assert carried[0] == Carried(r.sigV2.value, V2Message(r, id, address, ts)); }
    if Filled(r.sigV1) {
      assert carried[|carried| - 1] == Carried(r.sigV1.value, V1Message(id, address, ts));
    }
  }

  /** The bytes of every signature the request carries, in lower-case hex, that of version 2 first. */
  function SignatureBytes(r: Request): seq<string> {
    (if r.sigV2.Some? && r.sigV2.value != "" then [Hex.Lower(Strip0x(r.sigV2.value))] else []) +
    (if r.sigV1.Some? && r.sigV1.value != "" then [Hex.Lower(Strip0x(r.sigV1.value))] else [])
  }

  /** A request is authentic exactly if it is proper; then what is read from it is fixed by its headers. */
  lemma AuthenticExactly(env: Env, r: Request, id: string, now: int, start: int, address: string, ts: nat)
    ensures Proper(env, r, id, now, start, address, ts) <==>
      exists u :: Authentic(env, r, id, now, start, u) && u.address == address && u.ts == ts
    ensures forall u | Authentic(env, r, id, now, start, u) ::
      u.version == (if Filled(r.sigV2) then 2 else 1) && u.signatures == SignatureBytes(r)
  {
    var u := Upload(address, if Given(r.sigV2).Some? then 2 else 1, ts, KeysOf(CarriedBy(r, id, address, ts)));
    if Filled(r.address) && r.address.value == address { CarriedExactly(env, r, id, address, ts); }
    if Proper(env, r, id, now, start, address, ts) { assert Authentic(env, r, id, now, start, u); }
  }
}
