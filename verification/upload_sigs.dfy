/**
 * src/upload-auth.ts and claimUploadSignatures of src/quota.ts: which upload signatures a
 * request must carry, and the store of used ones. Times are in whole seconds. The signature
 * scheme is the function `verifies`, of a message, the 64 bytes and the signer's address.
 */
module UploadSigs {
  import opened Common
  import opened Hex
  import opened Decimal

  /** `window` is uploadSigMaxAgeSec; `decodes` is whether an address names an account. */
  datatype Env = Env(
    verifies: (string, string, string) -> bool, decodes: string -> bool, batchWriters: seq<string>, window: nat)

  /** The headers of a request; an empty header counts as missing. */
  datatype Request = Request(
    sigV2: Option<string>, sigV1: Option<string>, address: Option<string>, ts: Option<string>,
    verb: string, path: string, bodySha256: string)

  datatype Refusal = Missing | MustSignV2 | Stale | PredatesStart | UnknownAddress | MalformedSig | WrongSig

  datatype Upload = Upload(address: string, version: nat, ts: nat, signatures: seq<string>)

  function Given(h: Option<string>): Option<string> { if h == Some("") then None else h }

  // ------------------------------------------------------------ what is signed

  function V1Message(id: string, address: string, ts: nat): string {
    "materios-upload-v1|" + id + "|" + address + "|" + Dec(ts)
  }

  function V2Message(r: Request, id: string, address: string, ts: nat): string {
    "materios-upload-v2|" + r.verb + "|" + r.path + "|" + r.bodySha256 + "|" + id + "|" + address + "|" + Dec(ts)
  }

  /** A signature a request carries, and the message it must sign. */
  datatype Carried = Carried(sig: string, message: string)

  function CarriedBy(r: Request, id: string, address: string, ts: nat): seq<Carried> {
    (if Given(r.sigV2).Some? then [Carried(r.sigV2.value, V2Message(r, id, address, ts))] else []) +
    (if Given(r.sigV1).Some? then [Carried(r.sigV1.value, V1Message(id, address, ts))] else [])
  }

  predicate WellFormedSig(sig: string) {
    |Strip0x(sig)| == 128 && forall i | 0 <= i < 128 :: IsHexDigit(Strip0x(sig)[i])
  }

  /** The reuse key: the signature's bytes. */
  function SignatureKey(sig: string): string { Lower(Strip0x(sig)) }

  function KeysOf(carried: seq<Carried>): (keys: seq<string>)
    ensures |keys| == |carried| && forall i | 0 <= i < |keys| :: keys[i] == SignatureKey(carried[i].sig)
  {
    seq(|carried|, i requires 0 <= i < |carried| => SignatureKey(carried[i].sig))
  }

  /** Every signature is well formed and signs its message. */
  predicate AllSign(env: Env, address: string, carried: seq<Carried>) {
    forall i | 0 <= i < |carried| ::
      WellFormedSig(carried[i].sig) && env.verifies(carried[i].message, SignatureKey(carried[i].sig), address)
  }

  predicate Fresh(env: Env, ts: int, now: int) { ts - now <= env.window && now - ts <= env.window }

  /** The request is authentic: what `verifyUploadSig` must establish. */
  predicate Authentic(env: Env, r: Request, id: string, now: int, start: int, u: Upload) {
    && Given(r.address) == Some(u.address) && r.ts.Some? && ReadsAs(r.ts.value, u.ts)
    && (Given(r.sigV2).Some? || (Given(r.sigV1).Some? && u.address !in env.batchWriters))
    && Fresh(env, u.ts, now) && u.ts >= start
    && env.decodes(u.address)
    && AllSign(env, u.address, CarriedBy(r, id, u.address, u.ts))
    && u.version == (if Given(r.sigV2).Some? then 2 else 1)
    && u.signatures == KeysOf(CarriedBy(r, id, u.address, u.ts))
  }

  /** One of the signatures is no signature or, with `wellFormed`, does not sign its message. */
  predicate Faulty(env: Env, address: string, carried: seq<Carried>, wellFormed: bool) {
    exists i | 0 <= i < |carried| ::
      if wellFormed then
        WellFormedSig(carried[i].sig) && !env.verifies(carried[i].message, SignatureKey(carried[i].sig), address)
      else !WellFormedSig(carried[i].sig)
  }

  /** What is wrong with a request that is refused for this reason. */
  predicate Reason(env: Env, r: Request, id: string, now: int, start: int, e: Refusal) {
    var unsigned := Given(r.sigV2).None? && Given(r.sigV1).None?;
    if unsigned || Given(r.address).None? || Given(r.ts).None? then e.Missing?
    else
      match e
      case Missing => false
      case MustSignV2 => Given(r.sigV2).None? && r.address.value in env.batchWriters
      case Stale => !AllDigits(r.ts.value) || !Fresh(env, Value(r.ts.value), now)
      case PredatesStart => AllDigits(r.ts.value) && Value(r.ts.value) < start
      case UnknownAddress => !env.decodes(r.address.value)
      case MalformedSig =>
        AllDigits(r.ts.value)
        && Faulty(env, r.address.value, CarriedBy(r, id, r.address.value, Value(r.ts.value)), false)
      case WrongSig =>
        AllDigits(r.ts.value)
        && Faulty(env, r.address.value, CarriedBy(r, id, r.address.value, Value(r.ts.value)), true)
  }

  /** A digit string and the number it writes; leading zeros are read. */
  predicate ReadsAs(text: string, n: nat) { text != "" && AllDigits(text) && Value(text) == n }

  predicate AllDigits(text: string) { forall i | 0 <= i < |text| :: IsDigit(text[i]) }

  /** The loop over the signatures a request carries, up to the first that does not sign. */
  method CheckCarried(env: Env, address: string, carried: seq<Carried>) returns (fault: Option<Refusal>)
    ensures fault.None? <==> AllSign(env, address, carried)
    ensures fault.Some? ==>
      && (fault.value.MalformedSig? || fault.value.WrongSig?)
      && Faulty(env, address, carried, fault.value.WrongSig?)
  {
    var i := 0;
    while i < |carried|
      invariant 0 <= i <= |carried|
      invariant AllSign(env, address, carried[..i])
    {
      var c := carried[i];
      if !WellFormedSig(c.sig) {
        return Some(MalformedSig);
      }
      if !env.verifies(c.message, SignatureKey(c.sig), address) {
        return Some(WrongSig);
      }
      assert carried[..i + 1] == carried[..i] + [c];
      i := i + 1;
    }
    assert carried[..i] == carried;
    fault := None;
  }

  method VerifyUploadSig(env: Env, r: Request, id: string, now: int, start: int) returns (v: Result<Upload, Refusal>)
    ensures v.Ok? ==> Authentic(env, r, id, now, start, v.value)
    ensures v.Err? ==> forall u :: !Authentic(env, r, id, now, start, u)
    ensures v.Err? ==> Reason(env, r, id, now, start, v.error)
  {
    var sigV2, sigV1, address := Given(r.sigV2), Given(r.sigV1), Given(r.address);
    if (sigV2.None? && sigV1.None?) || address.None? || Given(r.ts).None? {
      return Err(Missing);
    }
    if sigV2.None? && address.value in env.batchWriters {
      return Err(MustSignV2);
    }
    if !AllDigits(r.ts.value) {
      return Err(Stale);
    }
    var ts := Value(r.ts.value);
    if !Fresh(env, ts, now) {
      return Err(Stale);
    }
    if ts < start {
      return Err(PredatesStart);
    }
    var carried: seq<Carried> := [];
    if sigV2.Some? {
      carried := carried + [Carried(sigV2.value, V2Message(r, id, address.value, ts))];
    }
    if sigV1.Some? {
      carried := carried + [Carried(sigV1.value, V1Message(id, address.value, ts))];
    }
    assert carried == CarriedBy(r, id, address.value, ts);
    if !env.decodes(address.value) {
      return Err(UnknownAddress);
    }
    var fault := CheckCarried(env, address.value, carried);
    if fault.Some? {
      return Err(fault.value);
    }
    v := Ok(Upload(address.value, if sigV2.Some? then 2 else 1, ts, KeysOf(carried)));
  }

  // ------------------------------------------------------------ the store

  type Used = map<string, int>

  /** Rows whose window has passed are deleted. */
  function Purged(used: Used, now: int): Used { map s | s in used && used[s] >= now :: used[s] }

  predicate AnyUsed(used: Used, sigs: seq<string>) { exists i :: 0 <= i < |sigs| && sigs[i] in used }

  function WithAll(used: Used, sigs: seq<string>, expiresAt: int): (after: Used)
    ensures forall s :: s in after <==> s in used || s in sigs
    ensures forall s | s in after :: after[s] == if s in sigs then expiresAt else used[s]
  {
    map s | s in used.Keys + (set t | t in sigs) :: if s in sigs then expiresAt else used[s]
  }

  /** Either every signature becomes used, or none does. */
  function Claimed(used: Used, sigs: seq<string>, expiresAt: int, now: int): (r: (bool, Used)) {
    var kept := Purged(used, now);
    if AnyUsed(kept, sigs) then (false, kept) else (true, WithAll(kept, sigs, expiresAt))
  }

  /** `spendUploadSig`: freshness is checked again, on the reading the purge uses. */
  function Spent(env: Env, used: Used, u: Upload, now: int): (bool, Used) {
    if !Fresh(env, u.ts, now) then (false, used) else Claimed(used, u.signatures, u.ts + env.window, now)
  }

  class SignatureStore {
    var used: Used

    constructor ()
      ensures used == map[]
    {
      used := map[];
    }

    /** `claimUploadSignatures`, one transaction: a row per signature, entered one by one. */
    method Claim(sigs: seq<string>, expiresAt: int, now: int) returns (ok: bool)
      modifies this
      ensures (ok, used) == Claimed(old(used), sigs, expiresAt, now)
    {
      used := Purged(used, now);
      ghost var kept := used;
      var i := 0;
      while i < |sigs|
        invariant 0 <= i <= |sigs| && used == kept
        invariant forall j | 0 <= j < i :: sigs[j] !in used
      {
        if sigs[i] in used {
          return false;
        }
        i := i + 1;
      }
      i := 0;
      while i < |sigs|
        invariant 0 <= i <= |sigs|
        invariant used == WithAll(kept, sigs[..i], expiresAt)
      {
        assert sigs[..i + 1] == sigs[..i] + [sigs[i]];
        used := used[sigs[i] := expiresAt];
        i := i + 1;
      }
      assert sigs[..i] == sigs;
      ok := true;
    }

    method Spend(env: Env, u: Upload, now: int) returns (ok: bool)
      modifies this
      ensures (ok, used) == Spent(env, old(used), u, now)
    {
      if !Fresh(env, u.ts, now) {
        return false;
      }
      ok := Claim(u.signatures, u.ts + env.window, now);
    }
  }

  // ------------------------------------------------------------ messages of different times differ

  lemma LastBar(a: string, m: nat)
    ensures (a + "|" + Dec(m))[|a|] == '|'
    ensures forall i | |a| < i < |a + "|" + Dec(m)| :: (a + "|" + Dec(m))[i] != '|'
  {
    forall i | |a| < i < |a + "|" + Dec(m)| ensures (a + "|" + Dec(m))[i] != '|' {
      assert (a + "|" + Dec(m))[i] == Dec(m)[i - |a| - 1];
    }
  }

  /** What a message says after its last bar is the time. */
  lemma MessageNamesItsTime(a: string, b: string, m: nat, n: nat)
    requires a + "|" + Dec(m) == b + "|" + Dec(n)
    ensures m == n
  {
    LastBar(a, m);
    LastBar(b, n);
    var x := a + "|" + Dec(m);
    assert |a| == |b|;
    assert x[|a| + 1..] == Dec(m) && x[|b| + 1..] == Dec(n);
    DecInjective(m, n);
  }
}
