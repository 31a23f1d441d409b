/** src/api-tokens.ts, toBase62: the text of a minted API token's 32 random bytes. */
module Base62 {
  newtype Byte = x: int | 0 <= x < 256

  /** The digit for a remainder: '0'..'9', 'A'..'Z', 'a'..'z'. */
  function Digit(d: int): (c: char)
    requires 0 <= d < 62
    ensures IsDigit(c) && DigitValue(c) == d
  {
    if d < 10 then '0' + d as char else if d < 36 then 'A' + (d - 10) as char else 'a' + (d - 36) as char
  }

  predicate IsDigit(c: char) { '0' <= c <= '9' || 'A' <= c <= 'Z' || 'a' <= c <= 'z' }

  function DigitValue(c: char): (d: int)
    requires IsDigit(c)
    ensures 0 <= d < 62
  {
    if c <= '9' then (c - '0') as int else if c <= 'Z' then 10 + (c - 'A') as int else 36 + (c - 'a') as int
  }

  predicate IsText(s: string) { forall i | 0 <= i < |s| :: IsDigit(s[i]) }

  function Pow(base: nat, n: nat): nat { if n == 0 then 1 else base * Pow(base, n - 1) }

  /** The number a base-62 text writes. */
  function Decode(s: string): nat
    requires IsText(s)
  {
    if s == "" then 0 else DigitValue(s[0]) * Pow(62, |s| - 1) + Decode(s[1..])
  }

  /** The big-endian number of a buffer. */
  function Value(buf: seq<Byte>): nat {
    if buf == [] then 0 else 256 * Value(buf[..|buf| - 1]) + buf[|buf| - 1] as int
  }

  function Zeros(n: nat): (s: string)
    ensures |s| == n && IsText(s)
  {
    seq(n, _ => '0')
  }

  // ------------------------------------------------------------ arithmetic

  lemma {:induction false} PowAdd(base: nat, a: nat, b: nat)
    ensures Pow(base, a + b) == Pow(base, a) * Pow(base, b)
  {
    if a > 0 {
      PowAdd(base, a - 1, b);
      assert Pow(base, a + b) == base * (Pow(base, a - 1) * Pow(base, b)) == (base * Pow(base, a - 1)) * Pow(base, b);
    }
  }

  lemma {:induction false} ValueIsBounded(buf: seq<Byte>)
    ensures Value(buf) < Pow(256, |buf|)
  {
    if buf != [] { ValueIsBounded(buf[..|buf| - 1]); }
  }

  lemma PowersOf62()
    ensures Pow(62, 42) == 1907440321293807005218825134272276737461586370979700379485518568438569631744
    ensures Pow(62, 43) == 118261299920216034323567158324881157722618355000741423528102151243191317168128
  {
    assert Pow(62, 7) == 3521614606208;
    PowAdd(62, 7, 7);
    PowAdd(62, 14, 7);
    PowAdd(62, 21, 21);
  }

  lemma PowersOf256()
    ensures Pow(256, 32) == 115792089237316195423570985008687907853269984665640564039457584007913129639936
  {
    assert Pow(256, 4) == 4294967296;
    PowAdd(256, 4, 4);
    PowAdd(256, 8, 8);
    PowAdd(256, 16, 16);
  }

  /** 43 digits are enough for 32 bytes, and 42 are not. */
  lemma WidthIsTight()
    ensures Pow(62, 42) < Pow(256, 32) < Pow(62, 43)
  {
    PowersOf62();
    PowersOf256();
  }

  lemma Prepended(d: int, s: string)
    requires 0 <= d < 62 && IsText(s)
    ensures IsText([Digit(d)] + s) && Decode([Digit(d)] + s) == d * Pow(62, |s|) + Decode(s)
  {
    var t := [Digit(d)] + s;
    assert t[1..] == s;
  }

  lemma {:induction false} Padded(n: nat, s: string)
    requires IsText(s)
    ensures IsText(Zeros(n) + s) && Decode(Zeros(n) + s) == Decode(s)
  {
    if n == 0 {
      assert Zeros(0) + s == s;
    } else {
      Padded(n - 1, s);
      assert Zeros(n) + s == [Digit(0)] + (Zeros(n - 1) + s);
      Prepended(0, Zeros(n - 1) + s);
    }
  }

  /** One turn of the digit loop neither loses nor adds value. */
  lemma TurnKeepsValue(n: nat, s: string)
    requires IsText(s) && n > 0
    ensures IsText([Digit(n % 62)] + s)
    ensures (n / 62) * Pow(62, |s| + 1) + Decode([Digit(n % 62)] + s) == n * Pow(62, |s|) + Decode(s)
  {
    var q, r, p := n / 62, n % 62, Pow(62, |s|);
    assert n == 62 * q + r;
    Prepended(r, s);
    NextPow(|s|);
    Regroup(q, r, p);
  }

  lemma NextPow(n: nat)
    ensures Pow(62, n + 1) == 62 * Pow(62, n)
  {
  }

  lemma Regroup(q: int, r: int, p: int)
    ensures q * (62 * p) + r * p == (62 * q + r) * p
  {
  }

  /** A turn uses up one of the digits there is room for. */
  lemma TurnFits(n: nat, room: nat)
    requires 0 < n < Pow(62, room)
    ensures room > 0 && n / 62 < Pow(62, room - 1)
  {
  }

  // ------------------------------------------------------------ the encoder

  method ToBase62(buf: seq<Byte>) returns (text: string)
    ensures IsText(text) && Decode(text) == Value(buf)
    ensures |text| >= 43 && (|buf| <= 32 ==> |text| == 43)
  {
    var n: nat := 0;
    var i := 0;
    while i < |buf|
      invariant 0 <= i <= |buf| && n == Value(buf[..i])
    {
      assert buf[..i + 1][..i] == buf[..i];
      n := n * 256 + buf[i] as int;
      i := i + 1;
    }
    assert buf[..i] == buf;
    ghost var value := n;
    var out := "";
    if n == 0 {
      out := "0";
    }
    FitsFortyThree(buf);
    while n > 0
      invariant IsText(out) && n * Pow(62, |out|) + Decode(out) == value
      invariant value == 0 ==> out == "0"
      invariant value > 0 && |buf| <= 32 ==> |out| <= 43 && n < Pow(62, 43 - |out|)
      decreases n
    {
      TurnKeepsValue(n, out);
      if |buf| <= 32 { TurnFits(n, 43 - |out|); }
      out := [Digit(n % 62)] + out;
      n := n / 62;
    }
    text := if |out| < 43 then Zeros(43 - |out|) + out else out;
    if |out| < 43 {
      Padded(43 - |out|, out);
    }
  }

  lemma FitsFortyThree(buf: seq<Byte>)
    ensures |buf| <= 32 ==> Value(buf) < Pow(62, 43)
  {
    if |buf| <= 32 {
      ValueIsBounded(buf);
      PowGrows(256, |buf|, 32);
      WidthIsTight();
    }
  }

  lemma TimesBase(base: int, x: int, y: int)
    requires base > 0 && 0 < x <= y
    ensures 0 < base * x <= base * y && y <= base * y
  {
    assert base * y - base * x == base * (y - x) >= 0;
    assert base * x - x == (base - 1) * x >= 0;
    assert base * y - y == (base - 1) * y >= 0;
  }

  lemma {:induction false} PowGrows(base: nat, a: nat, b: nat)
    requires base > 0 && a <= b
    ensures 0 < Pow(base, a) <= Pow(base, b)
  {
    if a > 0 {
      PowGrows(base, a - 1, b - 1);
      TimesBase(base, Pow(base, a - 1), Pow(base, b - 1));
    } else if b > 0 {
      PowGrows(base, 0, b - 1);
      TimesBase(base, 1, Pow(base, b - 1));
    }
  }

  /** Buffers of one length with one value are one buffer. */
  lemma {:induction false} ValueInjective(a: seq<Byte>, b: seq<Byte>)
    requires |a| == |b| && Value(a) == Value(b)
    ensures a == b
  {
    if a != [] {
      var i := |a| - 1;
      assert 256 * Value(a[..i]) + a[i] as int == 256 * Value(b[..i]) + b[i] as int;
      ValueInjective(a[..i], b[..i]);
      assert a == a[..i] + [a[i]] && b == b[..i] + [b[i]];
    }
  }

  /** Two buffers of one length never share a text: the text decodes to one value only. */
  lemma {:induction false} TextsTellBuffersApart(a: seq<Byte>, b: seq<Byte>, s: string, t: string)
    requires |a| == |b| && a != b
    requires IsText(s) && Decode(s) == Value(a) && IsText(t) && Decode(t) == Value(b)
    ensures s != t
  {
    if Value(a) == Value(b) { ValueInjective(a, b); }
  }
}
