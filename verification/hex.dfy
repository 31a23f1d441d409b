/** Hex text: the 32-byte hashes and ids of the gateway, as the strings it compares. */
module Hex {
  import opened Common

  predicate IsHexDigit(c: char) {
    '0' <= c <= '9' || 'a' <= c <= 'f' || 'A' <= c <= 'F'
  }

  /** A 64-digit hex string of either case, without a prefix. */
  predicate IsHex64(s: string) {
    |s| == 64 && forall i | 0 <= i < |s| :: IsHexDigit(s[i])
  }

  predicate IsLowerHex64(s: string) {
    IsHex64(s) && forall i | 0 <= i < |s| :: !('A' <= s[i] <= 'F')
  }

  function LowerChar(c: char): char {
    if 'A' <= c <= 'Z' then c - 'A' + 'a' else c
  }

  function Lower(s: string): (r: string)
    ensures |r| == |s|
    ensures IsHex64(s) ==> IsLowerHex64(r)
    ensures IsLowerHex64(s) ==> r == s
  {
    seq(|s|, i requires 0 <= i < |s| => LowerChar(s[i]))
  }

  /** Hex digits, in lower case. */
  predicate Plain(h: string) { forall i | 0 <= i < |h| :: '0' <= h[i] <= '9' || 'a' <= h[i] <= 'f' }

  lemma LowerHexExactly(s: string)
    ensures IsLowerHex64(s) <==> |s| == 64 && Plain(s)
  {
  }

  /** `h` with some of its letters in upper case, behind "0x", "0X" or nothing. */
  predicate SpellsHex(text: string, h: string) {
    var digits := if |text| > 1 && (text[..2] == "0x" || text[..2] == "0X") then text[2..] else text;
    && Plain(h) && |digits| == |h|
    && forall i | 0 <= i < |h| :: digits[i] == h[i] || ('a' <= h[i] <= 'f' && digits[i] == h[i] - 'a' + 'A')
  }

  /** Drops a leading "0x". */
  function Strip0x(s: string): string {
    if |s| >= 2 && s[0] == '0' && s[1] == 'x' then s[2..] else s
  }

  /** Drops a leading "0x" or "0X". */
  function StripPrefix(s: string): string {
    if |s| >= 2 && s[0] == '0' && (s[1] == 'x' || s[1] == 'X') then s[2..] else s
  }

  /** A hash as it may be written: hex of either case, with or without "0x", as lower-case digits. */
  function Hash32(text: string): (r: Option<string>)
    ensures r.Some? ==> IsLowerHex64(r.value)
    ensures IsLowerHex64(text) ==> r == Some(text)
  {
    if IsHex64(Strip0x(text)) then Some(Lower(Strip0x(text))) else None
  }

  function DigitValue(c: char): (d: int)
    ensures 0 <= d < 16
  {
    if '0' <= c <= '9' then (c - '0') as int
    else if 'a' <= c <= 'f' then 10 + (c - 'a') as int
    else if 'A' <= c <= 'F' then 10 + (c - 'A') as int
    else 0
  }
}
