/**
 * The order of texts, which SQLite's BINARY collation and, on the gateway's ids, JavaScript's
 * `<` follow. A text has a place between 0 and 1, and texts compare as their places do, so
 * that sort keys can be numbers.
 */
module TextOrder {
  /** One more than the number of characters. */
  const BASE: real := 1114113.0

  predicate TextLess(a: string, b: string) {
    b != "" && (a == "" || a[0] < b[0] || (a[0] == b[0] && TextLess(a[1..], b[1..])))
  }

  function Code(c: char): (n: int)
    ensures 0 <= n < 0x11_0000
  {
    c as int
  }

  /** The number a text writes behind the point, a character counting one more than its code. */
  function Place(s: string): (v: real)
    ensures 0.0 <= v < 1.0 && (v == 0.0 <==> s == "")
  {
    if s == "" then 0.0 else (Code(s[0]) as real + 1.0 + Place(s[1..])) / BASE
  }

  lemma {:induction false} TextOrderIsPlaceOrder(a: string, b: string)
    ensures TextLess(a, b) <==> Place(a) < Place(b)
    ensures a == b <==> Place(a) == Place(b)
  {
    if a != "" && b != "" {
      TextOrderIsPlaceOrder(a[1..], b[1..]);
      assert a == [a[0]] + a[1..] && b == [b[0]] + b[1..];
      LeadingCodeDecides(Code(a[0]), Code(b[0]), Place(a[1..]), Place(b[1..]));
      LeadingCodeDecides(Code(b[0]), Code(a[0]), Place(b[1..]), Place(a[1..]));
    }
  }

  lemma LeadingCodeDecides(m: int, n: int, low: real, other: real)
    requires 0.0 <= low < 1.0 && 0.0 <= other < 1.0
    ensures m < n ==> m as real + 1.0 + low < n as real + 1.0 + other
  {
    assert m < n ==> m as real + 1.0 <= n as real;
  }

  function CharOf(n: int): char {
    if 0 <= n < 0xD800 || 0xE000 <= n < 0x11_0000 then n as char else ' '
  }

  /** The text of a length at a place. */
  function TextAt(v: real, length: nat): (s: string)
    ensures |s| == length
    decreases length
  {
    if length == 0 then ""
    else [CharOf((v * BASE).Floor - 1)] + TextAt(v * BASE - (v * BASE).Floor as real, length - 1)
  }

  /** Text to place and back. */
  lemma {:induction false} TextOfPlace(s: string)
    ensures TextAt(Place(s), |s|) == s
  {
    if s != "" {
      var rest := s[1..];
      TextOfPlace(rest);
      var v := Place(s) * BASE;
      assert v == Code(s[0]) as real + 1.0 + Place(rest);
      assert v.Floor == Code(s[0]) + 1;
      assert v - v.Floor as real == Place(rest);
      assert s == [s[0]] + rest;
    }
  }
}
