/**
 * src/billing/aggregate.ts, buildNextCursor and decodeCursor: the opaque page cursor, JSON in
 * base64url without padding (section 5 of RFC 4648).
 */
module BillingCursor {
  import opened Common
  import opened Hex
  import opened Json
  import BillingPages
  import Decimal
  import JsonText
  import Keyset
  import TextOrder

  type Byte = b: int | 0 <= b < 256
  type Six = d: int | 0 <= d < 64

  // ------------------------------------------------------------ bytes and sextets

  // The four groups of six bits in three bytes.
  function FirstSix(a: Byte): Six { a / 4 }
  function SecondSix(a: Byte, b: Byte): Six { a % 4 * 16 + b / 16 }
  function ThirdSix(b: Byte, c: Byte): Six { b % 16 * 4 + c / 64 }
  function FourthSix(c: Byte): Six { c % 64 }

  /** Six bits at a time, the last group filled up with zeros. */
  function Sextets(b: seq<Byte>): seq<Six> {
    if |b| == 0 then []
    else if |b| == 1 then [FirstSix(b[0]), SecondSix(b[0], 0)]
    else if |b| == 2 then [FirstSix(b[0]), SecondSix(b[0], b[1]), ThirdSix(b[1], 0)]
    else [FirstSix(b[0]), SecondSix(b[0], b[1]), ThirdSix(b[1], b[2]), FourthSix(b[2])] + Sextets(b[3..])
  }

  /** Whole bytes of a list of sextets. */
  function Octets(s: seq<Six>): seq<Byte> {
    if |s| < 2 then []
    else if |s| == 2 then [First(s[0], s[1])]
    else if |s| == 3 then [First(s[0], s[1]), Second(s[1], s[2])]
    else [First(s[0], s[1]), Second(s[1], s[2]), Third(s[2], s[3])] + Octets(s[4..])
  }

  function First(a: int, b: int): Byte
    requires 0 <= a < 64 && 0 <= b < 64
  {
    a * 4 + b / 16
  }

  function Second(b: int, c: int): Byte
    requires 0 <= b < 64 && 0 <= c < 64
  {
    b % 16 * 16 + c / 4
  }

  function Third(c: int, d: int): Byte
    requires 0 <= c < 64 && 0 <= d < 64
  {
    c % 4 * 64 + d
  }

  lemma FirstByte(a: Byte, b: Byte)
    ensures First(FirstSix(a), SecondSix(a, b)) == a
  {
    assert SecondSix(a, b) / 16 == a % 4;
  }

  lemma SecondByte(a: Byte, b: Byte, c: Byte)
    ensures Second(SecondSix(a, b), ThirdSix(b, c)) == b
  {
    assert SecondSix(a, b) % 16 == b / 16;
    assert ThirdSix(b, c) / 4 == b % 16;
  }

  lemma ThirdByte(b: Byte, c: Byte)
    ensures Third(ThirdSix(b, c), FourthSix(c)) == c
  {
    assert ThirdSix(b, c) % 4 == c / 64;
  }

  lemma FourSextets(s: seq<Six>, rest: seq<Six>)
    requires |s| == 4
    ensures Octets(s + rest) == [First(s[0], s[1]), Second(s[1], s[2]), Third(s[2], s[3])] + Octets(rest)
  {
    assert (s + rest)[4..] == rest;
  }

  lemma {:induction false} OctetsOfSextets(b: seq<Byte>)
    ensures Octets(Sextets(b)) == b
  {
    if |b| == 1 {
      FirstByte(b[0], 0);
    } else if |b| == 2 {
      FirstByte(b[0], b[1]);
      SecondByte(b[0], b[1], 0);
    } else if |b| > 2 {
      var group := [FirstSix(b[0]), SecondSix(b[0], b[1]), ThirdSix(b[1], b[2]), FourthSix(b[2])];
      FirstByte(b[0], b[1]);
      SecondByte(b[0], b[1], b[2]);
      ThirdByte(b[1], b[2]);
      FourSextets(group, Sextets(b[3..]));
      OctetsOfSextets(b[3..]);
      assert b == [b[0], b[1], b[2]] + b[3..];
    }
  }

  // ------------------------------------------------------------ text

  function StdChar(d: Six): char {
    if d < 26 then 'A' + d as char else if d < 52 then 'a' + (d - 26) as char else if d < 62 then '0' + (d - 52) as char
    else if d == 62 then '+' else '/'
  }

  /** The value of a digit of either alphabet. */
  function SixOf(c: char): Option<Six> {
    if 'A' <= c <= 'Z' then Some((c - 'A') as int)
    else if 'a' <= c <= 'z' then Some(26 + (c - 'a') as int)
    else if '0' <= c <= '9' then Some(52 + (c - '0') as int)
    else if c == '+' || c == '-' then Some(62)
    else if c == '/' || c == '_' then Some(63)
    else None
  }

  function Equals(n: nat): (s: string)
    ensures |s| == n && forall i | 0 <= i < n :: s[i] == '='
  {
    seq(n, _ => '=')
  }

  function Chars(s: seq<Six>): (t: string)
    ensures |t| == |s| && forall i | 0 <= i < |s| :: t[i] == StdChar(s[i])
  {
    seq(|s|, i requires 0 <= i < |s| => StdChar(s[i]))
  }

  /** `Buffer.toString("base64")`, padded to whole groups of four. */
  function Base64(b: seq<Byte>): string { Chars(Sextets(b)) + Equals((4 - |Sextets(b)| % 4) % 4) }

  function UrlChar(c: char): char { if c == '+' then '-' else if c == '/' then '_' else c }
  function PlainChar(c: char): char { if c == '-' then '+' else if c == '_' then '/' else c }

  function ToUrl(s: string): (t: string)
    ensures |t| == |s| && forall i | 0 <= i < |s| :: t[i] == UrlChar(s[i])
  {
    seq(|s|, i requires 0 <= i < |s| => UrlChar(s[i]))
  }

  function FromUrl(s: string): (t: string)
    ensures |t| == |s| && forall i | 0 <= i < |s| :: t[i] == PlainChar(s[i])
  {
    seq(|s|, i requires 0 <= i < |s| => PlainChar(s[i]))
  }

  function StripEquals(s: string): string {
    if s != "" && s[|s| - 1] == '=' then StripEquals(s[..|s| - 1]) else s
  }

  /** The padding a stripped text has lost. */
  function Restored(c: string): string { if |c| % 4 == 0 then c else c + Equals(4 - |c| % 4) }

  /** The digits up to the first "=", other characters skipped. */
  function Digits(s: string): seq<Six> {
    if s == "" || s[0] == '=' then []
    else if SixOf(s[0]).Some? then [SixOf(s[0]).value] + Digits(s[1..])
    else Digits(s[1..])
  }

  function Bytes(s: string): (b: seq<Byte>)
    requires forall i | 0 <= i < |s| :: s[i] < 256 as char
    ensures |b| == |s| && forall i | 0 <= i < |s| :: b[i] == s[i] as int
  {
    seq(|s|, i requires 0 <= i < |s| => s[i] as int)
  }

  function Text(b: seq<Byte>): (s: string)
    ensures |s| == |b| && forall i | 0 <= i < |b| :: s[i] == b[i] as char
  {
    seq(|b|, i requires 0 <= i < |b| => b[i] as char)
  }

  lemma {:induction false} DigitsOfChars(padded: string, s: seq<Six>)
    requires |s| <= |padded| && (forall i | 0 <= i < |s| :: padded[i] == StdChar(s[i]))
    requires forall i | |s| <= i < |padded| :: padded[i] == '='
    ensures Digits(padded) == s
    decreases |s|
  {
    if s != [] {
      DigitsOfChars(padded[1..], s[1..]);
      assert SixOf(padded[0]) == Some(s[0]);
    }
  }

  lemma {:induction false} StripsPadding(padded: string, s: string)
    requires |s| <= |padded| && (forall i | 0 <= i < |s| :: padded[i] == s[i])
    requires (forall i | |s| <= i < |padded| :: padded[i] == '=') && (s == "" || s[|s| - 1] != '=')
    ensures StripEquals(padded) == s
    decreases |padded|
  {
    if |padded| > |s| {
      StripsPadding(padded[..|padded| - 1], s);
    } else {
      assert padded == s;
    }
  }

  /** The cursor's digits: base64url without padding. */
  lemma Unpadded(b: seq<Byte>)
    ensures StripEquals(ToUrl(Base64(b))) == ToUrl(Chars(Sextets(b)))
  {
    StripsPadding(ToUrl(Base64(b)), ToUrl(Chars(Sextets(b))));
  }

  /** Stripping the padding and restoring it is the identity on base64url text. */
  lemma PaddingComesBack(b: seq<Byte>)
    ensures FromUrl(Restored(StripEquals(ToUrl(Base64(b))))) == Base64(b)
  {
    Unpadded(b);
    RestoresPadding(Sextets(b));
  }

  lemma RestoresPadding(s: seq<Six>)
    ensures FromUrl(Restored(ToUrl(Chars(s)))) == Chars(s) + Equals((4 - |s| % 4) % 4)
  {
    var n, t := (4 - |s| % 4) % 4, ToUrl(Chars(s));
    assert Restored(t) == t + Equals(n);
    forall i | 0 <= i < |s| ensures PlainChar(UrlChar(StdChar(s[i]))) == StdChar(s[i]) {
    }
  }

  lemma DigitsComeBack(b: seq<Byte>)
    ensures Digits(FromUrl(Restored(StripEquals(ToUrl(Base64(b)))))) == Sextets(b)
  {
    PaddingComesBack(b);
    DigitsOfChars(Base64(b), Sextets(b));
  }

  lemma BytesComeBack(b: seq<Byte>)
    ensures Octets(Digits(FromUrl(Restored(StripEquals(ToUrl(Base64(b))))))) == b
  {
    DigitsComeBack(b);
    OctetsOfSextets(b);
  }

  lemma TextOfBytes(s: string)
    requires forall i | 0 <= i < |s| :: s[i] < 256 as char
    ensures Text(Bytes(s)) == s
  {
  }

  // ------------------------------------------------------------ the cursor

  /** `JSON.stringify({p, h})`; a hex hash needs no escapes. */
  function Payload(p: int, h: string): string {
    "{" + JsonText.QuotedText("p", ":" + (JsonText.IntText(p) + ("," + HashMember(h))))
  }

  function HashMember(h: string): string { JsonText.QuotedText("h", ":" + JsonText.QuotedText(h, "}")) }

  lemma PayloadIsAscii(p: int, h: string)
    requires IsLowerHex64(h)
    ensures forall i | 0 <= i < |Payload(p, h)| :: Payload(p, h)[i] < 256 as char
  {
    var n := JsonText.IntText(p);
    assert forall i | 0 <= i < |n| :: n[i] == '-' || Decimal.IsDigit(n[i]);
    assert forall i | 0 <= i < |h| :: IsHexDigit(h[i]);
  }

  function EncodeCursor(p: int, h: string): string
    requires IsLowerHex64(h)
  {
    PayloadIsAscii(p, h);
    StripEquals(ToUrl(Base64(Bytes(Payload(p, h)))))
  }

  function DecodeCursor(cursor: string): (r: Option<(int, string)>)
    ensures r.Some? ==> IsLowerHex64(r.value.1)
  {
    var parsed := JsonText.Parse(Text(Octets(Digits(FromUrl(Restored(cursor))))));
    if parsed.None? || !parsed.value.Obj? then None
    else
      var p, h := Field(parsed.value.fields, "p"), Field(parsed.value.fields, "h");
      if p.Num? && h.Str? && IsLowerHex64(h.s) then Some((p.n, h.s)) else None
  }

  lemma ReadsHash(h: string)
    requires IsLowerHex64(h)
    ensures JsonText.Starts(HashMember(h), '"') && JsonText.Members(HashMember(h)) == Some((map["h" := Str(h)], ""))
  {
    JsonText.ReadsQuotedText(h, "}");
    JsonText.ReadsMember("h", JsonText.QuotedText(h, "}"), Str(h), "}");
    JsonText.LastMember(HashMember(h), "h", Str(h));
  }

  lemma ReadsStart(p: int, t: string)
    ensures var s := JsonText.QuotedText("p", ":" + (JsonText.IntText(p) + ("," + t)));
      JsonText.Starts(s, '"') && JsonText.Member(s) == Some(("p", Num(p), "," + t))
  {
    var n := JsonText.IntText(p);
    JsonText.ReadsInt(p, "," + t);
    assert (n + ("," + t))[0] == n[0];
    JsonText.ReadsMember("p", n + ("," + t), Num(p), "," + t);
  }

  lemma ReadsMembers(p: int, h: string)
    requires IsLowerHex64(h)
    ensures var s := JsonText.QuotedText("p", ":" + (JsonText.IntText(p) + ("," + HashMember(h))));
      JsonText.Starts(s, '"') && JsonText.Members(s) == Some((map["p" := Num(p)] + map["h" := Str(h)], ""))
  {
    var t := HashMember(h);
    ReadsStart(p, t);
    ReadsHash(h);
    JsonText.NextMember(
      JsonText.QuotedText("p", ":" + (JsonText.IntText(p) + ("," + t))), "p", Num(p), t, map["h" := Str(h)]);
  }

  /** JSON.parse reads back the payload that was written. */
  lemma ReadsPayload(p: int, h: string)
    requires IsLowerHex64(h)
    ensures JsonText.Parse(Payload(p, h)) == Some(Obj(map["p" := Num(p), "h" := Str(h)]))
  {
    var s := JsonText.QuotedText("p", ":" + (JsonText.IntText(p) + ("," + HashMember(h))));
    ReadsMembers(p, h);
    JsonText.ReadsObject(s, map["p" := Num(p)] + map["h" := Str(h)]);
    assert map["p" := Num(p)] + map["h" := Str(h)] == map["p" := Num(p), "h" := Str(h)];
  }

  /** Decoding a cursor gives back the row it was built from. */
  lemma CursorRoundTrip(p: int, h: string)
    requires IsLowerHex64(h)
    ensures DecodeCursor(EncodeCursor(p, h)) == Some((p, h))
  {
    PayloadIsAscii(p, h);
    ReadsPayload(p, h);
    BytesComeBack(Bytes(Payload(p, h)));
    TextOfBytes(Payload(p, h));
  }

  /** Rows of different sort keys have different cursors. */
  lemma CursorsDiffer(p: int, h: string, q: int, g: string)
    requires IsLowerHex64(h) && IsLowerHex64(g) && (p, h) != (q, g)
    ensures EncodeCursor(p, h) != EncodeCursor(q, g)
  {
    CursorRoundTrip(p, h);
    CursorRoundTrip(q, g);
  }

  /** A cursor holds letters, digits, "-" and "_" only, so it needs no escaping in a URL. */
  lemma CursorIsUrlSafe(p: int, h: string, i: nat)
    requires IsLowerHex64(h) && i < |EncodeCursor(p, h)|
    ensures var c := EncodeCursor(p, h)[i];
      'A' <= c <= 'Z' || 'a' <= c <= 'z' || '0' <= c <= '9' || c == '-' || c == '_'
  {
    PayloadIsAscii(p, h);
    Unpadded(Bytes(Payload(p, h)));
  }

  // ------------------------------------------------------------ the route's cursors

  /** `buildNextCursor`: the text of the last row of a full page. */
  function BuildNextCursor(rows: seq<BillingPages.Row>, pageSize: nat): Option<string>
    requires forall r | r in rows :: IsLowerHex64(r.contentHash)
  {
    if |rows| < pageSize || rows == [] then None
    else Some(EncodeCursor(rows[|rows| - 1].start, rows[|rows| - 1].contentHash))
  }

  /** The cursor text of a page, sent back, is read as the sort key at which the next page goes on. */
  lemma NextPageGoesOn(rows: seq<BillingPages.Row>, pageSize: nat)
    requires forall r | r in rows :: IsLowerHex64(r.contentHash)
    ensures var text, key := BuildNextCursor(rows, pageSize), BillingPages.NextCursor(rows, pageSize);
      && (text.Some? <==> key.Some?)
      && (text.Some? ==> DecodeCursor(text.value).Some?)
      && (text.Some? ==> var (p, h) := DecodeCursor(text.value).value; Keyset.Key(p, TextOrder.Place(h)) == key.value)
  {
    if |rows| >= pageSize && rows != [] {
      var last := rows[|rows| - 1];
      CursorRoundTrip(last.start, last.contentHash);
    }
  }
}
