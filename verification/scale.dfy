/**
 * src/routes/midnight-read-rpc.ts, lines 31-48: recognising the header that ends a GRANDPA
 * set, a consensus digest holding ScheduledChange(authorities, delay 0) in SCALE
 * (Polkadot Protocol Specification, appendix A.2.2).
 */
module Scale {
  import opened Common

  type byte = b: int | 0 <= b < 256

  function LE2(n: nat): seq<byte> requires n < 0x1_0000 { [n % 256, n / 256] }

  function LE4(n: nat): seq<byte> requires n < 0x1_0000_0000 {
    LE2(n % 0x1_0000) + LE2(n / 0x1_0000)
  }

  /** `Buffer.readUIntLE` for the widths the recogniser uses. */
  function ReadLE(bytes: seq<byte>, at: nat, width: nat): (n: nat)
    requires width in {1, 2, 4} && at + width <= |bytes|
    ensures n < if width == 1 then 0x100 else if width == 2 then 0x1_0000 else 0x1_0000_0000
  {
    if width == 1 then bytes[at]
    else
      var low := bytes[at] as int + 0x100 * bytes[at + 1] as int;
      if width == 2 then low else low + 0x1_0000 * bytes[at + 2] as int + 0x100_0000 * bytes[at + 3] as int
  }

  // ------------------------------------------------------------ the recogniser

  datatype Field = Field(value: nat, next: nat)

  /** A compact integer of one, two or four bytes; null in big-integer mode or past the end. */
  function CompactAt(bytes: seq<byte>, at: nat): (f: Option<Field>)
    ensures f.Some? ==> at < f.value.next <= |bytes|
  {
    if at >= |bytes| || bytes[at] % 4 == 3 then None
    else
      var width := if bytes[at] % 4 == 0 then 1 else if bytes[at] % 4 == 1 then 2 else 4;
      if at + width > |bytes| then None
      else Some(Field(ReadLE(bytes, at, width) / 4, at + width))
  }

  /** Digest item 4 (consensus) of engine "FRNK". */
  const FRNK: seq<byte> := [0x04, 0x46, 0x52, 0x4e, 0x4b]

  /** One log of `endsSet`, after its hex text has been read. */
  predicate Accepts(bytes: seq<byte>) {
    && |bytes| > 5 && bytes[..5] == FRNK
    && var payload := CompactAt(bytes, 5);
    && payload.Some?
    && payload.value.next + payload.value.value == |bytes|
    && AcceptsChange(bytes, payload.value.next)
  }

  /** The checks on the payload, which runs from `at` to the end. */
  predicate AcceptsChange(bytes: seq<byte>, at: nat) {
    && at < |bytes| && bytes[at] == 1
    && var seats := CompactAt(bytes, at + 1);
    && seats.Some?
    && seats.value.next + 40 * seats.value.value + 4 == |bytes|
    && ReadLE(bytes, |bytes| - 4, 4) == 0
  }

  predicate IsLowerDigit(c: char) { '0' <= c <= '9' || 'a' <= c <= 'f' }

  function DigitValue(c: char): (v: int)
    requires IsLowerDigit(c)
    ensures 0 <= v < 16
  {
    if c <= '9' then c as int - '0' as int else c as int - 'a' as int + 10
  }

  function Digit(v: int): (c: char)
    requires 0 <= v < 16
    ensures IsLowerDigit(c) && DigitValue(c) == v
  {
    if v < 10 then '0' + v as char else 'a' + (v - 10) as char
  }

  function ToHex(bytes: seq<byte>): (s: string)
    ensures |s| == 2 * |bytes|
  {
    if bytes == [] then "" else [Digit(bytes[0] / 16), Digit(bytes[0] % 16)] + ToHex(bytes[1..])
  }

  /** The bytes of lower-case hex text; None when some pair is not one. */
  function FromHex(s: string): Option<seq<byte>> {
    if s == "" then Some([])
    else if |s| == 1 || !IsLowerDigit(s[0]) || !IsLowerDigit(s[1]) then None
    else
      var rest := FromHex(s[2..]);
      if rest.None? then None else Some([16 * DigitValue(s[0]) + DigitValue(s[1])] + rest.value)
  }

  lemma {:induction false} HexRoundTrip(bytes: seq<byte>)
    ensures FromHex(ToHex(bytes)) == Some(bytes)
  {
    if bytes != [] {
      HexRoundTrip(bytes[1..]);
      var text := ToHex(bytes);
      assert text[2..] == ToHex(bytes[1..]);
      assert text[0] == Digit(bytes[0] / 16) && text[1] == Digit(bytes[0] % 16);
      assert [bytes[0]] + bytes[1..] == bytes;
    }
  }

  predicate AcceptsText(log: string) {
    && |log| >= 2 && log[..2] == "0x"
    && var bytes := FromHex(log[2..]);
    && bytes.Some? && Accepts(bytes.value)
  }

  /** `endsSet` on a header's digest logs; None stands for a log that is not text. */
  predicate EndsSet(logs: Option<seq<Option<string>>>) {
    logs.Some? && exists i :: 0 <= i < |logs.value| && logs.value[i].Some? && AcceptsText(logs.value[i].value)
  }

  // ------------------------------------------------------------ SCALE itself

  /** A 32-byte authority id and its 8-byte weight. */
  type Seat = s: seq<byte> | |s| == 40 witness seq(40, _ => 0)

  type u32 = n: int | 0 <= n < 0x1_0000_0000

  datatype ScheduledChange = ScheduledChange(authorities: seq<Seat>, delay: u32)

  /** Compact integers up to the largest length a SCALE list may have. */
  function Compact(n: nat): (c: seq<byte>)
    requires n < 0x1_0000_0000
    ensures |c| == if n < 64 then 1 else if n < 0x4000 then 2 else if n < 0x4000_0000 then 4 else 5
  {
    if n < 64 then [4 * n]
    else if n < 0x4000 then LE2(4 * n + 1)
    else if n < 0x4000_0000 then LE4(4 * n + 2)
    else [3] + LE4(n)
  }

  function Flat(seats: seq<Seat>): (f: seq<byte>)
    ensures |f| == 40 * |seats|
  {
    if seats == [] then [] else seats[0] + Flat(seats[1..])
  }

  /** Consensus log 1 (ScheduledChange): its list and its delay. */
  function Payload(c: ScheduledChange): seq<byte>
    requires |c.authorities| < 0x1_0000_0000
  {
    [1] + Compact(|c.authorities|) + Flat(c.authorities) + LE4(c.delay)
  }

  /** Changes whose encoding exists: no SCALE list is longer than 2^32 - 1. */
  predicate Encodable(c: ScheduledChange) {
    |c.authorities| < 0x1_0000_0000 && |Payload(c)| < 0x1_0000_0000
  }

  function Log(c: ScheduledChange): seq<byte>
    requires Encodable(c)
  {
    FRNK + Compact(|Payload(c)|) + Payload(c)
  }

  // A reader that consumes its input front to back.

  function TakeCompact(bytes: seq<byte>): Option<(nat, seq<byte>)> {
    if |bytes| >= 1 && bytes[0] % 4 == 0 then Some((bytes[0] / 4, bytes[1..]))
    else if |bytes| >= 2 && bytes[0] % 4 == 1 then Some((ReadLE(bytes, 0, 2) / 4, bytes[2..]))
    else if |bytes| >= 4 && bytes[0] % 4 == 2 then Some((ReadLE(bytes, 0, 4) / 4, bytes[4..]))
    else None
  }

  function TakeSeats(n: nat, bytes: seq<byte>): (r: Option<(seq<Seat>, seq<byte>)>)
    ensures r.Some? <==> |bytes| >= 40 * n
    ensures r.Some? ==> |r.value.0| == n && |r.value.1| == |bytes| - 40 * n && r.value.1 == bytes[40 * n..]
  {
    if n == 0 then Some(([], bytes))
    else if |bytes| < 40 then None
    else
      var rest := TakeSeats(n - 1, bytes[40..]);
      if rest.None? then None else Some(([bytes[..40]] + rest.value.0, rest.value.1))
  }

  /** The change a payload holds. */
  function DecodeChange(payload: seq<byte>): Option<ScheduledChange> {
    if payload == [] || payload[0] != 1 then None
    else
      var count := TakeCompact(payload[1..]);
      if count.None? then None
      else
        var seats := TakeSeats(count.value.0, count.value.1);
        if seats.None? || |seats.value.1| != 4 then None
        else Some(ScheduledChange(seats.value.0, ReadLE(seats.value.1, 0, 4)))
  }

  /** The change a log holds, in the one-, two- and four-byte compact modes. */
  function Decode(log: seq<byte>): Option<ScheduledChange> {
    if |log| < 5 || log[..5] != FRNK then None
    else
      var payload := TakeCompact(log[5..]);
      if payload.None? || payload.value.0 != |payload.value.1| then None else DecodeChange(payload.value.1)
  }

  lemma CompactAtTakes(bytes: seq<byte>, at: nat)
    requires at <= |bytes|
    ensures CompactAt(bytes, at).Some? <==> TakeCompact(bytes[at..]).Some?
    ensures CompactAt(bytes, at).Some? ==>
      TakeCompact(bytes[at..]).value == (CompactAt(bytes, at).value.value, bytes[CompactAt(bytes, at).value.next..])
  {
    if at < |bytes| { assert bytes[at..][0] == bytes[at]; }
    if at + 1 < |bytes| { assert bytes[at..][1..] == bytes[at + 1..]; }
    if at + 2 <= |bytes| { assert bytes[at..][2..] == bytes[at + 2..]; }
    if at + 4 <= |bytes| { assert bytes[at..][4..] == bytes[at + 4..]; }
  }

  lemma AcceptsChangeThatDecodes(log: seq<byte>, at: nat)
    requires at <= |log|
    ensures AcceptsChange(log, at) <==> DecodeChange(log[at..]).Some? && DecodeChange(log[at..]).value.delay == 0
  {
    if at < |log| && log[at] == 1 {
      CompactAtTakes(log, at + 1);
      assert log[at..][1..] == log[at + 1..];
      var seats := CompactAt(log, at + 1);
      if seats.Some? {
        var next, n := seats.value.next, seats.value.value;
        if next + 40 * n + 4 == |log| {
          assert log[next..][40 * n..] == log[|log| - 4..];
          assert ReadLE(log[|log| - 4..], 0, 4) == ReadLE(log, |log| - 4, 4);
        }
      }
    }
  }

  /** The recogniser accepts a log exactly when it decodes to a change with no delay. */
  lemma AcceptsWhatDecodes(log: seq<byte>)
    ensures Accepts(log) <==> Decode(log).Some? && Decode(log).value.delay == 0
  {
    if |log| >= 5 && log[..5] == FRNK {
      CompactAtTakes(log, 5);
      var payload := CompactAt(log, 5);
      if payload.Some? {
        AcceptsChangeThatDecodes(log, payload.value.next);
      }
    }
  }

  lemma TakeCompactInverts(n: nat, rest: seq<byte>)
    requires n < 0x1_0000_0000
    ensures TakeCompact(Compact(n) + rest) == if n < 0x4000_0000 then Some((n, rest)) else None
  {
    var whole := Compact(n) + rest;
    assert whole[|Compact(n)|..] == rest;
    if n < 64 {
    } else if n < 0x4000 {
      assert whole[0] == (4 * n + 1) % 256 && whole[1] == (4 * n + 1) / 256;
    } else if n < 0x4000_0000 {
      LE4Inverts(4 * n + 2, rest);
      assert whole[0] == ((4 * n + 2) % 0x1_0000) % 256;
    }
  }

  lemma LE4Inverts(n: nat, rest: seq<byte>)
    requires n < 0x1_0000_0000
    ensures ReadLE(LE4(n) + rest, 0, 4) == n
  {
  }

  lemma Splits(a: seq<byte>, b: seq<byte>, c: seq<byte>)
    ensures (a + b + c)[..|a|] == a && (a + b + c)[|a|..] == b + c
  {
  }

  lemma FlatSplits(seats: seq<Seat>, rest: seq<byte>)
    requires seats != []
    ensures (Flat(seats) + rest)[..40] == seats[0]
    ensures (Flat(seats) + rest)[40..] == Flat(seats[1..]) + rest
  {
    Splits(seats[0], Flat(seats[1..]), rest);
  }

  lemma {:induction false} TakeSeatsInverts(seats: seq<Seat>, rest: seq<byte>)
    ensures TakeSeats(|seats|, Flat(seats) + rest) == Some((seats, rest))
  {
    if seats == [] {
      assert Flat(seats) + rest == rest;
    } else {
      var bytes := Flat(seats) + rest;
      FlatSplits(seats, rest);
      TakeSeatsInverts(seats[1..], rest);
      ConsSeat(seats[0], seats);
    }
  }

  lemma ConsSeat(first: Seat, seats: seq<Seat>)
    requires seats != [] && first == seats[0]
    ensures [first] + seats[1..] == seats
  {
  }

  lemma DecodeChangeInverts(c: ScheduledChange)
    requires |c.authorities| < 0x4000_0000
    ensures DecodeChange(Payload(c)) == Some(c)
  {
    var n, tail := |c.authorities|, Flat(c.authorities) + LE4(c.delay);
    assert Payload(c)[1..] == Compact(n) + tail;
    TakeCompactInverts(n, tail);
    TakeSeatsInverts(c.authorities, LE4(c.delay));
    LE4Inverts(c.delay, []);
    assert LE4(c.delay) + [] == LE4(c.delay);
  }

  /** The reader inverts the encoder as long as the payload's length is not in big-integer mode. */
  lemma DecodeInvertsLog(c: ScheduledChange)
    requires Encodable(c)
    ensures Decode(Log(c)) == if |Payload(c)| < 0x4000_0000 then Some(c) else None
  {
    var log, payload := Log(c), Payload(c);
    assert log[..5] == FRNK && log[5..] == Compact(|payload|) + payload;
    TakeCompactInverts(|payload|, payload);
    if |payload| < 0x4000_0000 {
      DecodeChangeInverts(c);
    }
  }

  /** The least number of seats whose payload needs big-integer mode. */
  const UNREAD_SEATS: nat := 26_843_546

  /**
   * A scheduled change ends its set exactly when it has no delay and fewer seats than that:
   * the length of a payload of 2^30 bytes is written in big-integer mode, which is not read.
   */
  lemma EncodedChangeEndsSet(c: ScheduledChange)
    requires Encodable(c)
    ensures AcceptsText("0x" + ToHex(Log(c))) <==> c.delay == 0 && |c.authorities| < UNREAD_SEATS
  {
    var text := "0x" + ToHex(Log(c));
    HexRoundTrip(Log(c));
    assert text[2..] == ToHex(Log(c)) && text[..2] == "0x";
    AcceptsWhatDecodes(Log(c));
    DecodeInvertsLog(c);
    assert |Payload(c)| == 5 + |Compact(|c.authorities|)| + 40 * |c.authorities|;
  }

  /**
   * The longest header text that is looked at: `put` keeps nothing longer, and what it does not
   * keep is not found again.
   */
  const MAXIMUM_HEADER: nat := 256 * 1024

  /** Every change whose log fits into such a header ends its set exactly when it has no delay; 3276 seats fit. */
  lemma ChangeInHeaderEndsSet(c: ScheduledChange)
    requires Encodable(c) && |"0x" + ToHex(Log(c))| <= MAXIMUM_HEADER
    ensures AcceptsText("0x" + ToHex(Log(c))) <==> c.delay == 0
    ensures |c.authorities| <= 3276
  {
    EncodedChangeEndsSet(c);
    assert |Log(c)| == 5 + |Compact(|Payload(c)|)| + |Payload(c)|;
    assert |Payload(c)| == 5 + |Compact(|c.authorities|)| + 40 * |c.authorities|;
  }

  /** A header ends its set exactly when one of its logs is text that decodes to such a change. */
  lemma HeaderEndsSet(logs: seq<Option<string>>)
    ensures EndsSet(Some(logs)) <==>
      exists i :: 0 <= i < |logs| && logs[i].Some? && |logs[i].value| >= 2 && logs[i].value[..2] == "0x"
        && FromHex(logs[i].value[2..]).Some?
        && Decode(FromHex(logs[i].value[2..]).value).Some?
        && Decode(FromHex(logs[i].value[2..]).value).value.delay == 0
  {
    forall i | 0 <= i < |logs| && logs[i].Some? && |logs[i].value| >= 2 && FromHex(logs[i].value[2..]).Some?
      ensures var b := FromHex(logs[i].value[2..]).value;
        Accepts(b) <==> Decode(b).Some? && Decode(b).value.delay == 0
    {
      AcceptsWhatDecodes(FromHex(logs[i].value[2..]).value);
    }
  }
}
