/** JSON.parse: the value a JSON text writes (RFC 8259), or none for what is no JSON text. */
module JsonText {
  import opened Common
  import opened Json
  import Decimal
  import Hex

  predicate IsSpace(c: char) { c == ' ' || c == '\t' || c == '\n' || c == '\r' }

  function Trim(s: string): (r: string)
    ensures |r| <= |s|
    ensures s != "" && !IsSpace(s[0]) ==> r == s
  {
    if s != "" && IsSpace(s[0]) then Trim(s[1..]) else s
  }

  predicate Starts(s: string, c: char) { s != "" && s[0] == c }

  // ------------------------------------------------------------ numbers

  /** How many digits a text starts with. */
  function DigitCount(s: string): (n: nat)
    ensures n <= |s| && (forall i | 0 <= i < n :: Decimal.IsDigit(s[i]))
    ensures n < |s| ==> !Decimal.IsDigit(s[n])
  {
    if s != "" && Decimal.IsDigit(s[0]) then 1 + DigitCount(s[1..]) else 0
  }

  function Pow10(n: nat): (p: nat)
    ensures p > 0
  {
    if n == 0 then 1 else 10 * Pow10(n - 1)
  }

  /** The number `m` times ten to the power `e`. */
  function Scaled(m: int, e: int): Json {
    if e >= 0 then Num(m * Pow10(e)) else if m % Pow10(-e) == 0 then Num(m / Pow10(-e)) else Frac(m)
  }

  /** The digits of a fraction, if there is one. */
  function Fraction(s: string): (r: Option<(string, string)>)
    ensures r.Some? ==> |r.value.1| <= |s| && forall i | 0 <= i < |r.value.0| :: Decimal.IsDigit(r.value.0[i])
  {
    if !Starts(s, '.') then Some(("", s))
    else
      var n := DigitCount(s[1..]);
      if n == 0 then None else Some((s[1..1 + n], s[1 + n..]))
  }

  /** The power of ten an exponent writes, if there is one. */
  function Exponent(s: string): (r: Option<(int, string)>)
    ensures r.Some? ==> |r.value.1| <= |s|
  {
    if !Starts(s, 'e') && !Starts(s, 'E') then Some((0, s))
    else
      var t := if Starts(s[1..], '+') || Starts(s[1..], '-') then s[2..] else s[1..];
      var n := DigitCount(t);
      if n == 0 then None
      else Some((Decimal.Value(t[..n]) * (if Starts(s[1..], '-') then -1 else 1), t[n..]))
  }

  function Signed(n: int, negative: bool): int { if negative then -n else n }

  /** A numeral without its sign. */
  function Unsigned(s: string, negative: bool): (r: Option<(Json, string)>)
    ensures r.Some? ==> |r.value.1| < |s|
  {
    var n := DigitCount(s);
    if n == 0 || (n > 1 && s[0] == '0') || Fraction(s[n..]).None? then None
    else
      var (digits, t) := Fraction(s[n..]).value;
      if Exponent(t).None? then None
      else
        var m := Decimal.Value(s[..n] + digits);
        Some((Scaled(Signed(m, negative), Exponent(t).value.0 - |digits|), Exponent(t).value.1))
  }

  function Number(s: string): (r: Option<(Json, string)>)
    ensures r.Some? ==> |r.value.1| < |s|
  {
    if Starts(s, '-') then Unsigned(s[1..], true) else Unsigned(s, false)
  }

  // ------------------------------------------------------------ strings

  /** A UTF-16 code unit; half of a surrogate pair is no character here. */
  function CodeUnit(n: nat): char
    requires n < 0x1_0000
  {
    if 0xD800 <= n < 0xE000 then '\U{FFFD}' else n as char
  }

  function FourHex(s: string): (n: nat)
    requires |s| == 4
    ensures n < 0x1_0000
  {
    ((Hex.DigitValue(s[0]) * 16 + Hex.DigitValue(s[1])) * 16 + Hex.DigitValue(s[2])) * 16 + Hex.DigitValue(s[3])
  }

  /** The character after a backslash and what follows it. */
  function Escaped(s: string): (r: Option<(char, string)>)
    ensures r.Some? ==> |r.value.1| < |s|
  {
    if s == "" then None
    else if s[0] == '"' || s[0] == '\\' || s[0] == '/' then Some((s[0], s[1..]))
    else if s[0] == 'b' then Some(('\U{0008}', s[1..]))
    else if s[0] == 'f' then Some(('\U{000C}', s[1..]))
    else if s[0] == 'n' then Some(('\n', s[1..]))
    else if s[0] == 'r' then Some(('\r', s[1..]))
    else if s[0] == 't' then Some(('\t', s[1..]))
    else if s[0] == 'u' && |s| >= 5 && forall i | 1 <= i < 5 :: Hex.IsHexDigit(s[i]) then
      Some((CodeUnit(FourHex(s[1..5])), s[5..]))
    else None
  }

  /** The string that starts after an opening quote, and what follows its closing quote. */
  function Quoted(s: string): (r: Option<(string, string)>)
    ensures r.Some? ==> |r.value.1| < |s|
    decreases |s|
  {
    if s == "" || s[0] < ' ' then None
    else if s[0] == '"' then Some(("", s[1..]))
    else
      var first := if s[0] == '\\' then Escaped(s[1..]) else Some((s[0], s[1..]));
      if first.None? || Quoted(first.value.1).None? then None
      else
        var (rest, t) := Quoted(first.value.1).value;
        Some(([first.value.0] + rest, t))
  }

  // ------------------------------------------------------------ values

  /** A value that is neither a list nor an object. */
  function Scalar(s: string): (r: Option<(Json, string)>)
    ensures r.Some? ==> |r.value.1| < |s|
  {
    if "true" <= s then Some((Bool(true), s[4..]))
    else if "false" <= s then Some((Bool(false), s[5..]))
    else if "null" <= s then Some((Null, s[4..]))
    else if Starts(s, '"') then
      var q := Quoted(s[1..]);
      if q.None? then None else Some((Str(q.value.0), q.value.1))
    else Number(s)
  }

  /** The value at the start of a text and what follows it. */
  function Value(s: string): (r: Option<(Json, string)>)
    ensures r.Some? ==> |r.value.1| < |s|
    decreases |s|, 0
  {
    if Starts(s, '[') then
      var t := Trim(s[1..]);
      if Starts(t, ']') then Some((Arr([]), t[1..]))
      else
        var l := Items(t);
        if l.None? then None else Some((Arr(l.value.0), l.value.1))
    else if Starts(s, '{') then
      var t := Trim(s[1..]);
      if Starts(t, '}') then Some((Obj(map[]), t[1..]))
      else
        var m := Members(t);
        if m.None? then None else Some((Obj(m.value.0), m.value.1))
    else Scalar(s)
  }

  /** The items of a list up to its closing bracket. */
  function Items(s: string): (r: Option<(seq<Json>, string)>)
    ensures r.Some? ==> |r.value.1| < |s|
    decreases |s|, 1
  {
    var v := Value(s);
    if v.None? then None
    else
      var t := Trim(v.value.1);
      if Starts(t, ']') then Some(([v.value.0], t[1..]))
      else if !Starts(t, ',') then None
      else
        var l := Items(Trim(t[1..]));
        if l.None? then None else Some(([v.value.0] + l.value.0, l.value.1))
  }

  /** One name of an object and its value. */
  function Member(s: string): (r: Option<(string, Json, string)>)
    ensures r.Some? ==> |r.value.2| < |s|
    decreases |s|, 1
  {
    if !Starts(s, '"') || Quoted(s[1..]).None? then None
    else
      var (name, rest) := Quoted(s[1..]).value;
      var t := Trim(rest);
      if !Starts(t, ':') then None
      else
        var v := Value(Trim(t[1..]));
        if v.None? then None else Some((name, v.value.0, v.value.1))
  }

  /** The members of an object up to its closing brace; of members of one name the last one stays. */
  function Members(s: string): (r: Option<(map<string, Json>, string)>)
    ensures r.Some? ==> |r.value.1| < |s|
    decreases |s|, 2
  {
    var m := Member(s);
    if m.None? then None
    else
      var (name, v, rest) := m.value;
      var t := Trim(rest);
      if Starts(t, '}') then Some((map[name := v], t[1..]))
      else if !Starts(t, ',') then None
      else
        var l := Members(Trim(t[1..]));
        if l.None? then None else Some((map[name := v] + l.value.0, l.value.1))
  }

  /** `JSON.parse`: one value with nothing but white space around it. */
  function Parse(s: string): Option<Json> {
    var v := Value(Trim(s));
    if v.Some? && Trim(v.value.1) == "" then Some(v.value.0) else None
  }

  // ------------------------------------------------------------ reading back what was written

  /** An integer as JSON.stringify writes it. */
  function IntText(p: int): string { if p < 0 then "-" + Decimal.Dec(-p) else Decimal.Dec(p) }

  lemma {:induction false} NoLeadingZero(n: nat)
    ensures Decimal.Dec(n)[0] == '0' ==> |Decimal.Dec(n)| == 1
    ensures n >= 1 ==> Decimal.Dec(n)[0] != '0'
  {
    if n >= 10 { NoLeadingZero(n / 10); }
  }

  lemma DigitsEnd(s: string, rest: string)
    requires forall i | 0 <= i < |s| :: Decimal.IsDigit(s[i])
    requires rest == "" || !Decimal.IsDigit(rest[0])
    ensures DigitCount(s + rest) == |s|
  {
    var t := s + rest;
    assert forall i | 0 <= i < |s| :: t[i] == s[i];
    assert rest == "" || t[|s|] == rest[0];
  }

  /** What may follow a numeral without being read as a part of it. */
  predicate EndsNumber(rest: string) {
    rest == "" || !(Decimal.IsDigit(rest[0]) || rest[0] == '.' || rest[0] == 'e' || rest[0] == 'E')
  }

  lemma Unscaled(m: int)
    ensures Scaled(m, 0) == Num(m)
  {
    assert Pow10(0) == 1;
  }

  lemma NothingFollows(rest: string)
    requires EndsNumber(rest)
    ensures Fraction(rest) == Some(("", rest)) && Exponent(rest) == Some((0, rest))
  {
  }

  lemma ReadsDigits(d: string, rest: string, negative: bool)
    requires d != "" && (forall i | 0 <= i < |d| :: Decimal.IsDigit(d[i])) && (d[0] == '0' ==> |d| == 1)
    requires EndsNumber(rest)
    ensures Unsigned(d + rest, negative) == Some((Num(Signed(Decimal.Value(d), negative)), rest))
  {
    var s := d + rest;
    DigitsEnd(d, rest);
    assert s[|d|..] == rest && s[..|d|] + "" == d && s[0] == d[0];
    NothingFollows(rest);
    Unscaled(Signed(Decimal.Value(d), negative));
  }

  lemma ReadsNumeral(n: nat, rest: string, negative: bool)
    requires EndsNumber(rest)
    ensures Unsigned(Decimal.Dec(n) + rest, negative) == Some((Num(Signed(n, negative)), rest))
  {
    NoLeadingZero(n);
    Decimal.ValueOfDec(n);
    ReadsDigits(Decimal.Dec(n), rest, negative);
  }

  lemma ScalarIsValue(s: string)
    requires !Starts(s, '[') && !Starts(s, '{')
    ensures Value(s) == Scalar(s)
  {
  }

  lemma NumberIsScalar(s: string)
    requires s != "" && (s[0] == '-' || Decimal.IsDigit(s[0]))
    ensures Scalar(s) == Number(s)
  {
    assert "true"[0] != s[0] && "false"[0] != s[0] && "null"[0] != s[0];
  }

  lemma ReadsNegative(t: string, n: nat, rest: string)
    requires Unsigned(t, true) == Some((Num(-(n as int)), rest))
    ensures Number("-" + t) == Some((Num(-(n as int)), rest))
  {
    assert ("-" + t)[1..] == t;
  }

  lemma ReadsPositive(n: nat, rest: string)
    requires EndsNumber(rest)
    ensures Number(Decimal.Dec(n) + rest) == Some((Num(n), rest))
  {
    ReadsNumeral(n, rest, false);
    assert (Decimal.Dec(n) + rest)[0] == Decimal.Dec(n)[0];
  }

  lemma ReadsNumber(p: int, rest: string)
    requires EndsNumber(rest)
    ensures Number(IntText(p) + rest) == Some((Num(p), rest))
  {
    if p < 0 {
      ReadsNumeral(-p, rest, true);
      ReadsNegative(Decimal.Dec(-p) + rest, -p, rest);
      assert IntText(p) + rest == "-" + (Decimal.Dec(-p) + rest);
    } else {
      ReadsPositive(p, rest);
    }
  }

  lemma ReadsInt(p: int, rest: string)
    requires EndsNumber(rest)
    ensures Value(IntText(p) + rest) == Some((Num(p), rest))
  {
    ReadsNumber(p, rest);
    var s := IntText(p) + rest;
    assert s[0] == IntText(p)[0];
    NumberIsScalar(s);
    ScalarIsValue(s);
  }

  /** A character that a JSON string holds as it is. */
  predicate IsPlain(c: char) { c >= ' ' && c != '"' && c != '\\' }

  lemma {:induction false} ReadsQuoted(h: string, rest: string)
    requires forall i | 0 <= i < |h| :: IsPlain(h[i])
    ensures Quoted(h + "\"" + rest) == Some((h, rest))
  {
    var s := h + "\"" + rest;
    if h == "" {
      assert s[1..] == rest;
    } else {
      ReadsQuoted(h[1..], rest);
      assert s[1..] == h[1..] + "\"" + rest;
      assert [h[0]] + h[1..] == h;
    }
  }
  lemma QuoteIsScalar(s: string)
    requires Starts(s, '"') && Quoted(s[1..]).Some?
    ensures Scalar(s) == Some((Str(Quoted(s[1..]).value.0), Quoted(s[1..]).value.1))
  {
    assert "true"[0] != s[0] && "false"[0] != s[0] && "null"[0] != s[0];
  }

  /** A string in quotes and what follows it. */
  function QuotedText(h: string, rest: string): string { "\"" + h + "\"" + rest }

  lemma ReadsQuotedText(h: string, rest: string)
    requires forall i | 0 <= i < |h| :: IsPlain(h[i])
    ensures Starts(QuotedText(h, rest), '"') && Quoted(QuotedText(h, rest)[1..]) == Some((h, rest))
    ensures Value(QuotedText(h, rest)) == Some((Str(h), rest))
  {
    var s := QuotedText(h, rest);
    ReadsQuoted(h, rest);
    assert s[1..] == h + "\"" + rest;
    QuoteIsScalar(s);
    ScalarIsValue(s);
  }

  lemma ReadsMember(name: string, t: string, v: Json, rest: string)
    requires (forall i | 0 <= i < |name| :: IsPlain(name[i])) && t != "" && !IsSpace(t[0])
    requires Value(t) == Some((v, rest))
    ensures Starts(QuotedText(name, ":" + t), '"') && Member(QuotedText(name, ":" + t)) == Some((name, v, rest))
  {
    ReadsQuotedText(name, ":" + t);
    MemberOf(QuotedText(name, ":" + t), name, t, v, rest);
  }

  lemma MemberOf(s: string, name: string, t: string, v: Json, rest: string)
    requires Starts(s, '"') && Quoted(s[1..]) == Some((name, ":" + t))
    requires t != "" && !IsSpace(t[0]) && Value(t) == Some((v, rest))
    ensures Member(s) == Some((name, v, rest))
  {
    assert (":" + t)[1..] == t;
  }

  lemma LastMember(t: string, name: string, v: Json)
    requires Member(t) == Some((name, v, "}"))
    ensures Members(t) == Some((map[name := v], ""))
  {
    assert "}"[1..] == "";
  }

  lemma NextMember(s: string, name: string, v: Json, t: string, m: map<string, Json>)
    requires Member(s) == Some((name, v, "," + t)) && Starts(t, '"') && Members(t) == Some((m, ""))
    ensures Members(s) == Some((map[name := v] + m, ""))
  {
    assert ("," + t)[1..] == t;
  }

  /** Members in braces are a text of their object. */
  lemma ReadsObject(s: string, m: map<string, Json>)
    requires Starts(s, '"') && Members(s) == Some((m, ""))
    ensures Parse("{" + s) == Some(Obj(m))
  {
    assert ("{" + s)[1..] == s;
    assert Value("{" + s) == Some((Obj(m), ""));
  }
}
