/**
 * src/routes/midnight-read-rpc.ts, lines 9-27, 142 and 176: the reads that are allowed, the
 * key a read is cached and shared under, and the name of a group of keys.
 */
module ReadCalls {
  import opened Common
  import opened Hex
  import opened Json
  import D = Decimal

  // Long constants are written in pieces the verifier reads one at a time.
  const REGISTRY := "438b1ea134e760e8" + "b4e87409d663f365" + "61f15341880c118d" + "c41e4fc2b224c736"
  const EVENTS := "0x26aa394eea5630" + "e07c48ae0c9558ce" + "f780d41e5e160567" + "65bc8461851072c9" + "d7"
  const TIMESTAMP := "0xf0c365c3cf59d6" + "71eb72da0e7a4113" + "c49f1f0515f462cd" + "cf84e0f1d6045dfc" + "bb"
  const CODE := "0x3a636f646500"

  predicate IsLowerDigit(c: char) { '0' <= c <= '9' || 'a' <= c <= 'f' }

  /** `0x` and 64 lower-case hex digits. */
  predicate IsHash(s: string) {
    |s| == 66 && s[0] == '0' && s[1] == 'x' && forall i | 2 <= i < 66 :: IsLowerDigit(s[i])
  }

  predicate IsHeight(n: int) { 0 <= n <= 0xffff_ffff }

  /** The reads `parse` lets through: the two read proofs differ in the keys they name. */
  datatype Kind =
    | FinalizedHead | BlockHash | ProveFinality | Header | Block | StateRoot | ContractState | CodeProof | EventsProof

  /** What varies between two reads of a kind. */
  datatype Arg = Nothing | Height(n: int) | Hash(s: string)

  datatype Call = Call(kind: Kind, arg: Arg)

  predicate Allowed(c: Call) {
    match c.kind
    case FinalizedHead => c.arg.Nothing?
    case BlockHash => c.arg.Height? && IsHeight(c.arg.n)
    case ProveFinality => c.arg.Height? && IsHeight(c.arg.n)
    case _ => c.arg.Hash? && IsHash(c.arg.s)
  }

  function Method(k: Kind): string {
    match k
    case FinalizedHead => "chain_getFinalizedHead"
    case BlockHash => "chain_getBlockHash"
    case ProveFinality => "grandpa_proveFinality"
    case Header => "chain_getHeader"
    case Block => "chain_getBlock"
    case StateRoot => "midnight_zswapStateRoot"
    case ContractState => "midnight_contractState"
    case CodeProof => "state_getReadProof"
    case EventsProof => "state_getReadProof"
  }

  /** The params before the varying one. */
  function Fixed(k: Kind): seq<Json> {
    match k
    case ContractState => [Str(REGISTRY)]
    case CodeProof => [Arr([Str(CODE)])]
    case EventsProof => [Arr([Str(EVENTS), Str(TIMESTAMP)])]
    case _ => []
  }

  function Params(c: Call): seq<Json> {
    Fixed(c.kind) + match c.arg case Nothing => [] case Height(n) => [Num(n)] case Hash(s) => [Str(s)]
  }

  function ParseKind(name: string, p: seq<Json>): Option<Kind> {
    if name == "chain_getFinalizedHead" then Some(FinalizedHead)
    else if name == "chain_getBlockHash" then Some(BlockHash)
    else if name == "grandpa_proveFinality" then Some(ProveFinality)
    else if name == "chain_getHeader" then Some(Header)
    else if name == "chain_getBlock" then Some(Block)
    else if name == "midnight_zswapStateRoot" then Some(StateRoot)
    else if name == "midnight_contractState" then
      if |p| == 2 && p[0] == Str(REGISTRY) then Some(ContractState) else None
    else if name == "state_getReadProof" then
      if |p| != 2 then None
      else if p[0] == Arr([Str(CODE)]) then Some(CodeProof)
      else if p[0] == Arr([Str(EVENTS), Str(TIMESTAMP)]) then Some(EventsProof)
      else None
    else None
  }

  /** `parse` on a well-formed envelope: the call it allows, or None. */
  function Parse(name: string, p: seq<Json>): Option<Call> {
    var kind := ParseKind(name, p);
    if kind.None? then None
    else match kind.value
      case FinalizedHead => if p == [] then Some(Call(kind.value, Nothing)) else None
      case BlockHash =>
        if |p| == 1 && p[0].Num? && IsHeight(p[0].n) then Some(Call(kind.value, Height(p[0].n))) else None
      case ProveFinality =>
        if |p| == 1 && p[0].Num? && IsHeight(p[0].n) then Some(Call(kind.value, Height(p[0].n))) else None
      case ContractState => if p[1].Str? && IsHash(p[1].s) then Some(Call(kind.value, Hash(p[1].s))) else None
      case CodeProof => if p[1].Str? && IsHash(p[1].s) then Some(Call(kind.value, Hash(p[1].s))) else None
      case EventsProof => if p[1].Str? && IsHash(p[1].s) then Some(Call(kind.value, Hash(p[1].s))) else None
      case _ => if |p| == 1 && p[0].Str? && IsHash(p[0].s) then Some(Call(kind.value, Hash(p[0].s))) else None
  }

  lemma MethodShapes()
    ensures |Method(FinalizedHead)| == 22 && |Method(BlockHash)| == 18 && |Method(ProveFinality)| == 21
    ensures |Method(Header)| == 15 && |Method(Block)| == 14 && |Method(StateRoot)| == 23
    ensures |Method(ContractState)| == 22 && |Method(CodeProof)| == 18
    ensures Method(FinalizedHead)[0] == Method(BlockHash)[0] == 'c'
    ensures Method(ContractState)[0] == 'm' && Method(CodeProof)[0] == 's'
  {
  }

  lemma ParseKindInverts(k: Kind, p: seq<Json>)
    requires Fixed(k) <= p && (Fixed(k) != [] ==> |p| == 2)
    ensures ParseKind(Method(k), p) == Some(k)
  {
    MethodShapes();
    assert k.CodeProof? || k.EventsProof? ==> p[0] == Fixed(k)[0];
    assert |Fixed(CodeProof)[0].items| != |Fixed(EventsProof)[0].items|;
  }

  /** Every allowed call is parsed from its own request; nothing else is ever parsed. */
  lemma ParseInverts(c: Call)
    requires Allowed(c)
    ensures Parse(Method(c.kind), Params(c)) == Some(c)
  {
    ParseKindInverts(c.kind, Params(c));
  }

  lemma ParseKindIsSound(name: string, p: seq<Json>)
    requires ParseKind(name, p).Some?
    ensures var k := ParseKind(name, p).value;
      name == Method(k) && (Fixed(k) != [] ==> |p| == 2 && |Fixed(k)| == 1 && p[0] == Fixed(k)[0])
  {
  }

  lemma ParseIsSound(name: string, p: seq<Json>)
    requires Parse(name, p).Some?
    ensures var c := Parse(name, p).value; Allowed(c) && name == Method(c.kind) && p == Params(c)
  {
    ParseKindIsSound(name, p);
    var c := Parse(name, p).value;
    assert p == Params(c);
  }

  /** The varying param is a block number of 32 bits, or "0x" and 64 hex digits in lower case. */
  lemma ArgExactly(c: Call)
    ensures Allowed(c) <==>
      match c.arg
      case Nothing => c.kind == FinalizedHead
      case Height(n) => c.kind in {BlockHash, ProveFinality} && 0 <= n < 4_294_967_296
      case Hash(s) =>
        && c.kind !in {FinalizedHead, BlockHash, ProveFinality}
        && |s| == 66 && s[..2] == "0x" && Plain(s[2..])
  {
    if c.arg.Hash? && |c.arg.s| == 66 {
      var s := c.arg.s;
      assert s[..2] == "0x" <==> s[0] == '0' && s[1] == 'x';
      assert Plain(s[2..]) <==> forall i | 2 <= i < 66 :: IsLowerDigit(s[i]) by {
        if Plain(s[2..]) {
          forall i | 2 <= i < 66 ensures IsLowerDigit(s[i]) { assert s[i] == s[2..][i - 2]; }
        }
      }
    }
  }

  // ------------------------------------------------------------ keys

  /** `JSON.stringify([method, params])` up to the varying param. */
  function Head(k: Kind): string {
    var named := "[\"" + Method(k) + "\",[";
    match k
    case FinalizedHead => named
    case BlockHash => named
    case ProveFinality => named
    case ContractState => named + "\"" + REGISTRY + "\",\""
    case CodeProof => named + "[\"" + CODE + "\"],\""
    case EventsProof => named + "[\"" + EVENTS + "\",\"" + TIMESTAMP + "\"],\""
    case _ => named + "\""
  }

  function Tail(a: Arg): string {
    match a
    case Nothing => "]]"
    case Height(n) => if n < 0 then "" else D.Dec(n) + "]]"
    case Hash(s) => s + "\"]]"
  }

  /** The key of a call: its request as JSON text. */
  function Key(c: Call): string { Head(c.kind) + Tail(c.arg) }

  // Where the heads of two kinds differ.

  lemma FirstChar(k: Kind)
    ensures |Head(k)| > 16
    ensures Head(k)[2] == if k.ProveFinality? then 'g' else if k.StateRoot? || k.ContractState? then 'm'
                          else if k.CodeProof? || k.EventsProof? then 's' else 'c'
  {
    MethodShapes();
  }

  lemma MethodChar(k: Kind)
    ensures |Head(k)| > 16
    ensures k.FinalizedHead? ==> Head(k)[11] == 'F'
    ensures k.BlockHash? ==> Head(k)[11] == 'B' && Head(k)[16] == 'H'
    ensures k.Block? ==> Head(k)[11] == 'B' && Head(k)[16] == '\"'
    ensures k.Header? ==> Head(k)[11] == 'H'
    ensures k.StateRoot? ==> Head(k)[11] == 'z'
    ensures k.ContractState? ==> Head(k)[11] == 'c'
  {
    MethodShapes();
  }

  lemma ProofChar(k: Kind)
    requires k.CodeProof? || k.EventsProof?
    ensures |Head(k)| > 27 && Head(k)[27] == if k.CodeProof? then '3' else '2'
  {
    MethodShapes();
    var named := "[\"" + Method(k) + "\",[";
    assert |named| == 23;
    if k.CodeProof? {
      assert Head(k)[27] == CODE[2];
    } else {
      assert Head(k)[27] == EVENTS[2];
    }
  }

  /** A key starts with its kind's head. */
  lemma KeyChars(c: Call, i: nat)
    requires i < |Head(c.kind)|
    ensures i < |Key(c)| && Key(c)[i] == Head(c.kind)[i]
  {
  }

  /** The characters that tell kinds apart. */
  lemma Marks(c: Call)
    ensures |Key(c)| > 16
    ensures Key(c)[2] == Head(c.kind)[2] && Key(c)[11] == Head(c.kind)[11] && Key(c)[16] == Head(c.kind)[16]
    ensures c.kind.CodeProof? || c.kind.EventsProof? ==> |Key(c)| > 27 && Key(c)[27] == Head(c.kind)[27]
  {
    FirstChar(c.kind);
    KeyChars(c, 2);
    KeyChars(c, 11);
    KeyChars(c, 16);
    if c.kind.CodeProof? || c.kind.EventsProof? {
      ProofChar(c.kind);
      KeyChars(c, 27);
    }
  }

  lemma SameKind(a: Call, b: Call)
    requires Key(a) == Key(b)
    ensures a.kind == b.kind
  {
    Marks(a);
    Marks(b);
    FirstChar(a.kind);
    FirstChar(b.kind);
    MethodChar(a.kind);
    MethodChar(b.kind);
    if a.kind.CodeProof? || a.kind.EventsProof? {
      ProofChar(a.kind);
      ProofChar(b.kind);
    }
  }

  lemma SameTail(h: string, x: string, y: string)
    requires h + x == h + y
    ensures x == y
  {
    assert x == (h + x)[|h|..] && y == (h + y)[|h|..];
  }

  lemma TailInjective(a: Arg, b: Arg)
    requires Tail(a) == Tail(b)
    requires a.Height? ==> b.Height? && IsHeight(a.n) && IsHeight(b.n)
    requires a.Hash? ==> b.Hash?
    requires a.Nothing? ==> b.Nothing?
    ensures a == b
  {
    var x, y := Tail(a), Tail(b);
    if a.Height? {
      assert x[..|x| - 2] == D.Dec(a.n) && y[..|y| - 2] == D.Dec(b.n);
      D.DecInjective(a.n, b.n);
    } else if a.Hash? {
      assert x[..|x| - 3] == a.s && y[..|y| - 3] == b.s;
    }
  }

  /** Reads that share a key are the same method with the same params. */
  lemma KeyInjective(a: Call, b: Call)
    requires Allowed(a) && Allowed(b) && Key(a) == Key(b)
    ensures a == b
  {
    SameKind(a, b);
    SameTail(Head(a.kind), Tail(a.arg), Tail(b.arg));
    TailInjective(a.arg, b.arg);
  }

  // ------------------------------------------------------------ group names

  predicate Lacks(s: string, c: char) { forall i | 0 <= i < |s| :: s[i] != c }

  lemma RegistryLacksBar()
    ensures Lacks(REGISTRY, '|') && Lacks(CODE, '|')
  {
  }

  lemma EventsLackBar()
    ensures Lacks(EVENTS, '|')
  {
  }

  lemma TimestampLacksBar()
    ensures Lacks(TIMESTAMP, '|')
  {
  }

  lemma MethodLacksBar(k: Kind)
    ensures Lacks(Method(k), '|')
  {
    match k
    case FinalizedHead => assert Lacks("chain_getFinalizedHead", '|');
    case BlockHash => assert Lacks("chain_getBlockHash", '|');
    case ProveFinality => assert Lacks("grandpa_proveFinality", '|');
    case Header => assert Lacks("chain_getHeader", '|');
    case Block => assert Lacks("chain_getBlock", '|');
    case StateRoot => assert Lacks("midnight_zswapStateRoot", '|');
    case ContractState => assert Lacks("midnight_contractState", '|');
    case CodeProof => assert Lacks("state_getReadProof", '|');
    case EventsProof => assert Lacks("state_getReadProof", '|');
  }

  lemma HeadLacksBar(k: Kind)
    ensures Lacks(Head(k), '|')
  {
    MethodLacksBar(k);
    var named := "[\"" + Method(k) + "\",[";
    assert Lacks(named, '|');
    if k.ContractState? {
      RegistryLacksBar();
      assert Lacks(named + "\"" + REGISTRY, '|');
    } else if k.CodeProof? {
      RegistryLacksBar();
      assert Lacks(named + "[\"" + CODE, '|');
    } else if k.EventsProof? {
      EventsLackBar();
      TimestampLacksBar();
      assert Lacks(named + "[\"" + EVENTS, '|');
      assert Lacks(named + "[\"" + EVENTS + "\",\"" + TIMESTAMP, '|');
    }
  }

  /** No key of an allowed call holds the separator of a group name. */
  lemma KeyLacksBar(c: Call)
    requires Allowed(c)
    ensures Lacks(Key(c), '|')
  {
    HeadLacksBar(c.kind);
    assert Lacks(Tail(c.arg), '|');
  }

  /** Place of the first `c`, or the length. */
  function IndexOf(s: string, c: char): (i: nat)
    ensures i <= |s|
    ensures forall k | 0 <= k < i :: s[k] != c
    ensures i < |s| ==> s[i] == c
  {
    if s == "" || s[0] == c then 0 else 1 + IndexOf(s[1..], c)
  }

  lemma IndexOfSeparator(a: string, x: string, c: char)
    requires Lacks(a, c)
    ensures IndexOf(a + [c] + x, c) == |a| && IndexOf(a, c) == |a|
  {
    var s := a + [c] + x;
    assert s[|a|] == c && forall k | 0 <= k < |a| :: s[k] == a[k];
  }

  /** `keys.join("|")`. */
  function Join(keys: seq<string>): string {
    if keys == [] then "" else if |keys| == 1 then keys[0] else keys[0] + ['|'] + Join(keys[1..])
  }

  /** Keys without the separator can be read back from their join. */
  lemma {:induction false} JoinInjective(a: seq<string>, b: seq<string>)
    requires a != [] && b != []
    requires forall i | 0 <= i < |a| :: Lacks(a[i], '|')
    requires forall i | 0 <= i < |b| :: Lacks(b[i], '|')
    requires Join(a) == Join(b)
    ensures a == b
    decreases |a|
  {
    var s := Join(a);
    IndexOfSeparator(a[0], Join(a[1..]), '|');
    IndexOfSeparator(b[0], Join(b[1..]), '|');
    assert IndexOf(s, '|') == |a[0]| == |b[0]|;
    assert a[0] == s[..|a[0]|] == b[0];
    if |a| > 1 && |b| > 1 {
      SameTail(a[0] + ['|'], Join(a[1..]), Join(b[1..]));
      JoinInjective(a[1..], b[1..]);
    }
    assert a == [a[0]] + a[1..] && b == [b[0]] + b[1..];
  }
}
