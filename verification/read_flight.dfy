/**
 * src/routes/midnight-read-rpc.ts, lines 139-212: the cached, single-flight upstream read.
 * A read answers what it can from the cache and shares one upstream job for the rest;
 * between its steps other reads start, jobs settle and cache rows are evicted.
 */
module ReadFlight {
  import opened Common
  import opened Json
  import opened ReadCalls
  import Scale

  const SHORT_TTL: int := 60_000
  const LONG_TTL: int := 604_800_000

  datatype Answer = Answer(value: Json) | Refused(code: int)

  /** A row of table read_cache; `touched` is when it was stored. */
  datatype Entry = Entry(value: Json, expires: int, touched: int)

  type Cache = map<string, Entry>

  // ------------------------------------------------------------ the cache

  function Logs(header: Json): Option<seq<Option<string>>> {
    var digest := if header.Obj? then Field(header.fields, "digest") else Undefined;
    var logs := if digest.Obj? then Field(digest.fields, "logs") else Undefined;
    if logs.Arr?
    then Some(seq(|logs.items|, i requires 0 <= i < |logs.items| =>
      if logs.items[i].Str? then Some(logs.items[i].s) else None))
    else None
  }

  predicate EndsSet(header: Json) { Scale.EndsSet(Logs(header)) }

  predicate Live(cache: Cache, key: string, now: int) {
    key in cache && cache[key].expires > now
  }

  /** A finality proof's first 32 bytes name its block. */
  predicate NamesBlock(proof: Json, block: string) {
    proof.Str? && |proof.s| >= 66 && proof.s[..66] == block
  }

  function HeaderOf(block: string): Call { Call(Header, Hash(block)) }

  predicate Unjustified(value: Json) { value.Obj? && Field(value.fields, "justifications").Null? }

  /** How long a fresh answer may be served; zero is never. */
  function Lifetime(cache: Cache, c: Call, value: Json, now: int): int {
    if value.Null? || c.kind.BlockHash? then 0
    else if c.kind.FinalizedHead? then 3000
    else if c.kind.Block? && Unjustified(value) then SHORT_TTL
    else if c.kind.ProveFinality? then
      if value.Str? && |value.s| >= 66 && IsHash(value.s[..66])
         && Live(cache, Key(HeaderOf(value.s[..66])), now) && EndsSet(cache[Key(HeaderOf(value.s[..66]))].value)
      then LONG_TTL else SHORT_TTL
    else LONG_TTL
  }

  /** The start of every key of a method. */
  function MethodKey(k: Kind): string { "[\"" + Method(k) + "\"," }

  predicate IsProofKey(key: string) { MethodKey(ProveFinality) <= key }

  /** Stores an answer, lets a set-ending header lengthen the proofs of its block, drops what expired. */
  function Put(cache: Cache, c: Call, value: Json, oversized: bool, now: int): Cache {
    var ttl := Lifetime(cache, c, value, now);
    if ttl == 0 || oversized then cache
    else
      var stored := cache[Key(c) := Entry(value, now + ttl, now)];
      var lengthened :=
        if c.kind.Header? && c.arg.Hash? && EndsSet(value) then
          map k | k in stored ::
            if IsProofKey(k) && NamesBlock(stored[k].value, c.arg.s) && stored[k].expires > now
            then stored[k].(expires := now + LONG_TTL) else stored[k]
        else stored;
      map k | k in lengthened && lengthened[k].expires > now :: lengthened[k]
  }

  /** Everything upstream has answered, each answer to the call it was requested for. */
  type Heard = set<(Call, Answer)>

  /** The proof's block is known to end its set, so the proof cannot change. */
  ghost predicate FixedProof(proof: Json, heard: Heard) {
    exists block, header ::
      NamesBlock(proof, block) && (HeaderOf(block), Answer(header)) in heard && EndsSet(header)
  }

  ghost predicate Fresh(c: Call, e: Entry, heard: Heard) {
    && !e.value.Null? && !c.kind.BlockHash?
    && (c.kind.FinalizedHead? ==> e.expires <= e.touched + 3000)
    && (c.kind.Block? && Unjustified(e.value) ==> e.expires <= e.touched + SHORT_TTL)
    && (c.kind.ProveFinality? ==> e.expires <= e.touched + SHORT_TTL || FixedProof(e.value, heard))
    && (!c.kind.ProveFinality? ==> e.expires <= e.touched + LONG_TTL)
  }

  /** Each cached row is upstream's own answer to the call of its key, and outlives only what cannot change. */
  ghost predicate CacheOk(cache: Cache, heard: Heard) {
    forall c | Allowed(c) && Key(c) in cache ::
      (c, Answer(cache[Key(c)].value)) in heard && Fresh(c, cache[Key(c)], heard)
  }

  lemma ProofKeysAreProofs(c: Call)
    requires IsProofKey(Key(c))
    ensures c.kind.ProveFinality?
  {
    FirstChar(c.kind);
    assert Key(c)[2] == MethodKey(ProveFinality)[2] == 'g';
    assert Head(c.kind)[2] == Key(c)[2];
  }

  // ------------------------------------------------------------ startup

  lemma KeysStartWithMethod(c: Call)
    ensures MethodKey(c.kind) <= Key(c)
  {
    assert MethodKey(c.kind) + "[" <= Head(c.kind);
    assert Head(c.kind) <= Key(c);
  }

  /** The rows startup deletes: proofs, block hashes and unjustified blocks of an earlier process. */
  predicate Deleted(key: string, value: Json) {
    || IsProofKey(key)
    || MethodKey(BlockHash) <= key
    || (MethodKey(Block) <= key && Unjustified(value))
  }

  /** The cache a new process goes on with. */
  function Reopened(cache: Cache): Cache { map k | k in cache && !Deleted(k, cache[k].value) :: cache[k] }

  /** An answer whose lifetime an earlier process may have set otherwise. */
  predicate Unsettled(c: Call, value: Json) {
    c.kind.ProveFinality? || c.kind.BlockHash? || (c.kind.Block? && Unjustified(value))
  }

  /**
   * A cache as any earlier process may have left it: rows hold upstream's own answers for at
   * most a week, heads for 3 seconds; nothing is asked of proofs, block hashes and unjustified
   * blocks.
   */
  ghost predicate OldCacheOk(cache: Cache, heard: Heard) {
    forall c | Allowed(c) && Key(c) in cache && !Unsettled(c, cache[Key(c)].value) ::
      var e := cache[Key(c)];
      && (c, Answer(e.value)) in heard && !e.value.Null?
      && e.expires <= e.touched + if c.kind.FinalizedHead? then 3000 else LONG_TTL
  }

  lemma ReopeningKeepsCacheOk(cache: Cache, heard: Heard)
    requires OldCacheOk(cache, heard)
    ensures CacheOk(Reopened(cache), heard)
  {
    forall c | Allowed(c) && Key(c) in Reopened(cache)
      ensures (c, Answer(cache[Key(c)].value)) in heard && Fresh(c, cache[Key(c)], heard)
    {
      KeysStartWithMethod(c);
      assert !Unsettled(c, cache[Key(c)].value);
    }
  }

  /** What this process leaves behind is such a cache. */
  lemma CacheOkIsOldCacheOk(cache: Cache, heard: Heard)
    requires CacheOk(cache, heard)
    ensures OldCacheOk(cache, heard)
  {
    forall c | Allowed(c) && Key(c) in cache && !Unsettled(c, cache[Key(c)].value)
      ensures var e := cache[Key(c)];
        && (c, Answer(e.value)) in heard && !e.value.Null?
        && e.expires <= e.touched + if c.kind.FinalizedHead? then 3000 else LONG_TTL
    {
      assert Fresh(c, cache[Key(c)], heard);
    }
  }

  lemma MethodMarks(k: Kind)
    requires k.Block? || k.BlockHash?
    ensures var m := MethodKey(k); |m| > 16 && m[2] == 'c' && m[11] == 'B' && m[16] == if k.Block? then '\"' else 'H'
  {
    assert Method(Block)[0] == 'c' && Method(Block)[9] == 'B';
    assert Method(BlockHash)[0] == 'c' && Method(BlockHash)[9] == 'B' && Method(BlockHash)[14] == 'H';
  }

  lemma MethodKeyExactly(k: Kind, c: Call)
    requires k.Block? || k.BlockHash?
    ensures MethodKey(k) <= Key(c) <==> c.kind == k
  {
    KeysStartWithMethod(c);
    if MethodKey(k) <= Key(c) {
      MethodMarks(k);
      Marks(c);
      FirstChar(c.kind);
      MethodChar(c.kind);
      assert Key(c)[2] == 'c' && Key(c)[11] == 'B' && Key(c)[16] == MethodKey(k)[16];
    }
  }

  /** A new process goes on with every cached answer but proofs, block hashes and blocks that have no justifications. */
  lemma ReopenedExactly(cache: Cache, c: Call)
    ensures Key(c) in Reopened(cache) <==>
      && Key(c) in cache && c.kind !in {ProveFinality, BlockHash}
      && !(c.kind == Block && cache[Key(c)].value.Obj?
           && Field(cache[Key(c)].value.fields, "justifications") == Null)
    ensures Key(c) in Reopened(cache) ==> Reopened(cache)[Key(c)] == cache[Key(c)]
  {
    MethodKeyExactly(Block, c);
    MethodKeyExactly(BlockHash, c);
    KeysStartWithMethod(c);
    if IsProofKey(Key(c)) { ProofKeysAreProofs(c); }
  }

  /** Nothing is asked of the rows that startup deletes. */
  lemma DeletedRowsMayBeAny(cache: Cache, heard: Heard)
    ensures OldCacheOk(cache, heard) <==> OldCacheOk(Reopened(cache), heard)
  {
    forall c | Allowed(c)
      ensures Key(c) in cache && !Unsettled(c, cache[Key(c)].value) <==>
        Key(c) in Reopened(cache) && !Unsettled(c, Reopened(cache)[Key(c)].value)
      ensures Key(c) in Reopened(cache) ==> Reopened(cache)[Key(c)] == cache[Key(c)]
    {
      ReopenedExactly(cache, c);
    }
  }

  // ------------------------------------------------------------ storing an answer

  lemma PutKeepsCacheOk(cache: Cache, heard: Heard, c: Call, value: Json, oversized: bool, now: int)
    requires Allowed(c) && CacheOk(cache, heard) && (c, Answer(value)) in heard
    ensures CacheOk(Put(cache, c, value, oversized, now), heard)
  {
    var after := Put(cache, c, value, oversized, now);
    var ttl := Lifetime(cache, c, value, now);
    if ttl != 0 && !oversized {
      forall d | Allowed(d) && Key(d) in after
        ensures (d, Answer(after[Key(d)].value)) in heard && Fresh(d, after[Key(d)], heard)
      {
        if Key(d) == Key(c) {
          KeyInjective(d, c);
          if c.kind.ProveFinality? && ttl == LONG_TTL {
            var header := HeaderOf(value.s[..66]);
            assert Allowed(header) && (header, Answer(cache[Key(header)].value)) in heard;
            assert NamesBlock(value, value.s[..66]);
            assert FixedProof(value, heard);
          }
        } else {
          var e := cache[Key(d)];
          if after[Key(d)] != e {
            ProofKeysAreProofs(d);
            assert NamesBlock(e.value, c.arg.s) && c == HeaderOf(c.arg.s);
            assert FixedProof(e.value, heard);
          }
        }
      }
    }
  }

  lemma HearingMoreKeepsCacheOk(cache: Cache, heard: Heard, more: Heard)
    requires CacheOk(cache, heard) && heard <= more
    ensures CacheOk(cache, more)
  {
    forall c | Allowed(c) && Key(c) in cache
      ensures (c, Answer(cache[Key(c)].value)) in more && Fresh(c, cache[Key(c)], more)
    {
      var e := cache[Key(c)];
      if c.kind.ProveFinality? && e.expires > e.touched + SHORT_TTL {
        var block, header :|
          NamesBlock(e.value, block) && (HeaderOf(block), Answer(header)) in heard && EndsSet(header);
        assert (HeaderOf(block), Answer(header)) in more;
        assert FixedProof(e.value, more);
      }
    }
  }

  // ------------------------------------------------------------ starting a read

  ghost predicate DistinctKeys<C>(key: C -> string, calls: seq<C>) {
    forall i, j | 0 <= i < j < |calls| :: key(calls[i]) != key(calls[j])
  }

  function KeySet<C>(key: C -> string, calls: seq<C>): set<string> {
    set i | 0 <= i < |calls| :: key(calls[i])
  }

  lemma KeySetSnoc<C>(key: C -> string, calls: seq<C>, c: C)
    ensures KeySet(key, calls + [c]) == KeySet(key, calls) + {key(c)}
  {
    var more := calls + [c];
    assert forall i | 0 <= i < |calls| :: more[i] == calls[i];
    assert more[|calls|] == c;
    forall k | k in KeySet(key, calls) ensures k in KeySet(key, more) {
      var i :| 0 <= i < |calls| && k == key(calls[i]);
      assert k == key(more[i]);
    }
  }

  function LiveKeys(cache: Cache, keys: set<string>, now: int): set<string> {
    set k | k in keys && Live(cache, k, now)
  }

  /** Splits a read into what the cache answers and the calls it must ask for, one per key. */
  method Partition<C>(key: C -> string, cache: Cache, calls: seq<C>, now: int)
    returns (answers: map<string, Answer>, missing: seq<C>)
    ensures answers.Keys == LiveKeys(cache, KeySet(key, calls), now)
    ensures forall k | k in answers :: answers[k] == Answer(cache[k].value)
    ensures DistinctKeys(key, missing) && (forall c | c in missing :: c in calls)
    ensures KeySet(key, missing) == KeySet(key, calls) - answers.Keys
  {
    answers, missing := map[], [];
    var known: set<string> := {};
    ghost var seen: set<string> := {};
    var i := 0;
    while i < |calls|
      invariant 0 <= i <= |calls|
      invariant seen == KeySet(key, calls[..i])
      invariant answers.Keys == LiveKeys(cache, seen, now)
      invariant forall k | k in answers :: answers[k] == Answer(cache[k].value)
      invariant DistinctKeys(key, missing) && (forall c | c in missing :: c in calls)
      invariant known == KeySet(key, missing) == seen - answers.Keys
    {
      var call := calls[i];
      var id := key(call);
      KeySetSnoc(key, calls[..i], call);
      assert calls[..i + 1] == calls[..i] + [call];
      seen := seen + {id};
      if id in cache && cache[id].expires > now {
        answers := answers[id := Answer(cache[id].value)];
      } else if id !in known {
        KeySetSnoc(key, missing, call);
        missing := missing + [call];
        known := known + {id};
      }
      i := i + 1;
    }
    assert calls[..|calls|] == calls;
  }

  function KeyOf(): Call -> string { (c: Call) => Key(c) }

  /** `[...keys].sort()`: some fixed arrangement of each set of keys. */
  ghost predicate Arranges(arrange: set<string> -> seq<string>) {
    forall s: set<string> :: forall k :: k in arrange(s) <==> k in s
  }

  function Group(arrange: set<string> -> seq<string>, keys: set<string>): string { Join(arrange(keys)) }

  /** Two sets of keys share a group name only when they are equal. */
  lemma GroupInjective(arrange: set<string> -> seq<string>, a: seq<Call>, b: seq<Call>)
    requires Arranges(arrange)
    requires a != [] && b != [] && (forall c | c in a + b :: Allowed(c))
    requires Group(arrange, KeySet(KeyOf(), a)) == Group(arrange, KeySet(KeyOf(), b))
    ensures KeySet(KeyOf(), a) == KeySet(KeyOf(), b)
  {
    var x, y := arrange(KeySet(KeyOf(), a)), arrange(KeySet(KeyOf(), b));
    assert Key(a[0]) in KeySet(KeyOf(), a) && Key(b[0]) in KeySet(KeyOf(), b);
    assert Key(a[0]) in x && Key(b[0]) in y;
    KeysLackBar(a, x);
    KeysLackBar(b, y);
    JoinInjective(x, y);
    assert forall k :: k in KeySet(KeyOf(), a) <==> k in x;
    assert forall k :: k in KeySet(KeyOf(), b) <==> k in y;
  }

  lemma KeysLackBar(calls: seq<Call>, keys: seq<string>)
    requires forall c | c in calls :: Allowed(c)
    requires forall k | k in keys :: k in KeySet(KeyOf(), calls)
    ensures forall i | 0 <= i < |keys| :: Lacks(keys[i], '|')
  {
    forall i | 0 <= i < |keys| ensures Lacks(keys[i], '|') {
      assert keys[i] in keys;
      var j :| 0 <= j < |calls| && keys[i] == Key(calls[j]);
      assert calls[j] in calls;
      KeyLacksBar(calls[j]);
    }
  }

  // ------------------------------------------------------------ reading an answer

  /** A row of upstream's answer, as far as it is looked at. */
  datatype Row = Row(isObject: bool, version2: bool, id: Json, result: Option<Json>, error: Option<Json>)

  function ErrorCode(e: Json): Option<int> {
    if e.Obj? && IsSafeInt(Field(e.fields, "code")) then Some(Field(e.fields, "code").n) else None
  }

  /** What decides whether a result may be used: it names the credential, or is too large to keep. */
  datatype Limits = Limits(leaks: Json -> bool, oversized: Json -> bool)

  predicate WellFormed(r: Row, n: nat, l: Limits) {
    && r.isObject && r.version2 && r.id.Num? && 0 <= r.id.n < n
    && r.result.Some? != r.error.Some?
    && (r.error.Some? ==> ErrorCode(r.error.value).Some?)
    && (r.result.Some? ==> !l.leaks(r.result.value))
  }

  function AnswerOf(r: Row, n: nat, l: Limits): Answer
    requires WellFormed(r, n, l)
  {
    if r.result.Some? then Answer(r.result.value) else Refused(ErrorCode(r.error.value).value)
  }

  /** The first `upto` rows are well formed and name different requests. */
  ghost predicate GoodRows(rows: seq<Row>, n: nat, l: Limits, upto: nat)
    requires upto <= |rows|
  {
    && (forall j | 0 <= j < upto :: WellFormed(rows[j], n, l))
    && (forall i, j | 0 <= i < j < upto :: rows[i].id != rows[j].id)
  }

  /** An answer with a row for each request is read up to its first bad row, any other not at all. */
  ghost predicate ReadsTo(rows: seq<Row>, n: nat, l: Limits, read: nat) {
    if |rows| != n then read == 0
    else read <= n && GoodRows(rows, n, l, read) && (read < n ==> !GoodRows(rows, n, l, read + 1))
  }

  /** What `store` makes of the results of the first `upto` rows, in turn. */
  ghost function Stored<C, S>(store: (S, C, Json) -> S, kept: S, request: seq<C>, rows: seq<Row>, upto: nat): S
    requires upto <= |rows|
  {
    if upto == 0 then kept else StoreRow(store, Stored(store, kept, request, rows, upto - 1), request, rows[upto - 1])
  }

  ghost function StoreRow<C, S>(store: (S, C, Json) -> S, kept: S, request: seq<C>, r: Row): S {
    if r.result.Some? && r.id.Num? && 0 <= r.id.n < |request| then store(kept, request[r.id.n], r.result.value)
    else kept
  }

  /** What storing one row keeps, storing them all keeps. */
  lemma {:induction false} StoringKeeps<C, S(!new)>(store: (S, C, Json) -> S, kept: S, request: seq<C>, rows: seq<Row>,
      upto: nat, ok: S -> bool)
    requires upto <= |rows| && ok(kept)
    requires forall j, k | 0 <= j < upto && ok(k) :: ok(StoreRow(store, k, request, rows[j]))
    ensures ok(Stored(store, kept, request, rows, upto))
  {
    if upto > 0 { StoringKeeps(store, kept, request, rows, upto - 1, ok); }
  }

  /** The checks on one row, other than that its id is new. */
  method ReadRow(row: Row, n: nat, l: Limits) returns (a: Option<Answer>)
    ensures a == if WellFormed(row, n, l) then Some(AnswerOf(row, n, l)) else None
  {
    if !row.isObject || !row.version2 || !row.id.Num? || row.id.n < 0 || row.id.n >= n
       || row.result.Some? == row.error.Some? {
      return None;
    }
    if row.error.Some? {
      if ErrorCode(row.error.value).None? {
        return None;
      }
      return Some(Refused(ErrorCode(row.error.value).value));
    }
    if l.leaks(row.result.value) {
      return None;
    }
    a := Some(Answer(row.result.value));
  }

  /** The requests the first `upto` rows name. */
  function Named(rows: seq<Row>, upto: nat): set<int>
    requires upto <= |rows|
  {
    set j | 0 <= j < upto && rows[j].id.Num? :: rows[j].id.n
  }

  /** Where reading stands after `read` rows, all of them good. */
  ghost predicate ReadSoFar<C, S>(key: C -> string, store: (S, C, Json) -> S, kept: S, request: seq<C>, rows: seq<Row>,
                                  l: Limits, read: nat, answers: map<string, Answer>, after: S, ids: set<int>) {
    && read <= |rows| && GoodRows(rows, |request|, l, read)
    && after == Stored(store, kept, request, rows, read)
    && ids == Named(rows, read) && |ids| == read
    && Filled(key, request, rows, l, read, answers)
  }

  lemma ReadOneMore<C, S>(key: C -> string, store: (S, C, Json) -> S, kept: S, request: seq<C>, rows: seq<Row>,
                          l: Limits, read: nat, answers: map<string, Answer>, after: S, ids: set<int>)
    requires DistinctKeys(key, request) && read < |rows|
    requires ReadSoFar(key, store, kept, request, rows, l, read, answers, after, ids)
    requires WellFormed(rows[read], |request|, l) && rows[read].id.n !in ids
    ensures ReadSoFar(key, store, kept, request, rows, l, read + 1,
                      answers[key(request[rows[read].id.n]) := AnswerOf(rows[read], |request|, l)],
                      StoreRow(store, after, request, rows[read]), ids + {rows[read].id.n})
  {
    NamedNext(rows, |request|, l, read);
    FillOne(key, request, rows, l, read, answers);
  }

  /** Reads rows until one is bad or names a request again. */
  method ReadRows<C, S>(key: C -> string, store: (S, C, Json) -> S, kept: S, request: seq<C>, rows: seq<Row>, l: Limits)
    returns (good: bool, answers: map<string, Answer>, after: S, read: nat)
    requires DistinctKeys(key, request)
    ensures read <= |rows| && GoodRows(rows, |request|, l, read)
    ensures after == Stored(store, kept, request, rows, read)
    ensures good <==> GoodRows(rows, |request|, l, |rows|)
    ensures !good ==> read < |rows| && !GoodRows(rows, |request|, l, read + 1)
    ensures good ==> read == |rows| && Filled(key, request, rows, l, read, answers) && |Named(rows, read)| == read
  {
    good, answers, after, read := true, map[], kept, 0;
    var ids: set<int> := {};
    assert Named(rows, 0) == {};
    while read < |rows|
      invariant good && read <= |rows|
      invariant ReadSoFar(key, store, kept, request, rows, l, read, answers, after, ids)
    {
      var row := rows[read];
      var answer := ReadRow(row, |request|, l);
      if answer.None? || row.id.n in ids {
        NamedNext(rows, |request|, l, read);
        good := false;
        return;
      }
      ReadOneMore(key, store, kept, request, rows, l, read, answers, after, ids);
      after := if answer.value.Answer? then store(after, request[row.id.n], answer.value.value) else after;
      answers := answers[key(request[row.id.n]) := answer.value];
      ids := ids + {row.id.n};
      read := read + 1;
    }
  }

  /**
   * Reads a whole upstream answer. It succeeds exactly when there is one well-formed row per
   * request; then every request is named by a row, and has the answer of that row. Results
   * before a bad row are stored all the same.
   */
  method Receive<C, S>(key: C -> string, store: (S, C, Json) -> S, kept: S, request: seq<C>, rows: seq<Row>, l: Limits)
    returns (values: Option<map<string, Answer>>, after: S, read: nat)
    requires DistinctKeys(key, request)
    ensures ReadsTo(rows, |request|, l, read) && read <= |rows|
    ensures after == Stored(store, kept, request, rows, read)
    ensures values.Some? <==> |rows| == |request| && GoodRows(rows, |request|, l, |rows|)
    ensures values.Some? ==> read == |rows| && Complete(key, request, rows, l, values.value)
  {
    if |rows| != |request| {
      return None, kept, 0;
    }
    var good, answers;
    good, answers, after, read := ReadRows(key, store, kept, request, rows, l);
    if good {
      AllNamed(Named(rows, |rows|), |request|);
    }
    values := if good then Some(answers) else None;
  }

  /** The next row keeps the rows good exactly when it is well formed and its id is new. */
  lemma NamedNext(rows: seq<Row>, n: nat, l: Limits, upto: nat)
    requires upto < |rows| && GoodRows(rows, n, l, upto)
    ensures WellFormed(rows[upto], n, l) ==> Named(rows, upto + 1) == Named(rows, upto) + {rows[upto].id.n}
    ensures GoodRows(rows, n, l, upto + 1) <==> WellFormed(rows[upto], n, l) && rows[upto].id.n !in Named(rows, upto)
    ensures !GoodRows(rows, n, l, upto + 1) ==> !GoodRows(rows, n, l, |rows|)
  {
  }

  /** Each of the first `upto` rows answers the request it names, and nothing else is answered. */
  ghost predicate Filled<C>(key: C -> string, request: seq<C>, rows: seq<Row>, l: Limits, upto: nat,
      answers: map<string, Answer>)
    requires upto <= |rows| && GoodRows(rows, |request|, l, upto)
  {
    && (forall j | 0 <= j < upto ::
          key(request[rows[j].id.n]) in answers
          && answers[key(request[rows[j].id.n])] == AnswerOf(rows[j], |request|, l))
    && answers.Keys <= KeySet(key, request)
  }

  lemma FillOne<C>(key: C -> string, request: seq<C>, rows: seq<Row>, l: Limits, upto: nat,
      answers: map<string, Answer>)
    requires DistinctKeys(key, request)
    requires upto < |rows| && GoodRows(rows, |request|, l, upto + 1)
    requires Filled(key, request, rows, l, upto, answers)
    ensures Filled(key, request, rows, l, upto + 1,
      answers[key(request[rows[upto].id.n]) := AnswerOf(rows[upto], |request|, l)])
  {
    var id := rows[upto].id.n;
    forall j | 0 <= j < upto ensures key(request[rows[j].id.n]) != key(request[id]) {
      assert rows[j].id != rows[upto].id;
    }
  }

  /** Every request is named by a row and has that row's answer under its own key. */
  ghost predicate Complete<C>(key: C -> string, request: seq<C>, rows: seq<Row>, l: Limits,
      answers: map<string, Answer>) {
    && |rows| == |request| && GoodRows(rows, |request|, l, |rows|)
    && Filled(key, request, rows, l, |rows|, answers)
    && (forall i | 0 <= i < |request| :: i in Named(rows, |rows|))
  }

  function Range(n: nat): (r: set<int>)
    ensures |r| == n
    ensures forall i :: i in r <==> 0 <= i < n
  {
    if n == 0 then {} else Range(n - 1) + {n - 1}
  }

  /** As many different in-range ids as there are requests name every request. */
  lemma AllNamed(ids: set<int>, n: nat)
    requires |ids| == n && forall i | i in ids :: 0 <= i < n
    ensures forall i | 0 <= i < n :: i in ids
  {
    var range := Range(n);
    assert range * ids == ids && |range - ids| == |range| - |range * ids|;
    forall i | 0 <= i < n ensures i in ids {
      assert i in range && i !in range - ids;
    }
  }
}
