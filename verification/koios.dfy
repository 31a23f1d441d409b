/**
 * src/l1-anchor-verify.ts: reading Koios's answers. A transaction's label-8746 record comes
 * back either as plain JSON or in the detailed schema `{map: [{k, v}]}`.
 */
module Koios {
  import opened Common
  import opened Json
  import L1Anchor

  // ------------------------------------------------------------ one record, two renderings

  /** A detailed-schema scalar as its plain value; anything else as it is. */
  function Scalar(v: Json): Json {
    if !v.Obj? then v
    else if "string" in v.fields then v.fields["string"]
    else if "int" in v.fields then v.fields["int"]
    else if "bytes" in v.fields then v.fields["bytes"]
    else v
  }

  function Scalars(items: seq<Json>): (r: seq<Json>)
    ensures |r| == |items|
    ensures forall i | 0 <= i < |items| :: r[i] == Scalar(items[i])
  {
    seq(|items|, i requires 0 <= i < |items| => Scalar(items[i]))
  }

  /** The value of the first entry whose key is `key`. */
  function EntryValue(entries: seq<Json>, key: string): Json {
    if entries == [] then Undefined
    else if entries[0].Obj? && Scalar(Field(entries[0].fields, "k")) == Str(key) then Field(entries[0].fields, "v")
    else EntryValue(entries[1..], key)
  }

  function DetailedField(entries: seq<Json>, key: string): Json {
    var v := EntryValue(entries, key);
    if v.Obj? && Field(v.fields, "list").Arr? then Arr(Scalars(Field(v.fields, "list").items)) else Scalar(v)
  }

  function RecordField(raw: map<string, Json>, key: string): Json {
    if raw.Keys == {"map"} && raw["map"].Arr? then DetailedField(raw["map"].items, key) else Field(raw, key)
  }

  function DecodeRecord(raw: Json): Option<L1Anchor.AnchorRecord> {
    if !raw.Obj? || RecordField(raw.fields, "p") != Str("materios") || RecordField(raw.fields, "v") != Num(2) then None
    else Some(L1Anchor.AnchorRecord(
      RecordField(raw.fields, "chain"), RecordField(raw.fields, "root"), RecordField(raw.fields, "manifest"),
      RecordField(raw.fields, "leaves"), RecordField(raw.fields, "blocks")))
  }

  /** What an anchor worker writes: a scalar or a list of scalars under each key. */
  datatype Atom = Text(s: string) | Whole(n: int) | Bytes(hex: string)
  datatype Value = One(atom: Atom) | Many(atoms: seq<Atom>)
  datatype Entry = Entry(key: string, value: Value)

  function PlainAtom(a: Atom): Json {
    match a
    case Text(s) => Str(s)
    case Whole(n) => Num(n)
    case Bytes(hex) => Str(hex)
  }

  function DetailedAtom(a: Atom): Json {
    match a
    case Text(s) => Obj(map["string" := Str(s)])
    case Whole(n) => Obj(map["int" := Num(n)])
    case Bytes(hex) => Obj(map["bytes" := Str(hex)])
  }

  function PlainValue(v: Value): Json {
    match v
    case One(a) => PlainAtom(a)
    case Many(atoms) => Arr(seq(|atoms|, i requires 0 <= i < |atoms| => PlainAtom(atoms[i])))
  }

  function DetailedValue(v: Value): Json {
    match v
    case One(a) => DetailedAtom(a)
    case Many(atoms) => Obj(map["list" := Arr(seq(|atoms|, i requires 0 <= i < |atoms| => DetailedAtom(atoms[i])))])
  }

  function Plain(entries: seq<Entry>): map<string, Json> {
    if entries == [] then map[] else Plain(entries[1..])[entries[0].key := PlainValue(entries[0].value)]
  }

  function Detailed(entries: seq<Entry>): seq<Json> {
    seq(|entries|, i requires 0 <= i < |entries| =>
      Obj(map["k" := DetailedAtom(Text(entries[i].key)), "v" := DetailedValue(entries[i].value)]))
  }

  lemma AtomsAgree(a: Atom)
    ensures Scalar(DetailedAtom(a)) == PlainAtom(a)
  {
  }

  /** A detailed value reads as the plain one. */
  lemma ValuesAgree(v: Value)
    ensures var d := DetailedValue(v);
      (if d.Obj? && Field(d.fields, "list").Arr? then Arr(Scalars(Field(d.fields, "list").items)) else Scalar(d)) ==
        PlainValue(v)
  {
    if v.Many? {
      var d := seq(|v.atoms|, i requires 0 <= i < |v.atoms| => DetailedAtom(v.atoms[i]));
      assert Field(DetailedValue(v).fields, "list") == Arr(d);
      forall i | 0 <= i < |d| ensures Scalars(d)[i] == PlainAtom(v.atoms[i]) { AtomsAgree(v.atoms[i]); }
      assert Scalars(d) == PlainValue(v).items;
    } else {
      var d := DetailedAtom(v.atom);
      assert "list" !in d.fields;
    }
  }

  lemma {:induction false} FieldsAgree(entries: seq<Entry>, key: string)
    ensures DetailedField(Detailed(entries), key) == Field(Plain(entries), key)
  {
    if entries != [] {
      var d, first := Detailed(entries), entries[0];
      assert d[1..] == Detailed(entries[1..]);
      assert Scalar(Field(d[0].fields, "k")) == Str(first.key);
      if first.key == key {
        ValuesAgree(first.value);
        assert EntryValue(d, key) == DetailedValue(first.value);
      } else {
        FieldsAgree(entries[1..], key);
        assert EntryValue(d, key) == EntryValue(d[1..], key);
      }
    }
  }

  /** A plain record that holds a single list is mistaken for a detailed one, and names no anchor either way. */
  lemma {:induction false} NoEntries(atoms: seq<Json>, key: string)
    requires forall i | 0 <= i < |atoms| :: !atoms[i].Obj?
    ensures EntryValue(atoms, key).Undefined?
  {
    if atoms != [] { NoEntries(atoms[1..], key); }
  }

  lemma {:induction false} PlainHolds(entries: seq<Entry>, key: string)
    requires key in Plain(entries)
    ensures exists v :: Plain(entries)[key] == PlainValue(v)
  {
    if entries[0].key == key {
      assert Plain(entries)[key] == PlainValue(entries[0].value);
    } else {
      PlainHolds(entries[1..], key);
    }
  }

  lemma SameFieldsSameRecord(a: map<string, Json>, b: map<string, Json>)
    requires forall key :: RecordField(a, key) == RecordField(b, key)
    ensures DecodeRecord(Obj(a)) == DecodeRecord(Obj(b))
  {
  }

  lemma DetailedFields(entries: seq<Entry>, key: string)
    ensures RecordField(map["map" := Arr(Detailed(entries))], key) == Field(Plain(entries), key)
  {
    var detailed := map["map" := Arr(Detailed(entries))];
    assert detailed.Keys == {"map"};
    FieldsAgree(entries, key);
  }

  /** Whichever schema a record is written with, Koios's rendering decodes to the same anchor record. */
  lemma RenderingsAgree(entries: seq<Entry>)
    ensures DecodeRecord(Obj(map["map" := Arr(Detailed(entries))])) == DecodeRecord(Obj(Plain(entries)))
  {
    var detailed, plain := map["map" := Arr(Detailed(entries))], Plain(entries);
    if plain.Keys == {"map"} && plain["map"].Arr? {
      PlainHolds(entries, "map");
      NoEntries(plain["map"].items, "p");
      DetailedFields(entries, "p");
      assert "p" !in plain.Keys;
    } else {
      forall key ensures RecordField(detailed, key) == RecordField(plain, key) { DetailedFields(entries, key); }
      SameFieldsSameRecord(detailed, plain);
    }
  }

  /** The record of one batch, as an anchor worker writes it. */
  function Written(protocol: string, version: int, chain: string, root: string, manifest: string, leaves: int,
      from: int, to: int): seq<Entry> {
    [Entry("p", One(Text(protocol))), Entry("v", One(Whole(version))), Entry("chain", One(Text(chain))),
      Entry("root", One(Text(root))), Entry("manifest", One(Text(manifest))), Entry("leaves", One(Whole(leaves))),
      Entry("blocks", Many([Whole(from), Whole(to)]))]
  }

  lemma {:induction false} PlainValueOf(entries: seq<Entry>, i: nat)
    requires i < |entries| && forall j | 0 <= j < i :: entries[j].key != entries[i].key
    ensures Field(Plain(entries), entries[i].key) == PlainValue(entries[i].value)
  {
    if i > 0 {
      assert entries[0].key != entries[i].key && entries[1..][i - 1] == entries[i];
      PlainValueOf(entries[1..], i - 1);
    }
  }

  lemma PlainValues(entries: seq<Entry>)
    requires forall i, j | 0 <= i < j < |entries| :: entries[i].key != entries[j].key
    ensures forall i | 0 <= i < |entries| :: Field(Plain(entries), entries[i].key) == PlainValue(entries[i].value)
  {
    forall i | 0 <= i < |entries| ensures Field(Plain(entries), entries[i].key) == PlainValue(entries[i].value) {
      PlainValueOf(entries, i);
    }
  }

  lemma WrittenKeysDiffer(w: seq<Entry>)
    requires |w| == 7 && w[0].key == "p" && w[1].key == "v" && w[2].key == "chain" && w[3].key == "root"
    requires w[4].key == "manifest" && w[5].key == "leaves" && w[6].key == "blocks"
    ensures forall i, j | 0 <= i < j < |w| :: w[i].key != w[j].key
  {
    assert w[0].key[0] == 'p' && w[1].key[0] == 'v' && w[2].key[0] == 'c' && w[3].key[0] == 'r';
    assert w[4].key[0] == 'm' && w[5].key[0] == 'l' && w[6].key[0] == 'b';
  }

  lemma WrittenFields(w: seq<Entry>)
    requires |w| == 7 && w[0].key == "p" && w[1].key == "v" && w[2].key == "chain" && w[3].key == "root"
    requires w[4].key == "manifest" && w[5].key == "leaves" && w[6].key == "blocks"
    ensures var f := Plain(w);
      && Field(f, "p") == PlainValue(w[0].value) && Field(f, "v") == PlainValue(w[1].value)
      && Field(f, "chain") == PlainValue(w[2].value) && Field(f, "root") == PlainValue(w[3].value)
      && Field(f, "manifest") == PlainValue(w[4].value) && Field(f, "leaves") == PlainValue(w[5].value)
      && Field(f, "blocks") == PlainValue(w[6].value) && "p" in f
  {
    WrittenKeysDiffer(w);
    PlainValues(w);
    assert !PlainValue(w[0].value).Undefined?;
  }

  /** What is written of a batch is what is decoded, of this protocol in version 2 and of no other. */
  lemma WrittenIsDecoded(protocol: string, version: int, chain: string, root: string, manifest: string, leaves: int,
      from: int, to: int)
    ensures DecodeRecord(Obj(Plain(Written(protocol, version, chain, root, manifest, leaves, from, to)))) ==
      if protocol == "materios" && version == 2 then
        Some(L1Anchor.AnchorRecord(Str(chain), Str(root), Str(manifest), Num(leaves), Arr([Num(from), Num(to)])))
      else None
  {
    WrittenFields(Written(protocol, version, chain, root, manifest, leaves, from, to));
    assert PlainValue(Many([Whole(from), Whole(to)])) == Arr([Num(from), Num(to)]);
  }

  // ------------------------------------------------------------ observations

  /** The first row of the answer about this tx. */
  function RowOf(rows: seq<Json>, txHash: string): Option<map<string, Json>> {
    if rows == [] then None
    else if rows[0].Obj? && Field(rows[0].fields, "tx_hash") == Str(txHash) then Some(rows[0].fields)
    else RowOf(rows[1..], txHash)
  }

  /** The address an input names. */
  function Address(input: Json): Option<string> {
    if !input.Obj? || !Field(input.fields, "payment_addr").Obj? then None
    else
      var bech32 := Field(Field(input.fields, "payment_addr").fields, "bech32");
      if bech32.Str? then Some(bech32.s) else None
  }

  function Addresses(inputs: seq<Json>): (r: Option<seq<string>>)
    ensures r.Some? <==> forall i | 0 <= i < |inputs| :: Address(inputs[i]).Some?
    ensures r.Some? ==> |r.value| == |inputs| && forall i | 0 <= i < |inputs| :: Address(inputs[i]) == Some(r.value[i])
  {
    if inputs == [] then Some([])
    else
      var first, rest := Address(inputs[0]), Addresses(inputs[1..]);
      if first.Some? && rest.Some? then Some([first.value] + rest.value)
      else
        assert rest.None? ==> exists i :: 0 <= i < |inputs| - 1 && Address(inputs[1..][i]).None?;
        None
  }

  /** The tip's height and time. */
  function Tip(tip: Json): Option<(int, int)> {
    if !tip.Arr? || tip.items == [] || !tip.items[0].Obj? then None
    else
      var row := tip.items[0].fields;
      if Field(row, "block_height").Num? && Field(row, "block_time").Num?
      then Some((Field(row, "block_height").n, Field(row, "block_time").n)) else None
  }

  predicate MetadataOk(row: map<string, Json>) {
    && "metadata" in row
    && (row["metadata"].Null? || row["metadata"].Obj?)
    && (row["metadata"].Obj? && "8746" in row["metadata"].fields ==> row["metadata"].fields["8746"].Obj?)
  }

  function Record(row: map<string, Json>): Option<L1Anchor.AnchorRecord> {
    var metadata := Field(row, "metadata");
    if metadata.Obj? then DecodeRecord(Field(metadata.fields, "8746")) else None
  }

  /** The answer as an observation; an answer that lacks what Koios always sends throws. */
  function ParseObservation(txHash: string, txInfo: Json, tip: Json): Result<L1Anchor.Observation, ()> {
    if !txInfo.Arr? || Tip(tip).None? then Err(())
    else
      var row := RowOf(txInfo.items, txHash);
      var (tipHeight, tipTime) := Tip(tip).value;
      if row.None? || Field(row.value, "block_height").Null? || Field(row.value, "block_height").Undefined? then
        Ok(L1Anchor.Observation(None, None, tipTime, None, []))
      else
        var height := Field(row.value, "block_height");
        if !IsSafeInt(height) || !Field(row.value, "inputs").Arr? || !MetadataOk(row.value) then Err(())
        else
          var inputs := Addresses(Field(row.value, "inputs").items);
          if inputs.None? then Err(())
          else
            var depth := tipHeight - height.n + 1;
            Ok(L1Anchor.Observation(Some(height.n), Some(if depth < 1 then 1 else depth), tipTime, Record(row.value),
              inputs.value))
  }

  function InputJson(address: string): Json {
    Obj(map["payment_addr" := Obj(map["bech32" := Str(address)])])
  }

  function Inputs(addresses: seq<string>): (items: seq<Json>)
    ensures |items| == |addresses| && forall i | 0 <= i < |items| :: items[i] == InputJson(addresses[i])
  {
    seq(|addresses|, i requires 0 <= i < |addresses| => InputJson(addresses[i]))
  }

  function TipJson(height: int, time: int): Json {
    Arr([Obj(map["block_height" := Num(height), "block_time" := Num(time)])])
  }

  /** A row about a tx in a block, its inputs and the record it carries. */
  function RowJson(txHash: string, height: int, addresses: seq<string>, record: map<string, Json>): Json {
    Obj(map["tx_hash" := Str(txHash), "block_height" := Num(height), "inputs" := Arr(Inputs(addresses)),
            "metadata" := Obj(map["8746" := Obj(record)])])
  }

  predicate About(row: Json, txHash: string) { row.Obj? && Field(row.fields, "tx_hash") == Str(txHash) }

  lemma {:induction false} FirstRowAbout(before: seq<Json>, row: Json, after: seq<Json>, txHash: string)
    requires About(row, txHash) && forall i | 0 <= i < |before| :: !About(before[i], txHash)
    ensures RowOf(before + [row] + after, txHash) == Some(row.fields)
  {
    var rows := before + [row] + after;
    if before != [] {
      FirstRowAbout(before[1..], row, after, txHash);
      assert rows[1..] == before[1..] + [row] + after && !About(rows[0], txHash);
    }
  }

  lemma {:induction false} NoRowAbout(rows: seq<Json>, txHash: string)
    requires forall i | 0 <= i < |rows| :: !About(rows[i], txHash)
    ensures RowOf(rows, txHash).None?
  {
    if rows != [] {
      assert !About(rows[0], txHash);
      NoRowAbout(rows[1..], txHash);
    }
  }

  lemma AddressesAreRead(addresses: seq<string>)
    ensures Addresses(Inputs(addresses)) == Some(addresses)
  {
    forall i | 0 <= i < |addresses| ensures Address(Inputs(addresses)[i]) == Some(addresses[i]) {
      var input := InputJson(addresses[i]);
      assert Field(input.fields, "payment_addr").fields == map["bech32" := Str(addresses[i])];
    }
    var inputs := Inputs(addresses);
    var read := Addresses(inputs).value;
    forall i | 0 <= i < |read| ensures read[i] == addresses[i] {
      assert Address(inputs[i]) == Some(read[i]);
    }
    assert read == addresses;
  }

  lemma RowIsRead(txHash: string, height: int, addresses: seq<string>, record: map<string, Json>)
    ensures var f := RowJson(txHash, height, addresses, record).fields;
      && f["block_height"] == Num(height) && f["inputs"] == Arr(Inputs(addresses)) && MetadataOk(f)
      && Record(f) == DecodeRecord(Obj(record))
    ensures About(RowJson(txHash, height, addresses, record), txHash)
  {
    var f := RowJson(txHash, height, addresses, record).fields;
    assert f["metadata"] == Obj(map["8746" := Obj(record)]);
  }

  lemma TipIsRead(height: int, time: int)
    ensures Tip(TipJson(height, time)) == Some((height, time))
  {
  }

  /** The first row about a tx is what is observed: its depth counts from one, and is never less. */
  lemma RowIsObserved(txHash: string, before: seq<Json>, after: seq<Json>, height: int, addresses: seq<string>,
      record: map<string, Json>, tipHeight: int, tipTime: int)
    requires -MAX_SAFE <= height <= MAX_SAFE && forall i | 0 <= i < |before| :: !About(before[i], txHash)
    ensures var rows := before + [RowJson(txHash, height, addresses, record)] + after;
      ParseObservation(txHash, Arr(rows), TipJson(tipHeight, tipTime)) ==
        Ok(L1Anchor.Observation(Some(height), Some(if height <= tipHeight then tipHeight - height + 1 else 1), tipTime,
          DecodeRecord(Obj(record)), addresses))
  {
    var row := RowJson(txHash, height, addresses, record);
    RowIsRead(txHash, height, addresses, record);
    FirstRowAbout(before, row, after, txHash);
    AddressesAreRead(addresses);
    TipIsRead(tipHeight, tipTime);
  }

  /** A tx no row is about is in no block yet. */
  lemma MissingIsPending(txHash: string, rows: seq<Json>, tipHeight: int, tipTime: int)
    requires forall i | 0 <= i < |rows| :: !About(rows[i], txHash)
    ensures ParseObservation(txHash, Arr(rows), TipJson(tipHeight, tipTime)) ==
      Ok(L1Anchor.Observation(None, None, tipTime, None, []))
  {
    NoRowAbout(rows, txHash);
    TipIsRead(tipHeight, tipTime);
  }

  lemma {:induction false} RowIsInTheAnswer(rows: seq<Json>, txHash: string)
    requires RowOf(rows, txHash).Some?
    ensures Obj(RowOf(rows, txHash).value) in rows
    ensures Field(RowOf(rows, txHash).value, "tx_hash") == Str(txHash)
  {
    if !(rows[0].Obj? && Field(rows[0].fields, "tx_hash") == Str(txHash)) {
      RowIsInTheAnswer(rows[1..], txHash);
    }
  }

  /** A row of the answer carries the tx in a block, spends only wallet inputs and records the claim's batch. */
  ghost predicate Proves(h: (string, string) -> string, c: L1Anchor.Claim, row: map<string, Json>,
      wallets: seq<string>) {
    && Field(row, "tx_hash") == Str(c.txHash)
    && IsSafeInt(Field(row, "block_height"))
    && Field(row, "inputs").Arr? && Field(row, "inputs").items != []
    && (forall i | 0 <= i < |Field(row, "inputs").items| ::
          Address(Field(row, "inputs").items[i]).Some? && Address(Field(row, "inputs").items[i]).value in wallets)
    && Record(row).Some? && L1Anchor.Established(h, c, Record(row).value)
  }

  /** A claim that verifies against Koios's raw answer is proved by a row of that answer about its tx. */
  lemma VerifiedAgainstAnswer(h: (string, string) -> string, c: L1Anchor.Claim, txInfo: Json, tip: Json,
                              wallets: seq<string>, parseDate: string -> Option<int>, now: int)
    requires c.txHash !in L1Anchor.ROOT_ONLY_TXS
    requires ParseObservation(c.txHash, txInfo, tip).Ok?
    requires var lookup := L1Anchor.Found(ParseObservation(c.txHash, txInfo, tip).value);
      L1Anchor.Verify(h, c, lookup, wallets, parseDate, now).status.Verified?
    ensures txInfo.Arr? && exists row :: Obj(row) in txInfo.items && Proves(h, c, row, wallets)
  {
    var obs := ParseObservation(c.txHash, txInfo, tip).value;
    L1Anchor.VerifiedExactly(h, c, L1Anchor.Found(obs), wallets, parseDate, now);
    var row := RowOf(txInfo.items, c.txHash).value;
    RowIsInTheAnswer(txInfo.items, c.txHash);
    assert Addresses(Field(row, "inputs").items) == Some(obs.inputs);
    assert Proves(h, c, row, wallets);
  }
}
