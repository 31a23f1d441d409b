/**
 * src/storage.ts: the batch store. Several gateway processes merge JSON files under one
 * database write lock; a save renames its file and then commits its index rows, so a crash
 * may fall between the two. At startup a process lists the directory and then indexes what
 * it listed.
 */
module BatchStore {
  import opened Common
  import opened Hex
  import opened Json
  import opened BatchRecord

  /** A file: a record and its size in bytes, JSON that is no object, or what cannot be read. */
  datatype Content = Record(fields: Fields, bytes: nat) | NotRecord | Unreadable

  datatype IndexRow = IndexRow(leaf: string, id: string)

  /**
   * Files are named by their stem, 64 hex digits; `mapped` is the table of old files whose
   * names are not lower case.
   */
  datatype Store = Store(
    files: map<string, Content>, mapped: map<string, string>, index: set<IndexRow>,
      claims: map<(string, ClaimKey), Option<string>>)

  datatype Reading = Loaded(fields: Fields) | Absent | Failed

  function Canonical(id: string): string { Lower(Strip0x(id)) }

  function FileOf(files: map<string, Content>, mapped: map<string, string>, id: string): string {
    if Canonical(id) in files then Canonical(id) else if Canonical(id) in mapped then mapped[Canonical(id)]
    else Strip0x(id)
  }

  /** `legacyBatch`. */
  function Read(files: map<string, Content>, mapped: map<string, string>, id: string): Reading {
    var f := FileOf(files, mapped, id);
    if f !in files then Absent
    else
      match files[f]
      case Record(fields, bytes) => if bytes > BATCH_BYTE_BUDGET then Failed else Loaded(fields)
      case NotRecord => Absent
      case Unreadable => Failed
  }

  // ------------------------------------------------------------ index rows

  /** The leaf an entry of a leaf list names, if it is a hash. */
  function LeafNamed(v: Json): Option<string> {
    if v.Str? && IsHex64(Canonical(v.s)) then Some(Canonical(v.s)) else None
  }

  function LeavesNamed(items: seq<Json>): set<string> {
    if items == [] then {}
    else
      var last := LeafNamed(items[|items| - 1]);
      LeavesNamed(items[..|items| - 1]) + (if last.Some? then {last.value} else {})
  }

  /** The leaves a record lists. */
  function LeafSet(r: Fields): set<string> {
    if Field(r, "leafHashes").Arr? then LeavesNamed(Field(r, "leafHashes").items) else {}
  }

  function Rows(leaves: set<string>, id: string): set<IndexRow> { set l | l in leaves :: IndexRow(l, id) }

  // ------------------------------------------------------------ saves

  datatype Crash = Completes | BeforeRename | AfterRename

  /** The record a save would write, or why it is refused. */
  ghost function Merged(o: Oracles, s: Store, anchorId: string, metadata: Json): Result<Fields, Refusal> {
    if !IsHex64(Strip0x(anchorId)) || !metadata.Obj? then Err(Malformed)
    else
      var previous := Read(s.files, s.mapped, anchorId);
      if previous.Failed? then Err(OverCapacity)
      else
        var merged := Merge(o, if previous.Loaded? then previous.fields else map[], metadata.fields);
        if merged.Ok? && !Valid(o, Canonical(anchorId), merged.value) then Err(Malformed) else merged
  }

  function Renamed(o: Oracles, s: Store, key: string, merged: Fields): Store {
    s.(files := s.files[key := Record(merged, o.size(merged))])
  }

  function Indexed(s: Store, key: string, file: string, r: Fields): Store {
    s.(mapped := s.mapped[key := file], index := s.index + Rows(LeafSet(r), key))
  }

  function Written(o: Oracles, s: Store, key: string, merged: Fields, crash: Crash): Store {
    match crash
    case BeforeRename => s
    case AfterRename => Renamed(o, s, key, merged)
    case Completes => Indexed(Renamed(o, s, key, merged), key, key, merged)
  }

  ghost function Saved(o: Oracles, s: Store, anchorId: string, metadata: Json, crash: Crash): Store {
    var merged := Merged(o, s, anchorId, metadata);
    if merged.Err? then s else Written(o, s, Canonical(anchorId), merged.value, crash)
  }

  ghost function ClaimSaved(o: Oracles, s: Store, anchorId: string, value: Json): Store {
    var key, claim := Canonical(anchorId), ParseClaim(o, value);
    if !IsHex64(Strip0x(anchorId)) || claim.Err? || !Claimable(o, s, key) then s else WithClaim(s, key, claim.value)
  }

  /** A valid record is read under the id. */
  ghost predicate Claimable(o: Oracles, s: Store, key: string) {
    var record := Read(s.files, s.mapped, key);
    record.Loaded? && Valid(o, key, record.fields)
  }

  /** A claim already in the table stays as it is. */
  function WithClaim(s: Store, key: string, c: CardanoClaim): Store {
    if (key, c.key) in s.claims then s else s.(claims := s.claims[(key, c.key) := c.submittedAt])
  }

  // ------------------------------------------------------------ backfill

  function BackfilledOne(s: Store, listing: seq<string>, stem: string): Store {
    var key, record := Lower(stem), Read(s.files, map[], stem);
    if !IsHex64(stem) || (stem != key && key in listing) || !record.Loaded? then s
    else Indexed(s, key, stem, record.fields)
  }

  /** The store after the first `n` names of a listing were indexed. */
  function Backfilled(s: Store, listing: seq<string>, n: nat): Store
    requires n <= |listing|
  {
    if n == 0 then s else BackfilledOne(Backfilled(s, listing, n - 1), listing, listing[n - 1])
  }

  // ------------------------------------------------------------ the class

  /** One gateway's view of the shared directory and database. */
  class Storage {
    var files: map<string, Content>
    var mapped: map<string, string>
    var index: set<IndexRow>
    var claims: map<(string, ClaimKey), Option<string>>

    constructor ()
      ensures State() == Store(map[], map[], {}, map[])
    {
      files, mapped, index, claims := map[], map[], {}, map[];
    }

    ghost function State(): Store
      reads this
    {
      Store(files, mapped, index, claims)
    }

    method IndexBatchLeaves(id: string, fields: Fields)
      modifies this`index
      ensures index == old(index) + Rows(LeafSet(fields), id)
    {
      if !Field(fields, "leafHashes").Arr? {
        return;
      }
      var items := Field(fields, "leafHashes").items;
      var i := 0;
      while i < |items|
        invariant 0 <= i <= |items|
        invariant index == old(index) + Rows(LeavesNamed(items[..i]), id)
      {
        assert items[..i + 1][..i] == items[..i];
        var clean := LeafNamed(items[i]);
        if clean.Some? {
          index := index + {IndexRow(clean.value, id)};
        }
        i := i + 1;
      }
      assert items[..i] == items;
    }

    /** Reads the record on disk, merges the new one into it and validates the result. */
    method Prepare(o: Oracles, anchorId: string, metadata: Json) returns (r: Result<Fields, Refusal>)
      ensures r == Merged(o, State(), anchorId, metadata)
    {
      if !IsHex64(Strip0x(anchorId)) || !metadata.Obj? {
        return Err(Malformed);
      }
      var previous := Read(files, mapped, anchorId);
      if previous.Failed? {
        return Err(OverCapacity);
      }
      r := MergeBatch(o, if previous.Loaded? then Some(previous.fields) else None, metadata.fields);
      if r.Ok? {
        var valid := ValidateBatch(o, Canonical(anchorId), r.value);
        if !valid {
          return Err(Malformed);
        }
      }
    }

    /**
     * Renames the new file into place and then commits its index rows; `crash` says where the
     * process dies, if it does.
     */
    method WriteBatch(o: Oracles, key: string, merged: Fields, crash: Crash)
      modifies this
      ensures State() == Written(o, old(State()), key, merged, crash)
    {
      if crash.BeforeRename? {
        return;
      }
      files := files[key := Record(merged, o.size(merged))];
      if crash.AfterRename? {
        return;
      }
      mapped := mapped[key := key];
      IndexBatchLeaves(key, merged);
    }

    method SaveBatch(o: Oracles, anchorId: string, metadata: Json, crash: Crash) returns (r: Result<Fields, Refusal>)
      modifies this
      ensures r == Merged(o, old(State()), anchorId, metadata)
      ensures State() == Saved(o, old(State()), anchorId, metadata, crash)
    {
      r := Prepare(o, anchorId, metadata);
      if r.Ok? {
        WriteBatch(o, Canonical(anchorId), r.value, crash);
      }
    }

    method IndexExistingBatches(listing: seq<string>)
      modifies this
      ensures State() == Backfilled(old(State()), listing, |listing|)
    {
      var i := 0;
      while i < |listing|
        invariant 0 <= i <= |listing|
        invariant State() == Backfilled(old(State()), listing, i)
      {
        var stem := listing[i];
        var key := Lower(stem);
        var record := Read(files, map[], stem);
        if IsHex64(stem) && (stem == key || key !in listing) && record.Loaded? {
          mapped := mapped[key := stem];
          IndexBatchLeaves(key, record.fields);
        }
        i := i + 1;
      }
    }

    method SaveCardanoClaim(o: Oracles, anchorId: string, value: Json) returns (ok: bool)
      modifies this`claims
      ensures State() == ClaimSaved(o, old(State()), anchorId, value)
      ensures ok <==>
        && IsHex64(Strip0x(anchorId)) && ParseClaim(o, value).Ok?
        && Claimable(o, old(State()), Canonical(anchorId))
    {
      if !IsHex64(Strip0x(anchorId)) {
        return false;
      }
      var key := Canonical(anchorId);
      var claim := ParseClaim(o, value);
      if claim.Err? {
        return false;
      }
      var record := Read(files, mapped, key);
      if !record.Loaded? {
        return false;
      }
      ok := ValidateBatch(o, key, record.fields);
      assert ok <==> Claimable(o, State(), key);
      if ok && (key, claim.value.key) !in claims {
        claims := claims[(key, claim.value.key) := claim.value.submittedAt];
      }
    }
  }
}
