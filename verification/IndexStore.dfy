/**
 The index store: tombstoning, renaming, prefix removal and bulk replacement over the flat
 pools, and the plain list of records that these operations refine.
 */
module IndexStores {
  import opened Text
  import opened IndexPools
  import opened Crc32
  import IndexSerializers

  // ---------------------------------------------------------------- operations on the pool

  predicate PathIs(loc: Locale, p: Pool, i: nat, key: WString)
    requires i < |p.meta|
  {
    !p.meta[i].deleted && loc.Fold(View(p.pathPool, p.meta[i].pathOffset, p.meta[i].pathLen)) == key
  }

  /** The first live entry from `i` on whose folded path is `key`. */
  function FirstMatch(loc: Locale, p: Pool, key: WString, i: nat): (r: Option<nat>)
    requires i <= |p.meta|
    ensures r.Some? ==> i <= r.value < |p.meta| && PathIs(loc, p, r.value, key)
    ensures forall k :: i <= k < |p.meta| && (r.Some? ==> k < r.value) ==> !PathIs(loc, p, k, key)
    decreases |p.meta| - i
  {
    if i == |p.meta| then None
    else if PathIs(loc, p, i, key) then Some(i)
    else FirstMatch(loc, p, key, i + 1)
  }

  function Removed(loc: Locale, p: Pool, path: WString): Pool {
    match FirstMatch(loc, p, loc.Fold(path), 0)
    case Some(i) => Tombstoned(p, i)
    case None => p
  }

  /** The file entry a rename re-adds: new path, old metadata. */
  function RenamedEntry(loc: Locale, m: EntryMeta, newPath: WString): FileEntry {
    var name := newPath[NameStart(newPath)..];
    FileEntry(name, loc.Fold(name), newPath, m.size, m.lastModified, m.attributes)
  }

  function Renamed(loc: Locale, p: Pool, oldPath: WString, newPath: WString): Pool {
    match FirstMatch(loc, p, loc.Fold(oldPath), 0)
    case Some(i) => Added(loc, Tombstoned(p, i), RenamedEntry(loc, p.meta[i], newPath))
    case None => p
  }

  /** The folded prefix, closed with a backslash unless it is empty. */
  function DirectoryPrefix(loc: Locale, prefix: WString): WString {
    var lp := loc.Fold(prefix);
    if lp != [] && lp[|lp| - 1] != BACKSLASH then lp + [BACKSLASH] else lp
  }

  predicate PathUnder(loc: Locale, path: WString, lp: WString) {
    lp <= loc.Fold(path)
  }

  function Cleared(loc: Locale, text: WString, lp: WString, m: EntryMeta): EntryMeta {
    if !m.deleted && PathUnder(loc, View(text, m.pathOffset, m.pathLen), lp) then m.(deleted := true) else m
  }

  function ClearedAll(loc: Locale, text: WString, lp: WString, meta: seq<EntryMeta>): (r: seq<EntryMeta>)
    ensures |r| == |meta|
    ensures forall i :: 0 <= i < |meta| ==> r[i] == Cleared(loc, text, lp, meta[i])
  {
    seq(|meta|, i requires 0 <= i < |meta| => Cleared(loc, text, lp, meta[i]))
  }

  function RemovedUnder(loc: Locale, p: Pool, prefix: WString): Pool {
    p.(meta := ClearedAll(loc, p.pathPool, DirectoryPrefix(loc, prefix), p.meta))
  }

  lemma ClearedMeans(loc: Locale, text: WString, lp: WString, m: EntryMeta)
    ensures Cleared(loc, text, lp, m)
         == if !m.deleted && lp <= loc.Fold(View(text, m.pathOffset, m.pathLen)) then m.(deleted := true) else m
  {
  }

  lemma AllCleared(loc: Locale, p: Pool, prefix: WString, meta: seq<EntryMeta>)
    requires |meta| == |p.meta|
    requires var lp := DirectoryPrefix(loc, prefix);
             forall i :: 0 <= i < |meta| ==> meta[i] == Cleared(loc, p.pathPool, lp, p.meta[i])
    ensures meta == RemovedUnder(loc, p, prefix).meta
  {
    hide Cleared, DirectoryPrefix;
  }

  predicate AllAddable(entries: seq<FileEntry>) {
    forall i :: 0 <= i < |entries| ==> Addable(entries[i])
  }

  predicate AllStorable(entries: seq<FileEntry>)
    ensures AllStorable(entries) ==> AllAddable(entries)
  {
    forall i :: 0 <= i < |entries| ==> Storable(entries[i])
  }

  ghost predicate AllCanonical(loc: Locale, entries: seq<FileEntry>)
    ensures AllCanonical(loc, entries) ==> AllStorable(entries)
  {
    forall i :: 0 <= i < |entries| ==> Canonical(loc, entries[i])
  }

  /** A fresh pool holding the entries in order: what EndWrite swaps in. */
  function FromEntries(loc: Locale, entries: seq<FileEntry>): Pool
    requires AllAddable(entries)
  {
    if entries == [] then EMPTY
    else Added(loc, FromEntries(loc, entries[..|entries| - 1]), entries[|entries| - 1])
  }

  // ---------------------------------------------------------------- the plain list

  /** The first record from `k` on whose folded path is `key`. */
  function FirstRecord(loc: Locale, rs: seq<Record>, key: WString, k: nat): (r: Option<nat>)
    requires k <= |rs|
    ensures r.Some? ==> k <= r.value < |rs| && loc.Fold(rs[r.value].path) == key
    ensures forall j :: k <= j < |rs| && (r.Some? ==> j < r.value) ==> loc.Fold(rs[j].path) != key
    decreases |rs| - k
  {
    if k == |rs| then None
    else if loc.Fold(rs[k].path) == key then Some(k)
    else FirstRecord(loc, rs, key, k + 1)
  }

  function ListRemove(loc: Locale, rs: seq<Record>, path: WString): seq<Record> {
    match FirstRecord(loc, rs, loc.Fold(path), 0)
    case Some(k) => Without(rs, k)
    case None => rs
  }

  function ListRename(loc: Locale, rs: seq<Record>, oldPath: WString, newPath: WString): seq<Record> {
    match FirstRecord(loc, rs, loc.Fold(oldPath), 0)
    case Some(k) => Without(rs, k) + [rs[k].(path := newPath, nameStart := NameStart(newPath))]
    case None => rs
  }

  function ListRemoveUnder(loc: Locale, rs: seq<Record>, lp: WString): seq<Record> {
    if rs == [] then []
    else
      ListRemoveUnder(loc, rs[..|rs| - 1], lp)
      + (if PathUnder(loc, rs[|rs| - 1].path, lp) then [] else [rs[|rs| - 1]])
  }

  function RecordsFor(entries: seq<FileEntry>): (r: seq<Record>)
    ensures |r| == |entries|
    ensures forall i :: 0 <= i < |entries| ==> r[i] == RecordFor(entries[i])
  {
    if entries == [] then [] else [RecordFor(entries[0])] + RecordsFor(entries[1..])
  }

  lemma {:induction false} RecordsForLast(entries: seq<FileEntry>)
    requires entries != []
    ensures RecordsFor(entries)
         == RecordsFor(entries[..|entries| - 1]) + [RecordFor(entries[|entries| - 1])]
  {
    var front, last := entries[..|entries| - 1], [entries[|entries| - 1]];
    assert entries == front + last;
  }

  // ---------------------------------------------------------------- refinement, one operation at a time

  /** Where record k of the live list comes from. */
  lemma {:induction false} SourceOf(meta: seq<EntryMeta>, text: WString, k: nat) returns (j: nat)
    requires k < |LiveRecords(meta, text)|
    ensures j < |meta| && !meta[j].deleted && LiveBefore(meta, j) == k
    ensures LiveRecords(meta, text)[k] == RecordOf(text, meta[j])
    decreases |meta|
  {
    var front := meta[..|meta| - 1];
    if k < |LiveRecords(front, text)| {
      j := SourceOf(front, text, k);
      LiveBeforePrefix(meta, front, j);
    } else {
      j := |meta| - 1;
      LiveCount(front, text);
      LiveBeforePrefix(meta, front, j);
    }
  }

  lemma {:induction false} LiveBeforeMonotone(meta: seq<EntryMeta>, i: nat, j: nat)
    requires i <= j <= |meta|
    ensures LiveBefore(meta, i) <= LiveBefore(meta, j)
    ensures i < j && !meta[i].deleted ==> LiveBefore(meta, i) < LiveBefore(meta, j)
    decreases j - i
  {
    if i < j {
      LiveBeforeMonotone(meta, i, j - 1);
    }
  }

  /** The first match in the pool is the first match in the list. */
  lemma FirstMatchIsFirstRecord(loc: Locale, p: Pool, key: WString)
    ensures match FirstMatch(loc, p, key, 0)
            case Some(i) =>
              && !p.meta[i].deleted && LiveBefore(p.meta, i) < |Live(p)|
              && FirstRecord(loc, Live(p), key, 0) == Some(LiveBefore(p.meta, i))
              && Live(p)[LiveBefore(p.meta, i)] == RecordOf(p.pathPool, p.meta[i])
            case None => FirstRecord(loc, Live(p), key, 0) == None
  {
    var r := FirstRecord(loc, Live(p), key, 0);
    match FirstMatch(loc, p, key, 0)
    case Some(i) =>
      LiveAt(p.meta, p.pathPool, i);
      if r.value < LiveBefore(p.meta, i) {
        var j := SourceOf(p.meta, p.pathPool, r.value);
        if i <= j {
          LiveBeforeMonotone(p.meta, i, j);
        }
        assert PathIs(loc, p, j, key);
      }
    case None =>
      if r.Some? {
        var j := SourceOf(p.meta, p.pathPool, r.value);
        assert PathIs(loc, p, j, key);
      }
  }

  lemma RemovedRefines(loc: Locale, p: Pool, path: WString)
    requires WellFormed(loc, p)
    ensures WellFormed(loc, Removed(loc, p, path))
    ensures Live(Removed(loc, p, path)) == ListRemove(loc, Live(p), path)
  {
    var key := loc.Fold(path);
    FirstMatchIsFirstRecord(loc, p, key);
    match FirstMatch(loc, p, key, 0)
    case Some(i) =>
      TombstonedWellFormed(loc, p, i);
      TombstoneRemovesOne(p.meta, p.pathPool, i);
    case None =>
  }

  lemma RenamedRefines(loc: Locale, p: Pool, oldPath: WString, newPath: WString)
    requires WellFormed(loc, p) && HasRoom(p) && |newPath| < U16_LIMIT
    ensures WellFormed(loc, Renamed(loc, p, oldPath, newPath))
    ensures Live(Renamed(loc, p, oldPath, newPath)) == ListRename(loc, Live(p), oldPath, newPath)
  {
    var key := loc.Fold(oldPath);
    FirstMatchIsFirstRecord(loc, p, key);
    match FirstMatch(loc, p, key, 0)
    case Some(i) =>
      TombstonedWellFormed(loc, p, i);
      TombstoneRemovesOne(p.meta, p.pathPool, i);
      AddedAppends(loc, Tombstoned(p, i), RenamedEntry(loc, p.meta[i], newPath));
    case None =>
  }

  lemma {:induction false} ClearedRecords(loc: Locale, meta: seq<EntryMeta>, text: WString, lp: WString)
    ensures LiveRecords(ClearedAll(loc, text, lp, meta), text)
         == ListRemoveUnder(loc, LiveRecords(meta, text), lp)
  {
    if meta != [] {
      var n := |meta| - 1;
      ClearedRecords(loc, meta[..n], text, lp);
      assert ClearedAll(loc, text, lp, meta)[..n] == ClearedAll(loc, text, lp, meta[..n]);
      var rs := LiveRecords(meta[..n], text);
      if !meta[n].deleted {
        assert (rs + [RecordOf(text, meta[n])])[..|rs|] == rs;
      } else {
        assert rs + [] == rs;
      }
    }
  }

  lemma RemovedUnderRefines(loc: Locale, p: Pool, prefix: WString)
    requires WellFormed(loc, p)
    ensures WellFormed(loc, RemovedUnder(loc, p, prefix))
    ensures Live(RemovedUnder(loc, p, prefix)) == ListRemoveUnder(loc, Live(p), DirectoryPrefix(loc, prefix))
  {
    ClearedRecords(loc, p.meta, p.pathPool, DirectoryPrefix(loc, prefix));
    DeletionKeepsWellFormed(loc, p, RemovedUnder(loc, p, prefix));
  }

  /** Prefix removal leaves nothing under the prefix and touches nothing else. */
  lemma {:induction false} ListRemoveUnderIsFilter(loc: Locale, rs: seq<Record>, lp: WString)
    ensures forall r :: r in ListRemoveUnder(loc, rs, lp) <==> r in rs && !PathUnder(loc, r.path, lp)
  {
    if rs != [] {
      var front, r := rs[..|rs| - 1], rs[|rs| - 1];
      ListRemoveUnderIsFilter(loc, front, lp);
      assert rs == front + [r];
    }
  }

  lemma {:induction false} FromEntriesRefines(loc: Locale, entries: seq<FileEntry>)
    requires AllCanonical(loc, entries)
    requires HasRoom(FromEntries(loc, entries))
    ensures WellFormed(loc, FromEntries(loc, entries))
    ensures Live(FromEntries(loc, entries)) == RecordsFor(entries)
  {
    if entries != [] {
      var front, e := entries[..|entries| - 1], entries[|entries| - 1];
      var p := FromEntries(loc, front);
      assert AllCanonical(loc, front) && Canonical(loc, e);
      assert HasRoom(p);
      assert WellFormed(loc, p) && Live(p) == RecordsFor(front) by { FromEntriesRefines(loc, front); }
      AddedAppends(loc, p, e);
      assert RecordsFor(entries) == RecordsFor(front) + [RecordFor(e)] by { RecordsForLast(entries); }
    }
  }

  // ---------------------------------------------------------------- refinement of whole runs

  /** The store between calls: the shared pool, and the staging buffer of a bulk write. */
  datatype State = State(pool: Pool, staging: seq<FileEntry>)

  datatype ListState = ListState(live: seq<Record>, staging: seq<FileEntry>)

  datatype StoreOp =
    | BeginWrite
    | StageEntry(e: FileEntry)
    | EndWrite
    | ApplyAdd(e: FileEntry)
    | ApplyRemove(path: WString)
    | ApplyRename(oldPath: WString, newPath: WString)
    | RemoveEntriesUnderPath(prefix: WString)

  /** The entries agree with their paths, and no length is lost in 16 bits. */
  ghost predicate OpOk(loc: Locale, op: StoreOp) {
    match op
    case StageEntry(e) => Canonical(loc, e)
    case ApplyAdd(e) => Canonical(loc, e)
    case ApplyRename(_, newPath) => |newPath| < U16_LIMIT
    case _ => true
  }

  function Apply(loc: Locale, s: State, op: StoreOp): State
    requires op.EndWrite? ==> AllAddable(s.staging)
    requires op.ApplyAdd? ==> Addable(op.e)
  {
    match op
    case BeginWrite => s.(staging := [])
    case StageEntry(e) => s.(staging := s.staging + [e])
    case EndWrite => State(FromEntries(loc, s.staging), [])
    case ApplyAdd(e) => s.(pool := Added(loc, s.pool, e))
    case ApplyRemove(path) => s.(pool := Removed(loc, s.pool, path))
    case ApplyRename(oldPath, newPath) => s.(pool := Renamed(loc, s.pool, oldPath, newPath))
    case RemoveEntriesUnderPath(prefix) => s.(pool := RemovedUnder(loc, s.pool, prefix))
  }

  function ApplyToList(loc: Locale, s: ListState, op: StoreOp): ListState {
    match op
    case BeginWrite => s.(staging := [])
    case StageEntry(e) => s.(staging := s.staging + [e])
    case EndWrite => ListState(RecordsFor(s.staging), [])
    case ApplyAdd(e) => s.(live := s.live + [RecordFor(e)])
    case ApplyRemove(path) => s.(live := ListRemove(loc, s.live, path))
    case ApplyRename(oldPath, newPath) => s.(live := ListRename(loc, s.live, oldPath, newPath))
    case RemoveEntriesUnderPath(prefix) =>
      s.(live := ListRemoveUnder(loc, s.live, DirectoryPrefix(loc, prefix)))
  }

  ghost predicate StateOk(loc: Locale, s: State) {
    WellFormed(loc, s.pool) && AllCanonical(loc, s.staging)
  }

  function Abstract(s: State): ListState {
    ListState(Live(s.pool), s.staging)
  }

  /** One operation on the pools is that operation on the list. */
  lemma OperationRefines(loc: Locale, s: State, op: StoreOp)
    requires StateOk(loc, s) && OpOk(loc, op)
    requires HasRoom(s.pool) && HasRoom(Apply(loc, s, op).pool)
    ensures StateOk(loc, Apply(loc, s, op))
    ensures Abstract(Apply(loc, s, op)) == ApplyToList(loc, Abstract(s), op)
  {
    match op
    case BeginWrite =>
    case StageEntry(e) =>
    case EndWrite => FromEntriesRefines(loc, s.staging);
    case ApplyAdd(e) => AddedAppends(loc, s.pool, e);
    case ApplyRemove(path) => RemovedRefines(loc, s.pool, path);
    case ApplyRename(oldPath, newPath) => RenamedRefines(loc, s.pool, oldPath, newPath);
    case RemoveEntriesUnderPath(prefix) => RemovedUnderRefines(loc, s.pool, prefix);
  }

  /** The operations take the store from one state to another, with room for the text throughout. */
  ghost predicate Leads(loc: Locale, s: State, ops: seq<StoreOp>, t: State)
    decreases |ops|
  {
    if ops == [] then s == t
    else
      && OpOk(loc, ops[0]) && (ops[0].EndWrite? ==> AllAddable(s.staging))
      && HasRoom(Apply(loc, s, ops[0]).pool)
      && Leads(loc, Apply(loc, s, ops[0]), ops[1..], t)
  }

  function RunList(loc: Locale, s: ListState, ops: seq<StoreOp>): ListState
    decreases |ops|
  {
    if ops == [] then s else RunList(loc, ApplyToList(loc, s, ops[0]), ops[1..])
  }

  /** Every sequence of store operations refines the same sequence on a plain list. */
  lemma {:induction false} StoreRefinesList(loc: Locale, s: State, ops: seq<StoreOp>, t: State)
    requires StateOk(loc, s) && HasRoom(s.pool) && Leads(loc, s, ops, t)
    ensures StateOk(loc, t) && HasRoom(t.pool)
    ensures Abstract(t) == RunList(loc, Abstract(s), ops)
    decreases |ops|
  {
    if ops != [] {
      OperationRefines(loc, s, ops[0]);
      StoreRefinesList(loc, Apply(loc, s, ops[0]), ops[1..], t);
    }
  }

  /** A bulk write, from any state: the index becomes exactly the staged entries. */
  lemma BulkWriteReplaces(loc: Locale, s: ListState, entries: seq<FileEntry>)
    ensures RunList(loc, s, [BeginWrite] + Staged(entries) + [EndWrite]) == ListState(RecordsFor(entries), [])
  {
    var ops := [BeginWrite] + Staged(entries) + [EndWrite];
    assert ops[1..] == Staged(entries) + [EndWrite];
    StagingAppends(loc, s.(staging := []), entries, [EndWrite]);
    assert [] + entries == entries;
  }

  function Staged(entries: seq<FileEntry>): seq<StoreOp> {
    seq(|entries|, i requires 0 <= i < |entries| => StageEntry(entries[i]))
  }

  lemma {:induction false} StagingAppends(loc: Locale, s: ListState, entries: seq<FileEntry>, rest: seq<StoreOp>)
    ensures RunList(loc, s, Staged(entries) + rest)
         == RunList(loc, s.(staging := s.staging + entries), rest)
    decreases |entries|
  {
    if entries == [] {
      assert Staged(entries) + rest == rest && s.staging + entries == s.staging;
    } else {
      var ops := Staged(entries) + rest;
      assert ops[0] == StageEntry(entries[0]) && ops[1..] == Staged(entries[1..]) + rest;
      StagingAppends(loc, s.(staging := s.staging + [entries[0]]), entries[1..], rest);
      assert s.staging + [entries[0]] + entries[1..] == s.staging + entries;
    }
  }

  // ---------------------------------------------------------------- the object

  /** Deserialising into fresh, empty out-parameters. */
  function Loaded(loc: Locale, file: Option<seq<Byte>>): IndexSerializers.Outcome {
    var blank := IndexSerializers.Outcome(IndexSerializers.Ok, EMPTY, map[], 0);
    match file
    case None => blank.(status := IndexSerializers.Refused)
    case Some(bytes) => IndexSerializers.Deserialized(loc, bytes, blank)
  }

  /** The saved number of a root: 0 where none was saved. */
  function SavedUsn(usnMap: map<WString, U64>, root: WString): U64 {
    if root in usnMap then usnMap[root] else 0
  }

  class IndexStore {
    const loc: Locale
    const pool: IndexPool
    var usnMap: map<WString, U64>
    var stagingBuf: seq<FileEntry>

    ghost predicate Valid()
      reads this
    {
      pool.loc == loc
    }

    function Value(): State
      reads this, pool
    {
      State(pool.Value(), stagingBuf)
    }

    constructor (loc: Locale)
      ensures Valid() && fresh(pool) && this.loc == loc
      ensures Value() == State(EMPTY, []) && usnMap == map[]
    {
      this.loc := loc;
      this.pool := new IndexPool(loc);
      usnMap, stagingBuf := map[], [];
    }

    /**
     Loads the index file; `None` stands for a file that cannot be opened. A refused file leaves
     an empty index. Nothing is promised after an `Undefined` read.
     */
    method Load(file: Option<seq<Byte>>, crc: CrcTable) returns (status: IndexSerializers.Status)
      requires Valid() && crc.Valid()
      modifies this, pool, crc, crc.table
      ensures Valid() && crc.Valid() && stagingBuf == old(stagingBuf)
      ensures var o := Loaded(loc, file);
              status == o.status
              && (status == IndexSerializers.Ok ==> pool.Value() == o.pool && usnMap == o.usn)
              && (status == IndexSerializers.Refused ==> pool.Value() == EMPTY && usnMap == map[])
    {
      hide IndexSerializers.Deserialized, Crc, TableEntry;
      var incoming := new IndexPool(loc);
      var usnIn: map<WString, U64>, ts := map[], 0;
      status := IndexSerializers.Refused;
      if file.Some? {
        status, usnIn, ts := IndexSerializers.Deserialize(file.value, incoming, usnIn, ts, crc);
      }
      if status == IndexSerializers.Ok {
        pool.meta, pool.nameLowerPool, pool.pathPool := incoming.meta, incoming.nameLowerPool, incoming.pathPool;
        usnMap := usnIn;
      } else {
        pool.Clear();
        usnMap := map[];
      }
    }

    method Save(now: U64, crc: CrcTable) returns (file: seq<Byte>, ghost order: seq<WString>)
      requires Valid() && crc.Valid()
      modifies crc, crc.table
      ensures crc.Valid() && IndexSerializers.IsOrder(order, usnMap)
      ensures file == IndexSerializers.FileOf(pool.Value(), order, usnMap, now)
    {
      hide Crc, TableEntry, IndexSerializers.IsOrder, IndexSerializers.PayloadOf, IndexSerializers.HeaderOf;
      file, order := IndexSerializers.Serialize(pool, usnMap, now, crc);
    }

    method BeginWrite()
      requires Valid()
      modifies this
      ensures Valid() && usnMap == old(usnMap)
      ensures Value() == Apply(loc, old(Value()), StoreOp.BeginWrite)
    {
      stagingBuf := [];
    }

    method AddEntry(e: FileEntry)
      requires Valid()
      modifies this
      ensures Valid() && usnMap == old(usnMap)
      ensures Value() == Apply(loc, old(Value()), StageEntry(e))
    {
      stagingBuf := stagingBuf + [e];
    }

    method EndWrite()
      requires Valid() && AllAddable(stagingBuf)
      modifies this, pool
      ensures Valid() && usnMap == old(usnMap)
      ensures Value() == Apply(loc, old(Value()), StoreOp.EndWrite)
    {
      hide Added;
      var incoming := new IndexPool(loc);
      for i := 0 to |stagingBuf|
        invariant Valid() && AllAddable(stagingBuf) && stagingBuf == old(stagingBuf) && usnMap == old(usnMap)
        invariant incoming.loc == loc && incoming.Value() == FromEntries(loc, stagingBuf[..i])
      {
        incoming.AddEntry(stagingBuf[i]);
        assert stagingBuf[..i + 1][..i] == stagingBuf[..i];
      }
      assert stagingBuf[..|stagingBuf|] == stagingBuf;
      stagingBuf := [];
      pool.meta, pool.nameLowerPool, pool.pathPool := incoming.meta, incoming.nameLowerPool, incoming.pathPool;
    }

    method ApplyAdd(e: FileEntry)
      requires Valid() && Addable(e)
      modifies pool
      ensures Value() == Apply(loc, old(Value()), StoreOp.ApplyAdd(e))
    {
      pool.AddEntry(e);
    }

    method ApplyRemove(path: WString)
      requires Valid()
      modifies pool
      ensures Value() == Apply(loc, old(Value()), StoreOp.ApplyRemove(path))
    {
      var key := loc.Fold(path);
      ghost var p := pool.Value();
      for i := 0 to |pool.meta|
        invariant pool.Value() == p && FirstMatch(loc, p, key, i) == FirstMatch(loc, p, key, 0)
      {
        var m := pool.meta[i];
        if !m.deleted && loc.Fold(View(pool.pathPool, m.pathOffset, m.pathLen)) == key {
          assert PathIs(loc, p, i, key);
          pool.meta := pool.meta[i := m.(deleted := true)];
          break;
        }
      }
    }

    method ApplyRename(oldPath: WString, newPath: WString)
      requires Valid()
      modifies pool
      ensures Value() == Apply(loc, old(Value()), StoreOp.ApplyRename(oldPath, newPath))
    {
      var key := loc.Fold(oldPath);
      ghost var p := pool.Value();
      for i := 0 to |pool.meta|
        invariant pool.Value() == p && FirstMatch(loc, p, key, i) == FirstMatch(loc, p, key, 0)
      {
        var m := pool.meta[i];
        if !m.deleted && loc.Fold(View(pool.pathPool, m.pathOffset, m.pathLen)) == key {
          assert PathIs(loc, p, i, key);
          pool.meta := pool.meta[i := m.(deleted := true)];
          var name := newPath[NameStart(newPath)..];
          pool.AddEntry(FileEntry(name, loc.Fold(name), newPath, m.size, m.lastModified, m.attributes));
          break;
        }
      }
    }

    method RemoveEntriesUnderPath(prefix: WString)
      requires Valid()
      modifies pool
      ensures Value() == Apply(loc, old(Value()), StoreOp.RemoveEntriesUnderPath(prefix))
    {
      var lp := loc.Fold(prefix);
      if lp != [] && lp[|lp| - 1] != BACKSLASH {
        lp := lp + [BACKSLASH];
      }
      assert lp == DirectoryPrefix(loc, prefix);
      ghost var p := pool.Value();
      hide DirectoryPrefix, ClearedAll, PathUnder, Cleared;
      for i := 0 to |pool.meta|
        invariant |pool.meta| == |p.meta| && pool.pathPool == p.pathPool
        invariant pool.nameLowerPool == p.nameLowerPool
        invariant forall k :: 0 <= k < i ==> pool.meta[k] == Cleared(loc, p.pathPool, lp, p.meta[k])
        invariant forall k :: i <= k < |p.meta| ==> pool.meta[k] == p.meta[k]
      {
        var m := pool.meta[i];
        ClearedMeans(loc, pool.pathPool, lp, m);
        if !m.deleted {
          if lp <= loc.Fold(View(pool.pathPool, m.pathOffset, m.pathLen)) {
            pool.meta := pool.meta[i := m.(deleted := true)];
          }
        }
      }
      AllCleared(loc, p, prefix, pool.meta);
    }

    method GetEntryCount() returns (n: nat)
      ensures n == |Live(pool.Value())|
    {
      n := 0;
      for i := 0 to |pool.meta|
        invariant n == LiveBefore(pool.meta, i)
      {
        if !pool.meta[i].deleted {
          n := n + 1;
        }
      }
      LiveCount(pool.meta, pool.pathPool);
    }

    method GetSavedUsn(root: WString) returns (usn: U64)
      ensures usn == SavedUsn(usnMap, root)
      ensures root in usnMap ==> usn == usnMap[root]
      ensures root !in usnMap ==> usn == 0
    {
      usn := if root in usnMap then usnMap[root] else 0;
    }

    method SetSavedUsn(root: WString, usn: U64)
      modifies this`usnMap
      ensures usnMap == old(usnMap)[root := usn]
    {
      usnMap := usnMap[root := usn];
    }
  }
}
