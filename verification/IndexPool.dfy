/**
 The flat in-memory index: fixed-size records that address two shared character pools.
 `Pool` is the value of an index, `IndexPool` the object that holds one.
 */
module IndexPools {
  import opened Text

  datatype FileEntry = FileEntry(
    name: WString, nameLower: WString, path: WString, size: U64, lastModified: U64, attributes: U32)

  datatype EntryMeta = EntryMeta(
    size: U64, lastModified: U64, attributes: U32,
    pathOffset: U32, nameLowerOffset: U32, pathLen: U16, nameLowerLen: U16, nameStart: U16, deleted: bool)

  datatype Pool = Pool(meta: seq<EntryMeta>, nameLowerPool: WString, pathPool: WString)

  const EMPTY: Pool := Pool([], [], [])

  const U32_LIMIT: nat := 0x1_0000_0000
  const U16_LIMIT: nat := 0x1_0000

  /** What one entry says, free of offsets: the plain file record. */
  datatype Record = Record(path: WString, nameStart: nat, size: U64, lastModified: U64, attributes: U32) {
    function Name(): WString {
      if nameStart <= |path| then path[nameStart..] else []
    }
  }

  /** `{pool + offset, len}`; empty where the C++ view would leave the pool. */
  function View(text: WString, offset: nat, len: nat): WString {
    if offset + len <= |text| then text[offset..offset + len] else []
  }

  function RecordOf(pathPool: WString, m: EntryMeta): Record {
    Record(View(pathPool, m.pathOffset, m.pathLen), m.nameStart, m.size, m.lastModified, m.attributes)
  }

  /** The live entries, in order, as plain records. */
  function LiveRecords(meta: seq<EntryMeta>, pathPool: WString): seq<Record> {
    if meta == [] then []
    else
      var m := meta[|meta| - 1];
      LiveRecords(meta[..|meta| - 1], pathPool) + (if m.deleted then [] else [RecordOf(pathPool, m)])
  }

  function Live(p: Pool): seq<Record> {
    LiveRecords(p.meta, p.pathPool)
  }

  // ---------------------------------------------------------------- well-formed pools

  /** Both slices lie in their pools and the second is the folded tail of the first. */
  ghost predicate EntryOk(loc: Locale, p: Pool, m: EntryMeta) {
    && m.pathOffset + m.pathLen <= |p.pathPool|
    && m.nameLowerOffset + m.nameLowerLen <= |p.nameLowerPool|
    && m.nameStart <= m.pathLen
    && View(p.nameLowerPool, m.nameLowerOffset, m.nameLowerLen) == loc.Fold(RecordOf(p.pathPool, m).Name())
  }

  /** a's slices end before b's begin. */
  predicate Before(a: EntryMeta, b: EntryMeta) {
    a.pathOffset + a.pathLen <= b.pathOffset && a.nameLowerOffset + a.nameLowerLen <= b.nameLowerOffset
  }

  ghost predicate WellFormed(loc: Locale, p: Pool) {
    && (forall i :: 0 <= i < |p.meta| ==> EntryOk(loc, p, p.meta[i]))
    && (forall i, j :: 0 <= i < j < |p.meta| ==> Before(p.meta[i], p.meta[j]))
  }

  // ---------------------------------------------------------------- adding an entry

  /** No length is lost when AddEntry narrows it to 16 bits. */
  predicate Storable(e: FileEntry)
    ensures Storable(e) ==> Addable(e)
  {
    |e.path| < U16_LIMIT && |e.name| < U16_LIMIT && |e.nameLower| < U16_LIMIT
  }

  /**
   Adding the entry is defined: when both name fields are empty the name is cut out of the path by
   the two narrowed numbers, the first of which must not exceed the second.
   */
  predicate Addable(e: FileEntry) {
    e.name != [] || e.nameLower != [] || NameStart(e.path) % U16_LIMIT <= |e.path| % U16_LIMIT
  }

  /** The name fields agree with the path; either may be left empty. */
  ghost predicate Canonical(loc: Locale, e: FileEntry) {
    var tail := e.path[NameStart(e.path)..];
    && Storable(e) && (e.name == [] || e.name == tail)
    && (e.nameLower == [] || e.nameLower == loc.Fold(tail))
  }

  function LowerName(loc: Locale, e: FileEntry): (r: WString)
    requires Addable(e)
    ensures Storable(e) ==> |r| < U16_LIMIT
  {
    if e.nameLower != [] then e.nameLower
    else loc.Fold(if e.name == [] then e.path[NameStart(e.path) % U16_LIMIT..|e.path| % U16_LIMIT] else e.name)
  }

  function MetaFor(loc: Locale, p: Pool, e: FileEntry): (r: EntryMeta)
    requires Addable(e)
    ensures Storable(e) ==>
              r.pathLen == |e.path| && r.nameLowerLen == |LowerName(loc, e)| && r.nameStart == NameStart(e.path)
  {
    EntryMeta(e.size, e.lastModified, e.attributes,
              |p.pathPool| % U32_LIMIT, |p.nameLowerPool| % U32_LIMIT,
              |e.path| % U16_LIMIT, |LowerName(loc, e)| % U16_LIMIT, NameStart(e.path) % U16_LIMIT, false)
  }

  function Added(loc: Locale, p: Pool, e: FileEntry): Pool
    requires Addable(e)
  {
    Pool(p.meta + [MetaFor(loc, p, e)], p.nameLowerPool + LowerName(loc, e), p.pathPool + e.path)
  }

  function RecordFor(e: FileEntry): Record {
    Record(e.path, NameStart(e.path), e.size, e.lastModified, e.attributes)
  }

  /** Offsets into both pools still fit 32 bits. */
  predicate HasRoom(p: Pool) {
    |p.pathPool| < U32_LIMIT && |p.nameLowerPool| < U32_LIMIT
  }

  /** Text appended to the pools changes no existing view. */
  lemma ViewsSurviveGrowth(loc: Locale, p: Pool, q: Pool, m: EntryMeta)
    requires p.pathPool <= q.pathPool && p.nameLowerPool <= q.nameLowerPool && EntryOk(loc, p, m)
    ensures EntryOk(loc, q, m) && RecordOf(q.pathPool, m) == RecordOf(p.pathPool, m)
    ensures View(q.nameLowerPool, m.nameLowerOffset, m.nameLowerLen)
         == View(p.nameLowerPool, m.nameLowerOffset, m.nameLowerLen)
  {
    ViewOfExtension(p.pathPool, q.pathPool, m.pathOffset, m.pathLen);
    ViewOfExtension(p.nameLowerPool, q.nameLowerPool, m.nameLowerOffset, m.nameLowerLen);
  }

  lemma ViewOfExtension(a: WString, b: WString, offset: nat, len: nat)
    requires a <= b && offset + len <= |a|
    ensures View(a, offset, len) == View(b, offset, len)
  {
  }

  lemma {:induction false} LiveOfExtension(loc: Locale, p: Pool, meta: seq<EntryMeta>, text: WString)
    requires forall i :: 0 <= i < |meta| ==> EntryOk(loc, p, meta[i])
    requires p.pathPool <= text
    ensures LiveRecords(meta, text) == LiveRecords(meta, p.pathPool)
  {
    if meta != [] {
      var m := meta[|meta| - 1];
      LiveOfExtension(loc, p, meta[..|meta| - 1], text);
      ViewOfExtension(p.pathPool, text, m.pathOffset, m.pathLen);
    }
  }

  /** With room left no offset is truncated. */
  lemma OffsetsExact(loc: Locale, p: Pool, e: FileEntry)
    requires Storable(e) && HasRoom(p)
    ensures MetaFor(loc, p, e).pathOffset == |p.pathPool|
    ensures MetaFor(loc, p, e).nameLowerOffset == |p.nameLowerPool|
  {
  }

  lemma LowerNameOfCanonical(loc: Locale, e: FileEntry)
    requires Canonical(loc, e)
    ensures LowerName(loc, e) == loc.Fold(RecordFor(e).Name())
  {
    assert NameStart(e.path) % U16_LIMIT == NameStart(e.path) && |e.path| % U16_LIMIT == |e.path|;
    assert e.path[NameStart(e.path)..|e.path|] == e.path[NameStart(e.path)..];
  }

  /** The new entry reads back exactly as it was given. */
  lemma NewEntryReadsBack(loc: Locale, p: Pool, e: FileEntry)
    requires Canonical(loc, e) && HasRoom(p)
    ensures var q := Added(loc, p, e); var m := MetaFor(loc, p, e);
            && EntryOk(loc, q, m) && RecordOf(q.pathPool, m) == RecordFor(e)
            && View(q.pathPool, m.pathOffset, m.pathLen) == e.path && m.nameStart == NameStart(e.path)
            && View(q.nameLowerPool, m.nameLowerOffset, m.nameLowerLen) == loc.Fold(e.path[NameStart(e.path)..])
            && m.size == e.size && m.lastModified == e.lastModified && m.attributes == e.attributes && !m.deleted
  {
    OffsetsExact(loc, p, e);
    LowerNameOfCanonical(loc, e);
    hide LowerName;
    EndOfText(p.pathPool, e.path);
    EndOfText(p.nameLowerPool, LowerName(loc, e));
    hide View;
  }

  lemma EndOfText(before: WString, text: WString)
    ensures View(before + text, |before|, |text|) == text
  {
  }

  /** The path reads back whole if and only if its length fits 16 bits; a longer one is cut short. */
  lemma PathReadsBackIff(loc: Locale, p: Pool, e: FileEntry)
    requires Addable(e) && HasRoom(p)
    ensures var path := RecordOf(Added(loc, p, e).pathPool, MetaFor(loc, p, e)).path;
            path == e.path[..|e.path| % U16_LIMIT] && (path == e.path <==> |e.path| < U16_LIMIT)
  {
    hide LowerName;
    var m, text := MetaFor(loc, p, e), p.pathPool + e.path;
    assert m.pathOffset == |p.pathPool| && m.pathLen == |e.path| % U16_LIMIT <= |e.path|;
    assert text[|p.pathPool|..|p.pathPool| + m.pathLen] == e.path[..m.pathLen];
  }

  lemma AddedKeepsEntriesOk(loc: Locale, p: Pool, e: FileEntry, i: nat)
    requires WellFormed(loc, p) && Canonical(loc, e) && HasRoom(p) && i <= |p.meta|
    ensures EntryOk(loc, Added(loc, p, e), Added(loc, p, e).meta[i])
  {
    if i < |p.meta| {
      ViewsSurviveGrowth(loc, p, Added(loc, p, e), p.meta[i]);
    } else {
      NewEntryReadsBack(loc, p, e);
    }
  }

  lemma AddedKeepsOrder(loc: Locale, p: Pool, e: FileEntry, i: nat, j: nat)
    requires WellFormed(loc, p) && Canonical(loc, e) && HasRoom(p) && i < j <= |p.meta|
    ensures Before(Added(loc, p, e).meta[i], Added(loc, p, e).meta[j])
  {
    OffsetsExact(loc, p, e);
    assert EntryOk(loc, p, p.meta[i]);
    if j < |p.meta| {
      assert Before(p.meta[i], p.meta[j]);
    }
  }

  lemma AddedWellFormed(loc: Locale, p: Pool, e: FileEntry)
    requires WellFormed(loc, p) && Canonical(loc, e) && HasRoom(p)
    ensures WellFormed(loc, Added(loc, p, e))
  {
    var q := Added(loc, p, e);
    forall i | 0 <= i < |q.meta| ensures EntryOk(loc, q, q.meta[i]) {
      AddedKeepsEntriesOk(loc, p, e, i);
    }
    forall i, j | 0 <= i < j < |q.meta| ensures Before(q.meta[i], q.meta[j]) {
      AddedKeepsOrder(loc, p, e, i, j);
    }
  }

  /** Adding keeps the pool well formed, keeps every record and appends the new one. */
  lemma AddedAppends(loc: Locale, p: Pool, e: FileEntry)
    requires WellFormed(loc, p) && Canonical(loc, e) && HasRoom(p)
    ensures WellFormed(loc, Added(loc, p, e))
    ensures Live(Added(loc, p, e)) == Live(p) + [RecordFor(e)]
  {
    var q := Added(loc, p, e);
    AddedWellFormed(loc, p, e);
    NewEntryReadsBack(loc, p, e);
    LiveOfExtension(loc, p, p.meta, q.pathPool);
    assert q.meta[..|q.meta| - 1] == p.meta;
  }

  // ---------------------------------------------------------------- tombstones

  function Tombstoned(p: Pool, i: nat): Pool
    requires i < |p.meta|
  {
    p.(meta := p.meta[i := p.meta[i].(deleted := true)])
  }

  /** q is p with other deletion flags. */
  ghost predicate SameButDeleted(p: Pool, q: Pool) {
    && p.pathPool == q.pathPool && p.nameLowerPool == q.nameLowerPool && |p.meta| == |q.meta|
    && forall i :: 0 <= i < |p.meta| ==> q.meta[i] == p.meta[i].(deleted := q.meta[i].deleted)
  }

  lemma DeletionKeepsWellFormed(loc: Locale, p: Pool, q: Pool)
    requires WellFormed(loc, p) && SameButDeleted(p, q)
    ensures WellFormed(loc, q)
  {
    forall i | 0 <= i < |q.meta| ensures EntryOk(loc, q, q.meta[i]) {
      assert EntryOk(loc, p, p.meta[i]);
    }
    forall i, j | 0 <= i < j < |q.meta| ensures Before(q.meta[i], q.meta[j]) {
      assert Before(p.meta[i], p.meta[j]);
    }
  }

  lemma TombstonedWellFormed(loc: Locale, p: Pool, i: nat)
    requires WellFormed(loc, p) && i < |p.meta|
    ensures WellFormed(loc, Tombstoned(p, i))
  {
    DeletionKeepsWellFormed(loc, p, Tombstoned(p, i));
  }

  /** How many live entries precede entry i. */
  function LiveBefore(meta: seq<EntryMeta>, i: nat): (r: nat)
    requires i <= |meta|
    ensures r <= i
  {
    if i == 0 then 0 else LiveBefore(meta, i - 1) + (if meta[i - 1].deleted then 0 else 1)
  }

  lemma {:induction false} LiveAt(meta: seq<EntryMeta>, text: WString, i: nat)
    requires i < |meta| && !meta[i].deleted
    ensures LiveBefore(meta, i) < |LiveRecords(meta, text)|
    ensures LiveRecords(meta, text)[LiveBefore(meta, i)] == RecordOf(text, meta[i])
    decreases |meta|
  {
    var front := meta[..|meta| - 1];
    LiveCount(front, text);
    LiveBeforePrefix(meta, front, i);
    if i < |meta| - 1 {
      LiveAt(front, text, i);
    }
  }

  lemma {:induction false} LiveBeforePrefix(meta: seq<EntryMeta>, front: seq<EntryMeta>, i: nat)
    requires front <= meta && i <= |front|
    ensures LiveBefore(meta, i) == LiveBefore(front, i)
  {
    if i > 0 {
      LiveBeforePrefix(meta, front, i - 1);
    }
  }

  lemma {:induction false} LiveCount(meta: seq<EntryMeta>, text: WString)
    ensures |LiveRecords(meta, text)| == LiveBefore(meta, |meta|)
  {
    if meta != [] {
      var front := meta[..|meta| - 1];
      LiveCount(front, text);
      LiveBeforePrefix(meta, front, |front|);
    }
  }

  function Without<T>(s: seq<T>, k: nat): seq<T>
    requires k < |s|
  {
    s[..k] + s[k + 1..]
  }

  lemma WithoutThenMore<T>(s: seq<T>, k: nat, more: seq<T>)
    requires k < |s|
    ensures Without(s + more, k) == Without(s, k) + more
  {
  }

  /** Deleting a live entry removes exactly its record. */
  lemma {:induction false} TombstoneRemovesOne(meta: seq<EntryMeta>, text: WString, i: nat)
    requires i < |meta| && !meta[i].deleted
    ensures LiveBefore(meta, i) < |LiveRecords(meta, text)|
    ensures LiveRecords(meta[i := meta[i].(deleted := true)], text)
         == Without(LiveRecords(meta, text), LiveBefore(meta, i))
    decreases |meta|
  {
    hide RecordOf;
    LiveAt(meta, text, i);
    var n := |meta| - 1;
    var dead := meta[i := meta[i].(deleted := true)];
    var front := meta[..n];
    LiveCount(front, text);
    LiveBeforePrefix(meta, front, i);
    if i == n {
      assert dead[..n] == front;
    } else {
      assert dead[..n] == front[i := front[i].(deleted := true)];
      TombstoneRemovesOne(front, text, i);
      WithoutThenMore(LiveRecords(front, text), LiveBefore(meta, i),
                      if meta[n].deleted then [] else [RecordOf(text, meta[n])]);
    }
  }

  // ---------------------------------------------------------------- whole runs

  datatype PoolStep = Add(e: FileEntry) | Delete(i: nat)

  predicate StepsAllowed(steps: seq<PoolStep>) {
    forall k :: 0 <= k < |steps| ==> steps[k].Add? ==> Addable(steps[k].e)
  }

  /** The pool after the steps, from the empty pool; deleting past the end does nothing. */
  function After(loc: Locale, steps: seq<PoolStep>): Pool
    requires StepsAllowed(steps)
  {
    if steps == [] then EMPTY
    else
      var p := After(loc, steps[..|steps| - 1]);
      match steps[|steps| - 1]
      case Add(e) => Added(loc, p, e)
      case Delete(i) => if i < |p.meta| then Tombstoned(p, i) else p
  }

  function Adds(steps: seq<PoolStep>): seq<FileEntry> {
    if steps == [] then []
    else
      Adds(steps[..|steps| - 1])
      + (match steps[|steps| - 1] case Add(e) => [e] case Delete(_) => [])
  }

  /**
   Every run from the empty pool: slices in bounds and disjoint, and entry k still reads
   exactly as the k-th entry that was added, whatever was added or deleted since.
   */
  lemma {:induction false} RunKeepsViews(loc: Locale, steps: seq<PoolStep>)
    requires StepsAllowed(steps)
    requires forall k :: 0 <= k < |steps| ==> steps[k].Add? ==> Canonical(loc, steps[k].e)
    requires HasRoom(After(loc, steps))
    ensures WellFormed(loc, After(loc, steps))
    ensures |After(loc, steps).meta| == |Adds(steps)|
    ensures forall k :: 0 <= k < |Adds(steps)| ==>
              RecordOf(After(loc, steps).pathPool, After(loc, steps).meta[k]) == RecordFor(Adds(steps)[k])
  {
    if steps != [] {
      var front := steps[..|steps| - 1];
      var p := After(loc, front);
      hide MetaFor, RecordFor;
      RunKeepsViews(loc, front);
      match steps[|steps| - 1]
      case Add(e) =>
        var q := Added(loc, p, e);
        AddedAppends(loc, p, e);
        NewEntryReadsBack(loc, p, e);
        forall k | 0 <= k < |p.meta| ensures RecordOf(q.pathPool, q.meta[k]) == RecordFor(Adds(steps)[k]) {
          ViewsSurviveGrowth(loc, p, q, p.meta[k]);
        }
      case Delete(i) =>
        if i < |p.meta| {
          TombstonedWellFormed(loc, p, i);
        }
    }
  }

  // ---------------------------------------------------------------- the object

  class IndexPool {
    const loc: Locale
    var meta: seq<EntryMeta>
    var nameLowerPool: WString
    var pathPool: WString

    function Value(): Pool
      reads this
    {
      Pool(meta, nameLowerPool, pathPool)
    }

    constructor (loc: Locale)
      ensures Value() == EMPTY && this.loc == loc
    {
      this.loc := loc;
      meta, nameLowerPool, pathPool := [], [], [];
    }

    method Clear()
      modifies this
      ensures Value() == EMPTY
    {
      meta, nameLowerPool, pathPool := [], [], [];
    }

    method AddEntry(e: FileEntry)
      requires Addable(e)
      modifies this
      ensures Value() == Added(loc, old(Value()), e)
    {
      var pathOffset, pathLen := |pathPool| % U32_LIMIT, |e.path| % U16_LIMIT;
      pathPool := pathPool + e.path;
      var nameStart := NameStart(e.path) % U16_LIMIT;
      var nameLowerOffset := |nameLowerPool| % U32_LIMIT;
      var nameLowerLen;
      if e.nameLower != [] {
        nameLowerLen := |e.nameLower| % U16_LIMIT;
        nameLowerPool := nameLowerPool + e.nameLower;
      } else {
        var src := if e.name == [] then e.path[nameStart..pathLen] else e.name;
        nameLowerLen := |src| % U16_LIMIT;
        nameLowerPool := nameLowerPool + loc.Fold(src);
      }
      meta := meta + [EntryMeta(e.size, e.lastModified, e.attributes, pathOffset, nameLowerOffset,
                                pathLen, nameLowerLen, nameStart, false)];
    }

    /** The three zero-copy views; in a well-formed pool none leaves its pool. */
    function GetNameLower(i: nat): WString
      requires i < |meta| && meta[i].nameLowerOffset + meta[i].nameLowerLen <= |nameLowerPool|
      reads this
    {
      nameLowerPool[meta[i].nameLowerOffset..][..meta[i].nameLowerLen]
    }

    function GetPath(i: nat): WString
      requires i < |meta| && meta[i].pathOffset + meta[i].pathLen <= |pathPool|
      reads this
    {
      pathPool[meta[i].pathOffset..][..meta[i].pathLen]
    }

    function GetName(i: nat): WString
      requires i < |meta| && meta[i].pathOffset + meta[i].pathLen <= |pathPool|
      requires meta[i].nameStart <= meta[i].pathLen
      reads this
    {
      pathPool[meta[i].pathOffset + meta[i].nameStart..][..meta[i].pathLen - meta[i].nameStart]
    }

    /** In a well-formed pool the views are safe, and they are the parts of the plain record. */
    lemma ViewsAreRecord(i: nat)
      requires WellFormed(loc, Value()) && i < |meta|
      ensures meta[i].nameLowerOffset + meta[i].nameLowerLen <= |nameLowerPool|
      ensures meta[i].pathOffset + meta[i].pathLen <= |pathPool| && meta[i].nameStart <= meta[i].pathLen
      ensures var r := RecordOf(pathPool, meta[i]);
              GetPath(i) == r.path && GetName(i) == r.Name() && GetNameLower(i) == loc.Fold(r.Name())
    {
      var m := meta[i];
      assert EntryOk(loc, Value(), m);
      assert GetPath(i) == View(pathPool, m.pathOffset, m.pathLen);
      assert GetNameLower(i) == View(nameLowerPool, m.nameLowerOffset, m.nameLowerLen);
    }
  }
}
