/**
 Files at which the unguarded entry count shows: one changed byte that truncates the index, a
 larger count that reads outside the path pool, and the files on which a larger count is always
 refused.
 */
module CorruptFiles {
  import opened Text
  import opened IndexPools
  import opened Crc32
  import opened IndexSerializers
  import opened IndexStores
  import opened RunningSums
  import opened RoundTrips
  import opened Persistence
  import opened Corruption

  // ---------------------------------------------------------------- no saved numbers, no records

  lemma NothingToOrder()
    ensures IsOrder([], map[]) && UsnFits(map[])
  {
  }

  lemma NothingBehind(p: Pool, b: seq<Byte>)
    requires b == PayloadOf(p, [], map[])
    ensures |b| == 8 + 2 * |p.pathPool| + DISK_ENTRY_SIZE * |LiveDisk(p.meta)| + 4
  {
    hide LE, Wide, AllDiskBytes, LiveDisk;
  }

  lemma PastTheEnd(loc: Locale, o: Outcome, p: Pool, b: seq<Byte>, k: nat, before: Outcome)
    requires CountOutcome(loc, o, p, b, k, before) && |LiveDisk(p.meta)| < k <= MAX_ENTRIES
    requires |b| == 8 + 2 * |p.pathPool| + DISK_ENTRY_SIZE * |LiveDisk(p.meta)| + 4
    ensures o.status == Refused && Live(o.pool) == [] && o.usn == before.usn
  {
    hide LiveDisk, Live, Overrun;
  }

  /** Without saved numbers there are no bytes to read: every larger count that can be reserved is refused. */
  lemma LargerCountRefused(loc: Locale, p: Pool, g: seq<Byte>, before: Outcome)
    requires Loadable(p) && Accepted(g) && g[HEADER_SIZE..] == PayloadOf(p, [], map[])
    requires |LiveDisk(p.meta)| < U64At(g, 14) <= 0xFFFF_FFFF_FFFF_FFFF / 40
    ensures var o := Deserialized(loc, g, before);
            o.status == Refused && Live(o.pool) == [] && o.usn == before.usn
  {
    var b := PayloadOf(p, [], map[]);
    hide *;
    NothingToOrder();
    NothingBehind(p, b);
    EntryCountIsUnguarded(loc, p, [], map[], g, before);
    PastTheEnd(loc, Deserialized(loc, g, before), p, b, U64At(g, 14), before);
  }

  // ---------------------------------------------------------------- a smaller count truncates

  lemma CountByte(count: Byte)
    ensures LE(count, 8) == LE(0, 8)[0 := count]
  {
    assert LE(count, 8) == [count] + LE(0, 7) && LE(0, 8) == [0] + LE(0, 7);
  }

  lemma SealedByte(ts: U64, count: Byte, payload: seq<Byte>)
    ensures Sealed(ts, count, payload) == Sealed(ts, 0, payload)[14 := count]
  {
    hide Crc, ToU32, LE;
    CountByte(count);
    assert LE(count, 8) == LE(0, 8)[0 := count];
  }

  function TwoFiles(loc: Locale): Pool {
    FromEntries(loc, [Plain([97]), Plain([98])])
  }

  /** The record of a file at a one-character path. */
  function Lone(c: WChar): Record {
    Record([c], 0, 0, 0, 0)
  }

  /** The file of the two, and the same file with the lowest byte of its entry count changed to 1. */
  function TwoFilesFile(loc: Locale, ts: U64): (r: seq<Byte>)
    ensures |r| > 14
  {
    FileOf(TwoFiles(loc), [], map[], ts)
  }

  function OneByteChanged(loc: Locale, ts: U64): seq<Byte> {
    TwoFilesFile(loc, ts)[14 := 1]
  }

  lemma TwoFilesSaved(loc: Locale)
    ensures var p := TwoFiles(loc);
            && Loadable(p) && |LiveDisk(p.meta)| == 2 && SliceRecords(LiveDisk(p.meta), p.pathPool) == Live(p)
            && Live(p) == [Lone(97), Lone(98)]
  {
    var es := [Plain([97]), Plain([98])];
    var p := TwoFiles(loc);
    TwoEntries(loc);
    FromEntriesRefines(loc, es);
    assert RecordsFor(es) == [RecordFor(es[0])] + RecordsFor(es[1..]) == [RecordFor(es[0]), RecordFor(es[1])];
    hide FromEntries, Live, SliceRecords, LiveDisk, WellFormed, Dense, Loadable;
    BulkWriteIsDense(loc, es);
    WellFormedIsLoadable(loc, p);
    DenseReadsSame(p.meta, p.pathPool);
    SlicesAreLiveIff(p.meta, p.pathPool);
    LiveCountsAgree(p.meta, p.pathPool);
  }

  lemma SealedFields(ts: U64, count: U64, payload: seq<Byte>)
    ensures var g := Sealed(ts, count, payload);
            |g| > 14 && Accepted(g) && g[HEADER_SIZE..] == payload && U64At(g, 14) == count
  {
    hide Crc, ToU32, HeaderOf, U64At, U32At, U16At;
    HeaderFields(ts, count, ToU32(Crc(payload)), payload);
  }

  /** One changed byte: the file of "a" and "b" is accepted and loads as "a" alone. */
  lemma OneByteTruncates(loc: Locale, ts: U64, before: Outcome)
    ensures Live(TwoFiles(loc)) == [Lone(97), Lone(98)]
    ensures Accepted(TwoFilesFile(loc, ts)) && Accepted(OneByteChanged(loc, ts))
    ensures var o := Deserialized(loc, OneByteChanged(loc, ts), before);
            o.status == Ok && Live(o.pool) == [Lone(97)]
  {
    var payload := PayloadOf(TwoFiles(loc), [], map[]);
    hide *;
    TwoFilesSaved(loc);
    SealedFields(ts, 2, payload);
    SealedFields(ts, 1, payload);
    BothAreSealed(loc, ts);
    CountOfOne(loc, TwoFiles(loc), Sealed(ts, 1, payload), before);
  }

  lemma BothAreSealed(loc: Locale, ts: U64)
    requires |LiveDisk(TwoFiles(loc).meta)| == 2
    ensures TwoFilesFile(loc, ts) == Sealed(ts, 2, PayloadOf(TwoFiles(loc), [], map[]))
    ensures OneByteChanged(loc, ts) == Sealed(ts, 1, PayloadOf(TwoFiles(loc), [], map[]))
  {
    FileIsSealed(TwoFiles(loc), ts);
    hide *;
    SealedAgain(ts, PayloadOf(TwoFiles(loc), [], map[]));
  }

  lemma FileIsSealed(p: Pool, ts: U64)
    requires |LiveDisk(p.meta)| == 2
    ensures FileOf(p, [], map[], ts) == Sealed(ts, 2, PayloadOf(p, [], map[]))
  {
    hide HeaderOf, Crc, ToU32, PayloadOf;
  }

  lemma SealedAgain(ts: U64, payload: seq<Byte>)
    ensures |Sealed(ts, 2, payload)| > 14 && Sealed(ts, 2, payload)[14 := 1] == Sealed(ts, 1, payload)
  {
    SealedByte(ts, 1, payload);
    SealedByte(ts, 2, payload);
    assert |Sealed(ts, 0, payload)| > 14;
    hide Sealed;
    assert Sealed(ts, 0, payload)[14 := 2][14 := 1] == Sealed(ts, 0, payload)[14 := 1];
  }

  lemma CountOfOne(loc: Locale, p: Pool, g: seq<Byte>, before: Outcome)
    requires Loadable(p) && Accepted(g) && g[HEADER_SIZE..] == PayloadOf(p, [], map[]) && U64At(g, 14) == 1
    requires |LiveDisk(p.meta)| == 2 && |Live(p)| == 2 && SliceRecords(LiveDisk(p.meta), p.pathPool) == Live(p)
    ensures Deserialized(loc, g, before).status == Ok && Live(Deserialized(loc, g, before).pool) == [Live(p)[0]]
  {
    hide PayloadOf, Accepted, Deserialized, U64At, LiveDisk, Loadable, Overrun, WellFormed, Dense, SliceRecords, Live;
    NothingToOrder();
    EntryCountIsUnguarded(loc, p, [], map[], g, before);
    assert Live(p)[..1] == [Live(p)[0]];
  }

  // ---------------------------------------------------------------- a larger count reads the saved numbers

  const DRIVE_C: WString := [67, 58, BACKSLASH]
  const DRIVE_D: WString := [68, 58, BACKSLASH]

  /** The second root of a map whose first is C:\. */
  ghost predicate SecondRoot(root: WString) {
    root != [] && root != DRIVE_C && |root| < U16_LIMIT
  }

  function Roots(root: WString): seq<WString> {
    [DRIVE_C, root]
  }

  function TwoNumbers(root: WString, first: U64, second: U64): (r: map<WString, U64>)
    ensures forall i :: 0 <= i < |Roots(root)| ==> Roots(root)[i] in r
  {
    map[DRIVE_C := first, root := second]
  }

  function NumbersPayload(loc: Locale, root: WString, first: U64, second: U64): seq<Byte> {
    PayloadOf(OneFile(loc), Roots(root), TwoNumbers(root, first, second))
  }

  /** The index of the file "a" saved with numbers for two roots, under a header that claims two entries. */
  function NumbersFile(loc: Locale, root: WString, first: U64, second: U64, ts: U64): seq<Byte> {
    Sealed(ts, 2, NumbersPayload(loc, root, first, second))
  }

  function OneFile(loc: Locale): Pool {
    FromEntries(loc, [Plain([97])])
  }

  /**
   With numbers saved for two roots behind one record, a count of two is accepted. The load reads
   outside the path pool unless the second root's length is its first character; then it shows a
   second file made of the numbers.
   */
  lemma LargerCountReadsNumbers(
      loc: Locale, root: WString, first: U64, second: U64, ts: U64, before: Outcome)
    requires SecondRoot(root)
    ensures |LiveDisk(OneFile(loc).meta)| == 1 && IsOrder(Roots(root), TwoNumbers(root, first, second))
    ensures Accepted(NumbersFile(loc, root, first, second, ts))
    ensures var o := Deserialized(loc, NumbersFile(loc, root, first, second, ts), before);
            if |root| == root[0] then o.status == Ok && |Live(o.pool)| == 2 else o.status == Undefined
  {
    var p, b := OneFile(loc), NumbersPayload(loc, root, first, second);
    var g := NumbersFile(loc, root, first, second, ts);
    assert root != [] && b == PayloadOf(p, Roots(root), TwoNumbers(root, first, second)) && g == Sealed(ts, 2, b);
    hide *;
    BothRoots(root, first, second);
    OneFileSaved(loc);
    SealedFields(ts, 2, b);
    SecondRecord(loc, b, root, first, second);
    SecondOutsideIff(p, b);
    EntryCountIsUnguarded(loc, p, Roots(root), TwoNumbers(root, first, second), g, before);
    OverrunOutcome(loc, Deserialized(loc, g, before), p, b, before);
  }

  /** Two drives: the read leaves the path pool. */
  lemma TwoDrivesReadOutside(loc: Locale, first: U64, second: U64, ts: U64, before: Outcome)
    ensures Accepted(NumbersFile(loc, DRIVE_D, first, second, ts))
    ensures Deserialized(loc, NumbersFile(loc, DRIVE_D, first, second, ts), before).status == Undefined
  {
    assert DRIVE_C[0] != DRIVE_D[0];
    hide NumbersFile, Accepted, Deserialized;
    LargerCountReadsNumbers(loc, DRIVE_D, first, second, ts, before);
  }

  function OneMeta(loc: Locale): EntryMeta {
    MetaFor(loc, EMPTY, Plain([97]))
  }

  lemma OneFileSaved(loc: Locale)
    ensures var p := OneFile(loc); Loadable(p) && LiveDisk(p.meta) == [DiskEntry(0, 0, 0, 1, 0)] && p.pathPool == [97]
  {
    hide *;
    OneAdded(loc);
    LoneMeta(loc);
    LoneDisk(OneMeta(loc));
    LoneIsLoadable(OneFile(loc));
  }

  lemma LoneIsLoadable(p: Pool)
    requires |p.meta| == 1 && |p.pathPool| == 1 && LiveDisk(p.meta) == [DiskEntry(0, 0, 0, 1, 0)]
    requires DiskLen(LiveDisk(p.meta)) == 1
    ensures Loadable(p)
  {
    hide LiveDisk, DiskLen;
  }

  lemma LoneMeta(loc: Locale)
    ensures !OneMeta(loc).deleted && DiskOf(OneMeta(loc)) == DiskEntry(0, 0, 0, 1, 0)
  {
    assert NameStart([97]) == 0;
    hide LowerName;
  }

  lemma OneAdded(loc: Locale)
    ensures OneFile(loc).meta == [OneMeta(loc)] && OneFile(loc).pathPool == [97]
  {
    hide MetaFor, LowerName, NameStart;
    LastAdded(loc, [Plain([97])]);
    assert [Plain([97])][..0] == [] && FromEntries(loc, []) == EMPTY;
    hide FromEntries;
    assert EMPTY.pathPool + [97] == [97] && EMPTY.meta + [OneMeta(loc)] == [OneMeta(loc)];
  }

  lemma LastAdded(loc: Locale, es: seq<FileEntry>)
    requires es != [] && AllAddable(es)
    ensures FromEntries(loc, es) == Added(loc, FromEntries(loc, es[..|es| - 1]), es[|es| - 1])
  {
    hide Added;
  }

  lemma LoneDisk(m: EntryMeta)
    requires !m.deleted && DiskOf(m) == DiskEntry(0, 0, 0, 1, 0)
    ensures LiveDisk([m]) == [DiskEntry(0, 0, 0, 1, 0)] && DiskLen(LiveDisk([m])) == 1
  {
    assert [m][..0] == [] && [DiskEntry(0, 0, 0, 1, 0)][..0] == [];
    assert LiveDisk([m]) == LiveDisk([]) + [DiskEntry(0, 0, 0, 1, 0)];
  }

  /** The bytes of two saved numbers, read as a record: the second root's length and its first character. */
  lemma NumbersAsRecord(b: seq<Byte>, at: nat, root: WString, first: U64, second: U64)
    requires SecondRoot(root) && At(b, at + 4, UsnBytes(Roots(root), TwoNumbers(root, first, second)))
    ensures at + DISK_ENTRY_SIZE <= |b| && DiskAt(b, at).pathLen == |root| && DiskAt(b, at).nameStart == root[0]
  {
    var c, d := UsnEntryBytes(DRIVE_C, first), UsnEntryBytes(root, second);
    BytesOfNumbers(root, first, second);
    assert Wide(root) == LE(root[0], 2) + Wide(root[1..]);
    hide At, UsnBytes, UsnEntryBytes, LE, Wide, U16At, U64At, U32At, TwoNumbers;
    AtSplit(b, at + 4, c, d);
    UsnEntryParts(b, at + 20, root, second);
    AtSplit(b, at + 22, Wide(root), LE(second, 8));
    AtSplit(b, at + 22, LE(root[0], 2), Wide(root[1..]));
    U16FieldAt(b, at + 22, root[0]);
  }

  lemma BytesOfNumbers(root: WString, first: U64, second: U64)
    requires SecondRoot(root)
    ensures UsnBytes(Roots(root), TwoNumbers(root, first, second))
         == UsnEntryBytes(DRIVE_C, first) + UsnEntryBytes(root, second)
  {
    var usn := TwoNumbers(root, first, second);
    assert Roots(root)[1..] == [root] && [root][1..] == [];
    assert Roots(root)[0] == DRIVE_C && usn[DRIVE_C] == first && usn[root] == second;
    hide UsnEntryBytes;
    assert UsnBytes([root], usn) == UsnEntryBytes(root, second) + [];
  }

  lemma BothRoots(root: WString, first: U64, second: U64)
    requires SecondRoot(root)
    ensures IsOrder(Roots(root), TwoNumbers(root, first, second)) && UsnFits(TwoNumbers(root, first, second))
  {
    assert Roots(root)[0] == DRIVE_C && Roots(root)[1] == root;
  }

  lemma SecondRecord(loc: Locale, b: seq<Byte>, root: WString, first: U64, second: U64)
    requires SecondRoot(root) && b == NumbersPayload(loc, root, first, second)
    ensures 34 + DISK_ENTRY_SIZE <= |b| && DiskAt(b, 34).pathLen == |root| && DiskAt(b, 34).nameStart == root[0]
  {
    hide PayloadOf, DiskAt, At, UsnBytes, Loadable, LiveDisk, AllDiskBytes, U32At, U64At, WideAt, IsOrder, UsnFits,
         TwoNumbers, OneFile, Roots, SecondRoot;
    OneFileSaved(loc);
    BothRoots(root, first, second);
    PayloadParts(OneFile(loc), Roots(root), TwoNumbers(root, first, second), b);
    NumbersAsRecord(b, 34, root, first, second);
  }

  /** Behind a text of one character any name that is not empty lies outside. */
  lemma SecondOutsideIff(p: Pool, b: seq<Byte>)
    requires LiveDisk(p.meta) == [DiskEntry(0, 0, 0, 1, 0)] && p.pathPool == [97] && 34 + DISK_ENTRY_SIZE <= |b|
    ensures SomeReadsOutside(RecordsRead(p, b, 2), p.pathPool) <==> DiskAt(b, 34).pathLen != DiskAt(b, 34).nameStart
  {
    hide DiskAt, LiveDisk, SomeReadsOutside;
    assert DisksAt(b, 34, 0) == [] && DisksAt(b, 34, 1) == [DiskAt(b, 34)];
    assert RecordsRead(p, b, 2) == [DiskEntry(0, 0, 0, 1, 0)] + [DiskAt(b, 34)];
    OneThenAnother(DiskEntry(0, 0, 0, 1, 0), DiskAt(b, 34), p.pathPool);
  }

  lemma OneThenAnother(d: DiskEntry, e: DiskEntry, text: WString)
    requires d.pathLen == |text| == 1 && d.nameStart == 0
    ensures SomeReadsOutside([d] + [e], text) <==> e.pathLen != e.nameStart
  {
    var ds := [d] + [e];
    FirstSums(d, e);
    hide DiskLen, RunBefore;
    assert !ReadsOutside(text, RunBefore(ds, 0), ds[0]);
    assert NameLen(e) > 0 <==> e.pathLen != e.nameStart;
    if e.pathLen != e.nameStart {
      assert ReadsOutside(text, RunBefore(ds, 1), ds[1]);
    }
  }

  lemma FirstSums(d: DiskEntry, e: DiskEntry)
    ensures RunBefore([d] + [e], 0) == 0 && RunBefore([d] + [e], 1) == d.pathLen
  {
    var ds := [d] + [e];
    assert ds[..0] == [] && ds[..1] == [d] && [d][..0] == [];
    assert DiskLen([d]) == DiskLen([]) + d.pathLen && DiskLen([]) == 0;
  }

  lemma OverrunOutcome(loc: Locale, o: Outcome, p: Pool, b: seq<Byte>, before: Outcome)
    requires CountOutcome(loc, o, p, b, 2, before) && |LiveDisk(p.meta)| == 1 && |p.pathPool| == 1
    requires 34 + DISK_ENTRY_SIZE <= |b|
    ensures if SomeReadsOutside(RecordsRead(p, b, 2), p.pathPool) then o.status == Undefined
            else o.status == Ok && |Live(o.pool)| == 2
  {
    hide LiveDisk, RecordsRead, SomeReadsOutside, Live, SliceRecords;
  }
}
