/**
 Consequences for the index file: a bulk write round-trips, a deletion can make a save name the
 wrong file, and a compacting save would not.
 */
module Persistence {
  import opened Text
  import opened IndexPools
  import opened IndexSerializers
  import opened IndexStores
  import opened RunningSums
  import opened RoundTrips

  // ---------------------------------------------------------------- a bulk write round-trips

  lemma AddedHasNoDeadText(loc: Locale, p: Pool, e: FileEntry)
    requires Storable(e) && NoDeadText(p)
    ensures NoDeadText(Added(loc, p, e))
  {
    hide LiveDisk, DiskLen, LowerName;
    var q := Added(loc, p, e);
    SumStep(q.meta, |p.meta|);
    assert q.meta[..|p.meta| + 1] == q.meta && q.meta[..|p.meta|] == p.meta;
  }

  /** The pool EndWrite swaps in is dense and holds no dead text. */
  lemma {:induction false} BulkWriteIsDense(loc: Locale, entries: seq<FileEntry>)
    requires AllStorable(entries) && HasRoom(FromEntries(loc, entries))
    ensures Dense(FromEntries(loc, entries).meta) && NoDeadText(FromEntries(loc, entries))
    ensures |FromEntries(loc, entries).meta| == |entries|
  {
    if entries != [] {
      var front, e := entries[..|entries| - 1], entries[|entries| - 1];
      BulkWriteIsDense(loc, front);
      AddKeepsDenseIff(loc, FromEntries(loc, front), e);
      AddedHasNoDeadText(loc, FromEntries(loc, front), e);
    }
  }

  /** A full rebuild that is saved and loaded gives back exactly the scanned entries. */
  lemma BulkWriteRoundTrip(
      loc: Locale, entries: seq<FileEntry>, order: seq<WString>, usn: map<WString, U64>, ts: U64, before: Outcome)
    requires AllCanonical(loc, entries) && HasRoom(FromEntries(loc, entries)) && |entries| < U32_LIMIT
    requires IsOrder(order, usn) && UsnFits(usn) && before.usn == map[]
    ensures var o := Deserialized(loc, FileOf(FromEntries(loc, entries), order, usn, ts), before);
            o.status == Ok && o.usn == usn && Live(o.pool) == RecordsFor(entries)
  {
    hide FileOf, Deserialized, FromEntries, RecordsFor, Live;
    BulkWriteIsDense(loc, entries);
    FromEntriesRefines(loc, entries);
    DenseRoundTrip(loc, FromEntries(loc, entries), order, usn, ts, before);
  }

  /** A number saved for a root is read back after a save and a load, and so is every other root's. */
  lemma SavedNumbersSurvive(loc: Locale, p: Pool, usn: map<WString, U64>, root: WString, number: U64,
                            order: seq<WString>, ts: U64)
    requires WellFormed(loc, p) && HasRoom(p) && |p.meta| < U32_LIMIT
    requires IsOrder(order, usn[root := number]) && UsnFits(usn[root := number])
    ensures var o := Loaded(loc, Some(FileOf(p, order, usn[root := number], ts)));
            && o.status == Ok && SavedUsn(o.usn, root) == number
            && forall other :: other != root ==> SavedUsn(o.usn, other) == SavedUsn(usn, other)
  {
    hide FileOf, Deserialized, IsOrder, UsnFits, LoadsAs, WellFormed;
    WellFormedIsLoadable(loc, p);
    LoadedNumbers(loc, p, usn[root := number], order, ts);
  }

  lemma LoadedNumbers(loc: Locale, p: Pool, usn: map<WString, U64>, order: seq<WString>, ts: U64)
    requires Loadable(p) && IsOrder(order, usn) && UsnFits(usn)
    ensures var o := Loaded(loc, Some(FileOf(p, order, usn, ts)));
            o.status == Ok && o.usn == usn
  {
    hide FileOf, Deserialized, IsOrder, UsnFits, Loadable, Live, LiveDisk, WellFormed, Dense, SliceRecords;
    LoadAfterSave(loc, p, order, usn, ts, Outcome(Ok, EMPTY, map[], 0));
  }

  // ---------------------------------------------------------------- a deletion that a save gets wrong

  function Plain(path: WString): FileEntry {
    FileEntry([], [], path, 0, 0, 0)
  }

  /** Two one-letter paths; the first is deleted. */
  function AfterDeletion(loc: Locale): Pool {
    Tombstoned(FromEntries(loc, [Plain([97]), Plain([98])]), 0)
  }

  lemma TwoEntries(loc: Locale)
    ensures var es := [Plain([97]), Plain([98])]; var p := FromEntries(loc, es);
            && AllCanonical(loc, es) && HasRoom(p) && |p.meta| == 2 && p.pathPool == [97, 98]
            && !p.meta[0].deleted && !p.meta[1].deleted
            && DiskOf(p.meta[0]) == DiskEntry(0, 0, 0, 1, 0) && DiskOf(p.meta[1]) == DiskEntry(0, 0, 0, 1, 0)
  {
    var es := [Plain([97]), Plain([98])];
    assert es[..1] == [Plain([97])] && es[..1][..0] == [];
    assert NameStart([97]) == 0 && NameStart([98]) == 0;
    assert FromEntries(loc, es[..1]) == Added(loc, EMPTY, Plain([97]));
    assert FromEntries(loc, es) == Added(loc, Added(loc, EMPTY, Plain([97])), Plain([98]));
  }

  /** The live list is "b"; the file written for it loads as "a". */
  lemma DeletionBreaksRoundTrip(loc: Locale, ts: U64, before: Outcome)
    requires before.usn == map[]
    ensures var p := AfterDeletion(loc); var o := Deserialized(loc, FileOf(p, [], map[], ts), before);
            && WellFormed(loc, p) && HasRoom(p) && !Dense(p.meta)
            && Live(p) == [Record([98], 0, 0, 0, 0)]
            && o.status == Ok && Live(o.pool) == [Record([97], 0, 0, 0, 0)]
  {
    hide FileOf, Deserialized, SliceRecords, LiveDisk, LiveRecords, FromEntries, Dense, WellFormed, NameStart;
    var p := AfterDeletion(loc);
    OneIsLeft(loc);
    WellFormedIsLoadable(loc, p);
    LoadAfterSave(loc, p, [], map[], ts, before);
    SlicesOfTwo(p.meta, p.pathPool);
    assert View(p.pathPool, 0, 1) == [97];
  }

  lemma OneIsLeft(loc: Locale)
    ensures var p := AfterDeletion(loc);
            && WellFormed(loc, p) && HasRoom(p) && !Dense(p.meta)
            && Live(p) == [Record([98], 0, 0, 0, 0)] && p.pathPool == [97, 98]
            && |p.meta| == 2 && p.meta[0].deleted && !p.meta[1].deleted && DiskOf(p.meta[1]) == DiskEntry(0, 0, 0, 1, 0)
  {
    hide LiveDisk, LiveRecords, FromEntries, Dense, WellFormed, NameStart;
    var es := [Plain([97]), Plain([98])];
    var full := FromEntries(loc, es);
    TwoEntries(loc);
    FromEntriesRefines(loc, es);
    TombstonedWellFormed(loc, full, 0);
    TombstoneRemovesOne(full.meta, full.pathPool, 0);
    assert LiveBefore(full.meta, 0) == 0;
    assert Without(Live(full), 0) == [Record([98], 0, 0, 0, 0)];
    BulkWriteIsDense(loc, es);
    DeleteKeepsDenseIff(full, 0);
    assert 0 < 1 < |full.meta| && !full.meta[1].deleted && full.meta[1].pathLen != 0;
  }

  lemma SlicesOfTwo(meta: seq<EntryMeta>, text: WString)
    requires |meta| == 2 && meta[0].deleted && !meta[1].deleted && |text| == 2 && meta[1].pathLen == 1
    ensures SliceRecords(LiveDisk(meta), text) == [SliceRecord(text, 0, DiskOf(meta[1]))]
  {
    assert meta[..1][..0] == [] && LiveDisk(meta[..1][..0]) == [];
    assert LiveDisk(meta[..1]) == [];
    assert LiveDisk(meta) == [DiskOf(meta[1])];
    assert [DiskOf(meta[1])][..0] == [];
  }

  // ---------------------------------------------------------------- variant: a compacting save

  /** The live paths, end to end: what a compacting save would write as the path pool. */
  function LiveText(meta: seq<EntryMeta>, text: WString): WString {
    if meta == [] then []
    else
      var m := meta[|meta| - 1];
      LiveText(meta[..|meta| - 1], text)
      + (if m.deleted then [] else View(text, m.pathOffset, m.pathLen))
  }

  function Compacted(p: Pool): Pool {
    p.(pathPool := LiveText(p.meta, p.pathPool))
  }

  /** In the compacted text every live record is found at its running sum. */
  lemma {:induction false} CompactedSlices(meta: seq<EntryMeta>, text: WString, tail: WString)
    requires forall i :: 0 <= i < |meta| ==> meta[i].pathOffset + meta[i].pathLen <= |text|
    ensures |LiveText(meta, text)| == DiskLen(LiveDisk(meta))
    ensures SliceRecords(LiveDisk(meta), LiveText(meta, text) + tail) == LiveRecords(meta, text)
  {
    if meta != [] {
      var front, m := meta[..|meta| - 1], meta[|meta| - 1];
      var ds, kept := LiveDisk(front), LiveText(front, text);
      if m.deleted {
        CompactedSlices(front, text, tail);
        assert ds + [] == ds && kept + [] == kept;
      } else {
        var path := View(text, m.pathOffset, m.pathLen);
        CompactedSlices(front, text, path + tail);
        assert (ds + [DiskOf(m)])[..|ds|] == ds;
        assert kept + path + tail == kept + (path + tail);
        assert View(kept + path + tail, |kept|, |path|) == path;
      }
    }
  }

  /** A save that compacted the path pool first would round-trip from every well-formed pool. */
  lemma CompactingSaveRoundTrip(
      loc: Locale, p: Pool, order: seq<WString>, usn: map<WString, U64>, ts: U64, before: Outcome)
    requires WellFormed(loc, p) && HasRoom(p) && |p.meta| < U32_LIMIT
    requires IsOrder(order, usn) && UsnFits(usn) && before.usn == map[]
    ensures var o := Deserialized(loc, FileOf(Compacted(p), order, usn, ts), before);
            o.status == Ok && o.usn == usn && Live(o.pool) == Live(p)
  {
    hide FileOf, Deserialized, SliceRecords, LiveDisk, LiveRecords, LiveText, DiskLen;
    assert forall i :: 0 <= i < |p.meta| ==> EntryOk(loc, p, p.meta[i]);
    var text := LiveText(p.meta, p.pathPool);
    CompactedSlices(p.meta, p.pathPool, []);
    assert text + [] == text;
    WellFormedIsLoadable(loc, p);
    LoadAfterSave(loc, Compacted(p), order, usn, ts, before);
  }
}
