/**
 What a save followed by a load gives back: the general law for every pool, the exact
 condition under which it is the identity, and what the checksum does and does not guard.
 */
module RoundTrips {
  import opened Text
  import opened IndexPools
  import opened Crc32
  import opened IndexSerializers
  import opened RunningSums

  // ---------------------------------------------------------------- the rebuilt pool

  /** Records that fit are rebuilt into a well-formed, dense pool of exactly those slices. */
  lemma {:induction false} RebuildGivesSlices(loc: Locale, ds: seq<DiskEntry>, text: WString)
    requires Fits(ds, text)
    ensures var b := Rebuild(loc, ds, text);
            && GoodBuild(loc, text, b) && b.run == DiskLen(ds)
            && LiveDisk(b.meta) == ds && Dense(b.meta)
            && LiveRecords(b.meta, text) == SliceRecords(ds, text)
    decreases |ds|
  {
    if ds == [] {
      assert LiveRecords([], text) == [];
    } else {
      var front, d := ds[..|ds| - 1], ds[|ds| - 1];
      assert ds == front + [d];
      FitsFront(front, d, text);
      hide Extend, GoodBuild, Dense, Fits, LiveDisk, LiveRecords, SliceRecords, DiskLen;
      RebuildGivesSlices(loc, front, text);
      ExtendSliced(loc, text, Rebuild(loc, front, text), front, d);
    }
  }

  // ---------------------------------------------------------------- save, then load

  /** The size limits of the format: 32-bit USN count, 16-bit root lengths. */
  ghost predicate UsnFits(usn: map<WString, U64>) {
    |usn| < U32_LIMIT && forall root :: root in usn ==> |root| < U16_LIMIT
  }

  ghost predicate Loadable(p: Pool) {
    |p.meta| < U32_LIMIT && Fits(LiveDisk(p.meta), p.pathPool)
  }

  lemma PayloadParts(p: Pool, order: seq<WString>, usn: map<WString, U64>, b: seq<Byte>)
    requires Loadable(p) && IsOrder(order, usn) && UsnFits(usn) && b == PayloadOf(p, order, usn)
    ensures var at := 8 + 2 * |p.pathPool|;
            var end := at + DISK_ENTRY_SIZE * |LiveDisk(p.meta)|;
            && end + 4 <= |b|
            && U64At(b, 0) == |p.pathPool| && WideAt(b, 8, |p.pathPool|) == p.pathPool
            && At(b, at, AllDiskBytes(LiveDisk(p.meta)))
            && U32At(b, end) == |usn| && At(b, end + 4, UsnBytes(order, usn))
  {
    hide LE, Wide, At, AllDiskBytes, UsnBytes, Field, WideAt, Fits, U64At, U32At, LiveDisk, UsnFits;
    var n := |p.pathPool|;
    var ds := LiveDisk(p.meta);
    AtStart(b);
    var roots := LE(|usn|, 4) + UsnBytes(order, usn);
    AtSplit(b, 0, LE(n, 8), Wide(p.pathPool) + (AllDiskBytes(ds) + roots));
    AtSplit(b, 8, Wide(p.pathPool), AllDiskBytes(ds) + roots);
    AtSplit(b, 8 + 2 * n, AllDiskBytes(ds), roots);
    AtSplit(b, 8 + 2 * n + DISK_ENTRY_SIZE * |ds|, LE(|usn|, 4), UsnBytes(order, usn));
    PoolIsSmall(p, usn);
    U64FieldAt(b, 0, n);
    WideRoundTrip(b, 8, p.pathPool);
    U32FieldAt(b, 8 + 2 * n + DISK_ENTRY_SIZE * |ds|, |usn|);
  }

  lemma AtStart(b: seq<Byte>)
    ensures At(b, 0, b)
  {
    AtMiddle([], b, []);
    assert [] + b + [] == b;
  }

  lemma PoolIsSmall(p: Pool, usn: map<WString, U64>)
    requires Loadable(p) && UsnFits(usn)
    ensures |p.pathPool| < U32_LIMIT && |usn| < U32_LIMIT && |LiveDisk(p.meta)| < U32_LIMIT
    ensures Fits(LiveDisk(p.meta), p.pathPool)
  {
    LiveDiskAtMost(p.meta);
  }

  lemma LiveDiskAtMost(meta: seq<EntryMeta>)
    ensures |LiveDisk(meta)| <= |meta|
  {
    LiveDiskCount(meta);
  }

  /** A load that succeeded with the first k live records of p, each at its running-sum slice. */
  ghost predicate Reloaded(loc: Locale, o: Outcome, p: Pool, k: nat) {
    && o.status == Ok && WellFormed(loc, o.pool) && HasRoom(o.pool)
    && Dense(o.pool.meta) && o.pool.pathPool == p.pathPool
    && k <= |LiveDisk(p.meta)| && LiveDisk(o.pool.meta) == LiveDisk(p.meta)[..k]
    && Live(o.pool) == SliceRecords(LiveDisk(p.meta), p.pathPool)[..k]
  }

  /** The payload b begins with the text and the records of p. */
  ghost predicate Written(p: Pool, b: seq<Byte>) {
    && |p.pathPool| < U32_LIMIT && Fits(LiveDisk(p.meta), p.pathPool)
    && 8 + 2 * |p.pathPool| + DISK_ENTRY_SIZE * |LiveDisk(p.meta)| <= |b|
    && U64At(b, 0) == |p.pathPool| && WideAt(b, 8, |p.pathPool|) == p.pathPool
    && At(b, 8 + 2 * |p.pathPool|, AllDiskBytes(LiveDisk(p.meta)))
  }

  lemma PayloadIsWritten(p: Pool, order: seq<WString>, usn: map<WString, U64>, b: seq<Byte>)
    requires Loadable(p) && IsOrder(order, usn) && UsnFits(usn) && b == PayloadOf(p, order, usn)
    ensures Written(p, b)
  {
    hide PayloadOf, IsOrder, UsnFits, Loadable, LiveDisk, At, AllDiskBytes, WideAt, U64At, U32At, UsnBytes, Fits;
    PayloadParts(p, order, usn, b);
    PoolIsSmall(p, usn);
  }

  lemma WrittenParses(loc: Locale, p: Pool, b: seq<Byte>, k: nat, before: map<WString, U64>, ts: U64)
    requires Written(p, b) && |LiveDisk(p.meta)| < U32_LIMIT && k <= |LiveDisk(p.meta)|
    ensures var o := ParsePayload(loc, b, k, before, ts);
            && Reloaded(loc, o, p, k) && o.timestamp == ts
            && o.usn == UsnPart(b, 8 + 2 * |p.pathPool| + DISK_ENTRY_SIZE * k, before)
  {
    hide ParsePayload, Rebuild, DisksAt, SliceRecords, LiveRecords, LiveDisk, AllDiskBytes, UsnPart, WideAt, At, U64At,
         WellFormed, Dense, Fits, GoodBuild, Reloaded, HasRoom;
    var ds, at := LiveDisk(p.meta), 8 + 2 * |p.pathPool|;
    FitsPrefix(ds, p.pathPool, k);
    DisksRoundTrip(b, at, ds, k);
    RebuildGivesSlices(loc, ds[..k], p.pathPool);
    SlicePrefix(ds, p.pathPool, k);
    LoadedFacts(loc, b, at, ds, p.pathPool, k, before, ts);
    ReloadedFacts(loc, ParsePayload(loc, b, k, before, ts), p, k, Rebuild(loc, ds[..k], p.pathPool));
  }

  /** Any entry count up to the number of records written parses; the records past it are not seen. */
  lemma ParseWritten(loc: Locale, p: Pool, order: seq<WString>, usn: map<WString, U64>, b: seq<Byte>, k: nat,
                     before: map<WString, U64>, ts: U64)
    requires Loadable(p) && IsOrder(order, usn) && UsnFits(usn) && k <= |LiveDisk(p.meta)|
    requires b == PayloadOf(p, order, usn)
    ensures var o := ParsePayload(loc, b, k, before, ts);
            Reloaded(loc, o, p, k) && o.timestamp == ts
            && (k == |LiveDisk(p.meta)| && before == map[] ==> o.usn == usn)
  {
    hide *;
    PayloadIsWritten(p, order, usn, b);
    PoolIsSmall(p, usn);
    UsnIsWritten(p, order, usn, b);
    WrittenParses(loc, p, b, k, before, ts);
  }

  lemma UsnIsWritten(p: Pool, order: seq<WString>, usn: map<WString, U64>, b: seq<Byte>)
    requires Loadable(p) && IsOrder(order, usn) && UsnFits(usn) && b == PayloadOf(p, order, usn)
    ensures var end := 8 + 2 * |p.pathPool| + DISK_ENTRY_SIZE * |LiveDisk(p.meta)|;
            end <= |b| && UsnPart(b, end, map[]) == usn
  {
    hide *;
    PayloadParts(p, order, usn, b);
    UsnPartRoundTrip(b, 8 + 2 * |p.pathPool| + DISK_ENTRY_SIZE * |LiveDisk(p.meta)|, order, usn);
  }

  lemma ReloadedFacts(loc: Locale, o: Outcome, p: Pool, k: nat, c: Build)
    requires c.Built? && o.status == Ok && o.pool == Pool(c.meta, c.nameLower, p.pathPool)
    requires WellFormed(loc, o.pool) && HasRoom(o.pool) && Dense(c.meta) && k <= |LiveDisk(p.meta)|
    requires LiveDisk(c.meta) == LiveDisk(p.meta)[..k]
    requires LiveRecords(c.meta, p.pathPool) == SliceRecords(LiveDisk(p.meta), p.pathPool)[..k]
    ensures Reloaded(loc, o, p, k)
  {
    hide WellFormed, Dense, LiveDisk, LiveRecords, SliceRecords;
  }

  lemma FitsPrefix(ds: seq<DiskEntry>, text: WString, k: nat)
    requires Fits(ds, text) && k <= |ds|
    ensures Fits(ds[..k], text)
  {
    DiskLenMonotone(ds, k);
  }

  lemma UsnPartRoundTrip(b: seq<Byte>, at: nat, order: seq<WString>, usn: map<WString, U64>)
    requires IsOrder(order, usn) && UsnFits(usn)
    requires at + 4 <= |b| && U32At(b, at) == |usn| && At(b, at + 4, UsnBytes(order, usn))
    ensures UsnPart(b, at, map[]) == usn
  {
    hide At, UsnBytes, UsnAt, U32At, Restored;
    assert forall i :: 0 <= i < |order| ==> order[i] in usn && |order[i]| < U16_LIMIT;
    UsnRoundTrip(b, at + 4, order, usn, map[]);
    RestoredIsWhole(order, usn);
  }

  lemma LoadedFacts(loc: Locale, b: seq<Byte>, at: nat, ds: seq<DiskEntry>, text: WString, k: nat,
                                       usn: map<WString, U64>, ts: U64)
    requires k <= |ds| < U32_LIMIT && |text| < U32_LIMIT && at == 8 + 2 * |text|
    requires at + DISK_ENTRY_SIZE * |ds| <= |b| && U64At(b, 0) == |text| && WideAt(b, 8, |text|) == text
    requires DisksAt(b, at, k) == ds[..k] && GoodBuild(loc, text, Rebuild(loc, ds[..k], text))
    ensures var o := ParsePayload(loc, b, k, usn, ts); var c := Rebuild(loc, ds[..k], text);
            && c.Built?
            && o == Outcome(Ok, Pool(c.meta, c.nameLower, text), UsnPart(b, at + DISK_ENTRY_SIZE * k, usn), ts)
            && WellFormed(loc, o.pool) && HasRoom(o.pool)
  {
    hide Rebuild, DisksAt, WideAt, U64At, UsnPart, WellFormed;
  }

  lemma SealedIsAccepted(loc: Locale, ts: U64, n: U64, payload: seq<Byte>, before: Outcome)
    ensures Accepted(Sealed(ts, n, payload))
    ensures Deserialized(loc, Sealed(ts, n, payload), before) == ParsePayload(loc, payload, n, before.usn, ts)
  {
    hide ParsePayload, Crc, HeaderOf, U64At, U32At, U16At, ToU32;
    HeaderFields(ts, n, ToU32(Crc(payload)), payload);
  }

  /**
   What a load of p's file yields: no error, the saved timestamp and USN map, a well-formed dense
   pool, and record i with the path slice at the sum of the preceding live path lengths.
   */
  ghost predicate LoadsAs(loc: Locale, o: Outcome, p: Pool, usn: map<WString, U64>, ts: U64) {
    && o.status == Ok && o.timestamp == ts && o.usn == usn
    && WellFormed(loc, o.pool) && HasRoom(o.pool)
    && Dense(o.pool.meta) && o.pool.pathPool == p.pathPool
    && LiveDisk(o.pool.meta) == LiveDisk(p.meta)
    && Live(o.pool) == SliceRecords(LiveDisk(p.meta), p.pathPool)
  }

  lemma ReloadedWhole(loc: Locale, o: Outcome, p: Pool, usn: map<WString, U64>, ts: U64)
    requires Reloaded(loc, o, p, |LiveDisk(p.meta)|) && o.timestamp == ts && o.usn == usn
    ensures LoadsAs(loc, o, p, usn, ts)
  {
    hide SliceRecords, LiveDisk, Live, WellFormed, Dense;
    var ds, rs := LiveDisk(p.meta), SliceRecords(LiveDisk(p.meta), p.pathPool);
    assert ds[..|ds|] == ds && rs[..|ds|] == rs;
  }

  /** Saving any pool and loading the file. */
  lemma LoadAfterSave(loc: Locale, p: Pool, order: seq<WString>, usn: map<WString, U64>, ts: U64,
                                         before: Outcome)
    requires Loadable(p) && IsOrder(order, usn) && UsnFits(usn) && before.usn == map[]
    ensures LoadsAs(loc, Deserialized(loc, FileOf(p, order, usn, ts), before), p, usn, ts)
  {
    assert forall i :: 0 <= i < |order| ==> order[i] in usn;
    hide PayloadOf, Deserialized, LiveDisk, HeaderOf, Crc, ToU32, IsOrder, UsnFits, Fits, LoadsAs, Reloaded;
    var n, payload := |LiveDisk(p.meta)|, PayloadOf(p, order, usn);
    PoolIsSmall(p, usn);
    SealedIsAccepted(loc, ts, n, payload, before);
    ParseWritten(loc, p, order, usn, payload, n, before.usn, ts);
    assert FileOf(p, order, usn, ts) == Sealed(ts, n, payload);
    ReloadedWhole(loc, Deserialized(loc, Sealed(ts, n, payload), before), p, usn, ts);
  }

  /** The entries lie in order inside a path pool of n characters. */
  ghost predicate Layout(meta: seq<EntryMeta>, n: nat) {
    && (forall i :: 0 <= i < |meta| ==> meta[i].pathOffset + meta[i].pathLen <= n)
    && (forall i, j :: 0 <= i < j < |meta| ==> meta[i].pathOffset + meta[i].pathLen <= meta[j].pathOffset)
  }

  lemma AppendedLen(ds: seq<DiskEntry>, d: DiskEntry)
    ensures DiskLen(ds + [d]) == DiskLen(ds) + d.pathLen && ds + [] == ds
  {
    assert (ds + [d])[..|ds|] == ds;
  }

  /** No running sum passes where the last entry ends. */
  lemma {:induction false} LayoutBoundsSums(meta: seq<EntryMeta>, n: nat)
    requires Layout(meta, n) && meta != []
    ensures DiskLen(LiveDisk(meta)) <= meta[|meta| - 1].pathOffset + meta[|meta| - 1].pathLen
    decreases |meta|
  {
    var front, m := meta[..|meta| - 1], meta[|meta| - 1];
    assert meta == front + [m] && DiskOf(m).pathLen == m.pathLen;
    assert front == [] ==> DiskLen(LiveDisk(front)) == 0;
    hide Layout, DiskLen, LiveDisk, DiskOf;
    AppendedDisk(front, m);
    AppendedLen(LiveDisk(front), DiskOf(m));
    if front != [] {
      LayoutBoundsSums(front, n);
    }
  }

  lemma {:induction false} NamesInsidePaths(loc: Locale, p: Pool, meta: seq<EntryMeta>)
    requires forall i :: 0 <= i < |meta| ==> EntryOk(loc, p, meta[i])
    ensures forall k :: 0 <= k < |LiveDisk(meta)| ==> LiveDisk(meta)[k].nameStart <= LiveDisk(meta)[k].pathLen
  {
    if meta != [] {
      assert EntryOk(loc, p, meta[|meta| - 1]);
      NamesInsidePaths(loc, p, meta[..|meta| - 1]);
    }
  }

  lemma WellFormedLayout(loc: Locale, p: Pool)
    requires WellFormed(loc, p)
    ensures Layout(p.meta, |p.pathPool|)
  {
    forall i | 0 <= i < |p.meta| ensures p.meta[i].pathOffset + p.meta[i].pathLen <= |p.pathPool| {
      assert EntryOk(loc, p, p.meta[i]);
    }
    forall i, j | 0 <= i < j < |p.meta|
      ensures p.meta[i].pathOffset + p.meta[i].pathLen <= p.meta[j].pathOffset
    {
      assert Before(p.meta[i], p.meta[j]);
    }
  }

  /** A well-formed pool can always be loaded back. */
  lemma WellFormedIsLoadable(loc: Locale, p: Pool)
    requires WellFormed(loc, p) && HasRoom(p) && |p.meta| < U32_LIMIT
    ensures Loadable(p)
  {
    LiveSumInside(loc, p);
    NamesOk(loc, p);
    hide WellFormed, LiveDisk, DiskLen;
  }

  lemma LiveSumInside(loc: Locale, p: Pool)
    requires WellFormed(loc, p)
    ensures DiskLen(LiveDisk(p.meta)) <= |p.pathPool|
  {
    if p.meta == [] {
      assert LiveDisk(p.meta) == [];
    } else {
      WellFormedLayout(loc, p);
      hide WellFormed, LiveDisk, DiskLen;
      LayoutBoundsSums(p.meta, |p.pathPool|);
    }
  }

  lemma NamesOk(loc: Locale, p: Pool)
    requires WellFormed(loc, p)
    ensures forall k :: 0 <= k < |LiveDisk(p.meta)| ==> LiveDisk(p.meta)[k].nameStart <= LiveDisk(p.meta)[k].pathLen
  {
    hide EntryOk, LiveDisk;
    NamesInsidePaths(loc, p, p.meta);
  }

  // ---------------------------------------------------------------- density is the exact condition

  /** Saving and loading a dense pool gives back exactly its live records and its USN map. */
  lemma DenseRoundTrip(loc: Locale, p: Pool, order: seq<WString>, usn: map<WString, U64>, ts: U64,
                                          before: Outcome)
    requires WellFormed(loc, p) && HasRoom(p) && |p.meta| < U32_LIMIT && Dense(p.meta)
    requires IsOrder(order, usn) && UsnFits(usn) && before.usn == map[]
    ensures var o := Deserialized(loc, FileOf(p, order, usn, ts), before);
            o.status == Ok && o.usn == usn && Live(o.pool) == Live(p)
  {
    hide FileOf, Deserialized, SliceRecords, LiveDisk, LiveRecords, WellFormed, Dense;
    WellFormedIsLoadable(loc, p);
    LoadAfterSave(loc, p, order, usn, ts, before);
    DenseReadsSame(p.meta, p.pathPool);
    SlicesAreLiveIff(p.meta, p.pathPool);
  }

  /** Entry i reads the same text at the sum of the preceding live lengths as at its own offset. */
  ghost predicate ReadsSame(meta: seq<EntryMeta>, text: WString, i: nat)
    requires i < |meta|
  {
    meta[i].deleted
    || View(text, DiskLen(LiveDisk(meta[..i])), meta[i].pathLen) == View(text, meta[i].pathOffset, meta[i].pathLen)
  }

  lemma DenseReadsSame(meta: seq<EntryMeta>, text: WString)
    requires Dense(meta)
    ensures AllReadSame(meta, text)
  {
    hide DiskLen, LiveDisk;
  }

  lemma LastReadsSame(meta: seq<EntryMeta>, text: WString)
    requires meta != []
    ensures var front, n := meta[..|meta| - 1], |meta| - 1;
            SliceRecords(LiveDisk(meta), text) == LiveRecords(meta, text) <==>
              SliceRecords(LiveDisk(front), text) == LiveRecords(front, text) && ReadsSame(meta, text, n)
  {
    var front, m := meta[..|meta| - 1], meta[|meta| - 1];
    assert meta == front + [m];
    var before, after := SliceRecords(LiveDisk(front), text), LiveRecords(front, text);
    LiveCountsAgree(front, text);
    AppendedSlice(text, LiveDisk(front), DiskOf(m));
    AppendedDisk(front, m);
    AppendedRecord(text, front, m);
    hide LiveDisk, LiveRecords, SliceRecords, DiskLen, View;
    if m.deleted {
      assert LiveDisk(front) + [] == LiveDisk(front) && after + [] == after;
    } else {
      var x, y := SliceRecord(text, DiskLen(LiveDisk(front)), DiskOf(m)), RecordOf(text, m);
      assert (before + [x])[..|before|] == before && (after + [y])[..|after|] == after;
      assert (before + [x])[|before|] == x && (after + [y])[|after|] == y;
    }
  }

  lemma {:induction false} LiveCountsAgree(meta: seq<EntryMeta>, text: WString)
    ensures |LiveRecords(meta, text)| == |LiveDisk(meta)|
  {
    if meta != [] {
      LiveCountsAgree(meta[..|meta| - 1], text);
    }
  }

  ghost predicate AllReadSame(meta: seq<EntryMeta>, text: WString) {
    forall i :: 0 <= i < |meta| ==> ReadsSame(meta, text, i)
  }

  lemma AllReadSameStep(meta: seq<EntryMeta>, text: WString)
    requires meta != []
    ensures AllReadSame(meta, text) <==>
              AllReadSame(meta[..|meta| - 1], text) && ReadsSame(meta, text, |meta| - 1)
  {
    var front := meta[..|meta| - 1];
    forall i | 0 <= i < |front| ensures ReadsSame(front, text, i) <==> ReadsSame(meta, text, i) {
      assert front[..i] == meta[..i];
    }
    hide ReadsSame;
    if AllReadSame(front, text) && ReadsSame(meta, text, |meta| - 1) {
      forall i | 0 <= i < |meta| ensures ReadsSame(meta, text, i) {
        assert i < |front| ==> ReadsSame(front, text, i);
      }
    }
  }

  lemma {:induction false} SlicesAreLiveIff(meta: seq<EntryMeta>, text: WString)
    ensures SliceRecords(LiveDisk(meta), text) == LiveRecords(meta, text) <==> AllReadSame(meta, text)
  {
    if meta == [] {
      assert SliceRecords(LiveDisk(meta), text) == LiveRecords(meta, text);
    } else {
      hide *;
      SlicesAreLiveIff(meta[..|meta| - 1], text);
      LastReadsSame(meta, text);
      AllReadSameStep(meta, text);
    }
  }

  /**
   A saved pool loads back as its live records if and only if every live entry happens to read the
   same text at its running sum as at its offset.
   */
  lemma RoundTripIff(loc: Locale, p: Pool, order: seq<WString>, usn: map<WString, U64>, ts: U64, before: Outcome)
    requires WellFormed(loc, p) && HasRoom(p) && |p.meta| < U32_LIMIT
    requires IsOrder(order, usn) && UsnFits(usn) && before.usn == map[]
    ensures var o := Deserialized(loc, FileOf(p, order, usn, ts), before);
            o.status == Ok
            && (Live(o.pool) == Live(p) <==> AllReadSame(p.meta, p.pathPool))
  {
    hide FileOf, Deserialized, SliceRecords, LiveDisk, LiveRecords, WellFormed, Dense, AllReadSame;
    WellFormedIsLoadable(loc, p);
    LoadAfterSave(loc, p, order, usn, ts, before);
    SlicesAreLiveIff(p.meta, p.pathPool);
  }

  /**
   The round trip is the identity for every text the pool could hold if and only if the layout
   is dense: stored offsets of non-empty live entries are the running sums.
   */
  lemma RoundTripIffDense(meta: seq<EntryMeta>, n: nat)
    requires Layout(meta, n)
    ensures Dense(meta) <==>
            forall text: WString :: |text| == n ==>
              SliceRecords(LiveDisk(meta), text) == LiveRecords(meta, text)
  {
    if Dense(meta) {
      forall text: WString | |text| == n
        ensures SliceRecords(LiveDisk(meta), text) == LiveRecords(meta, text)
      {
        DenseReadsSame(meta, text);
        SlicesAreLiveIff(meta, text);
      }
    } else {
      var i :| 0 <= i < |meta| && !meta[i].deleted && meta[i].pathLen > 0
               && meta[i].pathOffset != DiskLen(LiveDisk(meta[..i]));
      var text := Marked(n, meta[i].pathOffset);
      MisreadEntry(meta, n, i);
      assert |text| == n && SliceRecords(LiveDisk(meta), text) != LiveRecords(meta, text);
    }
  }

  /** A text with a mark at one place only. */
  function Marked(n: nat, at: nat): (r: WString)
    ensures |r| == n && forall k :: 0 <= k < n ==> r[k] == if k == at then 1 else 0
  {
    seq(n, k => if k == at then 1 else 0)
  }

  lemma MisreadEntry(meta: seq<EntryMeta>, n: nat, i: nat)
    requires Layout(meta, n) && i < |meta| && !meta[i].deleted && meta[i].pathLen > 0
    requires meta[i].pathOffset != DiskLen(LiveDisk(meta[..i]))
    ensures var text := Marked(n, meta[i].pathOffset);
            SliceRecords(LiveDisk(meta), text) != LiveRecords(meta, text)
  {
    var text, at := Marked(n, meta[i].pathOffset), DiskLen(LiveDisk(meta[..i]));
    SumBeforeOffset(meta, n, i);
    assert meta[i].pathOffset + meta[i].pathLen <= n;
    hide Layout, DiskLen, LiveDisk, LiveRecords, SliceRecords, View;
    MarkIsSeen(n, meta[i].pathOffset, at, meta[i].pathLen);
    assert !ReadsSame(meta, text, i);
    SlicesAreLiveIff(meta, text);
  }

  lemma SumBeforeOffset(meta: seq<EntryMeta>, n: nat, i: nat)
    requires Layout(meta, n) && i < |meta|
    ensures DiskLen(LiveDisk(meta[..i])) <= meta[i].pathOffset
  {
    if i == 0 {
      assert LiveDisk(meta[..0]) == [];
    } else {
      var front := meta[..i];
      assert Layout(front, n) && front[i - 1] == meta[i - 1];
      assert meta[i - 1].pathOffset + meta[i - 1].pathLen <= meta[i].pathOffset;
      hide Layout, DiskLen, LiveDisk;
      LayoutBoundsSums(front, n);
    }
  }

  /** Two slices that start at different places differ when one starts at the mark and the other before it. */
  lemma MarkIsSeen(n: nat, mark: nat, at: nat, len: nat)
    requires 0 < len && at < mark && mark + len <= n
    ensures View(Marked(n, mark), at, len) != View(Marked(n, mark), mark, len)
  {
    assert View(Marked(n, mark), at, len)[0] == 0;
    assert View(Marked(n, mark), mark, len)[0] == 1;
  }

  // ---------------------------------------------------------------- what keeps a pool dense

  /** No dead text: the live paths fill the path pool. */
  predicate NoDeadText(p: Pool) {
    |p.pathPool| == DiskLen(LiveDisk(p.meta))
  }

  /** Adding keeps density exactly when there is no dead text (or nothing is written). */
  lemma AddKeepsDenseIff(loc: Locale, p: Pool, e: FileEntry)
    requires Dense(p.meta) && HasRoom(p) && Storable(e)
    ensures Dense(Added(loc, p, e).meta) <==> e.path == [] || NoDeadText(p)
  {
    hide LiveDisk, DiskLen, LowerName;
    var q, n := Added(loc, p, e).meta, |p.meta|;
    OffsetsExact(loc, p, e);
    assert q[..n] == p.meta;
    assert forall i :: 0 <= i < n ==> q[..i] == p.meta[..i] && q[i] == p.meta[i];
    assert q[n].pathOffset == |p.pathPool| && q[n].pathLen == |e.path| && !q[n].deleted;
  }

  /** Deleting entry i keeps density exactly when i is empty or no non-empty live entry follows. */
  lemma DeleteKeepsDenseIff(p: Pool, i: nat)
    requires Dense(p.meta) && i < |p.meta| && !p.meta[i].deleted
    ensures Dense(Tombstoned(p, i).meta) <==>
            p.meta[i].pathLen == 0
            || forall j :: i < j < |p.meta| && !p.meta[j].deleted ==> p.meta[j].pathLen == 0
  {
    hide LiveDisk, DiskLen;
    var q := Tombstoned(p, i).meta;
    forall j | 0 <= j < |q|
      ensures DiskLen(LiveDisk(q[..j])) + (if i < j then p.meta[i].pathLen else 0) == DiskLen(LiveDisk(p.meta[..j]))
    {
      SumWithout(p.meta, i, j);
    }
    assert forall j :: 0 <= j < |q| && j != i ==> q[j] == p.meta[j];
    if p.meta[i].pathLen > 0 && exists j :: i < j < |p.meta| && !p.meta[j].deleted && p.meta[j].pathLen > 0 {
      var j :| i < j < |p.meta| && !p.meta[j].deleted && p.meta[j].pathLen > 0;
      assert q[j].pathOffset != DiskLen(LiveDisk(q[..j]));
    }
  }

  lemma {:induction false} SumWithout(meta: seq<EntryMeta>, i: nat, j: nat)
    requires i < |meta| && !meta[i].deleted && j <= |meta|
    ensures var q := meta[i := meta[i].(deleted := true)];
            DiskLen(LiveDisk(q[..j])) + (if i < j then meta[i].pathLen else 0) == DiskLen(LiveDisk(meta[..j]))
    decreases j
  {
    hide LiveDisk, DiskLen;
    var q := meta[i := meta[i].(deleted := true)];
    if j > 0 {
      SumWithout(meta, i, j - 1);
      SumStep(meta, j - 1);
      SumStep(q, j - 1);
    } else {
      assert q[..j] == meta[..j];
    }
  }

  lemma SumStep(meta: seq<EntryMeta>, i: nat)
    requires i < |meta|
    ensures DiskLen(LiveDisk(meta[..i + 1]))
         == DiskLen(LiveDisk(meta[..i])) + (if meta[i].deleted then 0 else meta[i].pathLen)
  {
    assert meta[..i + 1][..i] == meta[..i];
    var front := LiveDisk(meta[..i]);
    assert (front + [DiskOf(meta[i])])[..|front|] == front;
    assert front + [] == front;
  }
}
