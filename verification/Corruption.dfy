/**
 What a changed index file does to a load: which changes the checksum, the magic number and the
 version catch, and what the two unguarded header fields can do.
 */
module Corruption {
  import opened Text
  import opened IndexPools
  import opened Crc32
  import opened IndexSerializers
  import opened RunningSums
  import opened RoundTrips

  // ---------------------------------------------------------------- a changed payload

  /** Same length and same header, with the payload changed inside one window of 32 bits. */
  ghost predicate PayloadBurst(f: seq<Byte>, g: seq<Byte>, lo: nat, hi: nat) {
    && |f| == |g| >= HEADER_SIZE && f != g && f[..HEADER_SIZE] == g[..HEADER_SIZE]
    && lo <= hi <= 8 * (|f| - HEADER_SIZE) && hi - lo <= 32
    && forall i :: 0 <= i < 8 * (|f| - HEADER_SIZE) && !(lo <= i < hi) ==>
         MessageBits(f[HEADER_SIZE..])[i] == MessageBits(g[HEADER_SIZE..])[i]
  }

  lemma {:induction false} SameHeaderSameFields(f: seq<Byte>, g: seq<Byte>, at: nat, k: nat)
    requires |f| == |g| >= at + k && forall i :: at <= i < at + k ==> f[i] == g[i]
    ensures Field(f, at, k) == Field(g, at, k)
    decreases k
  {
    if k > 0 {
      SameHeaderSameFields(f, g, at + 1, k - 1);
    }
  }

  /** Every burst of at most 32 changed payload bits is refused, and the load changes nothing. */
  lemma PayloadBurstRefused(
      loc: Locale, f: seq<Byte>, g: seq<Byte>, lo: nat, hi: nat, before: Outcome)
    requires Accepted(f) && PayloadBurst(f, g, lo, hi)
    ensures Deserialized(loc, g, before) == before.(status := Refused)
  {
    hide Crc, MessageBits, ParsePayload, ToU32;
    var x, y := f[HEADER_SIZE..], g[HEADER_SIZE..];
    assert f == f[..HEADER_SIZE] + x && g == g[..HEADER_SIZE] + y;
    BitBurstDetected(x, y, lo, hi);
    forall i | 22 <= i < 26 ensures f[i] == g[i] {
      assert f[..HEADER_SIZE][i] == g[..HEADER_SIZE][i];
    }
    SameHeaderSameFields(f, g, 22, 4);
    if ToU32(Crc(x)) == ToU32(Crc(y)) {
      ToU32Injective(Crc(x), Crc(y));
    }
  }

  /** The special case of four consecutive bytes. */
  lemma FourByteBurstRefused(loc: Locale, f: seq<Byte>, g: seq<Byte>, lo: nat, before: Outcome)
    requires Accepted(f) && |f| == |g| && f != g && HEADER_SIZE <= lo
    requires forall i :: 0 <= i < |f| && !(lo <= i < lo + 4) ==> f[i] == g[i]
    ensures Deserialized(loc, g, before) == before.(status := Refused)
  {
    hide Crc, MessageBits, ParsePayload, ToU32;
    var x, y := f[HEADER_SIZE..], g[HEADER_SIZE..];
    var i :| 0 <= i < |f| && f[i] != g[i];
    assert x[i - HEADER_SIZE] != y[i - HEADER_SIZE];
    FourByteBurstDetected(x, y, lo - HEADER_SIZE);
    SameHeaderSameFields(f, g, 22, 4);
    if ToU32(Crc(x)) == ToU32(Crc(y)) {
      ToU32Injective(Crc(x), Crc(y));
    }
  }

  lemma {:induction false} FieldDiffers(f: seq<Byte>, g: seq<Byte>, at: nat, k: nat, i: nat)
    requires at + k <= |f| == |g| && at <= i < at + k && f[i] != g[i]
    ensures Field(f, at, k) != Field(g, at, k)
    decreases k
  {
    if i > at {
      FieldDiffers(f, g, at + 1, k - 1, i);
    }
  }

  // ---------------------------------------------------------------- exactly which changes are refused

  /** The stored checksum as a word. */
  function StoredWord(f: seq<Byte>): Word
    requires |f| >= HEADER_SIZE
  {
    Bits(U32At(f, 22), 32)
  }

  lemma StoredIsCrc(f: seq<Byte>, x: seq<Byte>)
    requires |f| >= HEADER_SIZE
    ensures ToU32(Crc(x)) == U32At(f, 22) <==> Crc(x) == StoredWord(f)
  {
    hide Crc;
    Powers();
    ValueBits(U32At(f, 22), 32);
    BitsValue(Crc(x));
  }

  /** The change to the payload, and to the stored checksum. */
  function PayloadChange(f: seq<Byte>, g: seq<Byte>): seq<bool>
    requires |f| == |g| >= HEADER_SIZE
  {
    XorBits(MessageBits(f[HEADER_SIZE..]), MessageBits(g[HEADER_SIZE..]))
  }

  lemma MagicAndVersion(f: seq<Byte>, g: seq<Byte>)
    requires |f| == |g| >= HEADER_SIZE && U32At(f, 0) == MAGIC && U16At(f, 4) == VERSION
    ensures U32At(g, 0) == MAGIC && U16At(g, 4) == VERSION <==> forall i :: 0 <= i < 6 ==> f[i] == g[i]
  {
    hide Field;
    if forall i :: 0 <= i < 6 ==> f[i] == g[i] {
      SameHeaderSameFields(f, g, 0, 4);
      SameHeaderSameFields(f, g, 4, 2);
    } else {
      var i :| 0 <= i < 6 && f[i] != g[i];
      if i < 4 {
        FieldDiffers(f, g, 0, 4, i);
      } else {
        FieldDiffers(f, g, 4, 2, i);
      }
    }
  }

  /**
   However an accepted file is changed, it is accepted again if and only if its first six bytes
   stand and the stored checksum changed by just what the zero register makes of the payload's
   change.
   */
  lemma ChangedFileAcceptedIff(f: seq<Byte>, g: seq<Byte>)
    requires Accepted(f) && |f| == |g|
    ensures Accepted(g) <==>
            && (forall i :: 0 <= i < 6 ==> f[i] == g[i])
            && Xor(StoredWord(f), StoredWord(g)) == Register(Zeros(32), PayloadChange(f, g))
  {
    hide Crc, MessageBits, ToU32, U32At, U16At, Bits, XorBits;
    var x, y := f[HEADER_SIZE..], g[HEADER_SIZE..];
    MagicAndVersion(f, g);
    StoredIsCrc(f, x);
    StoredIsCrc(g, y);
    CrcDifference(x, y);
    XorCancels(StoredWord(f), StoredWord(g), Crc(y));
  }

  /**
   With the payload as it was, a changed header is accepted if and only if the magic number, the
   version and the checksum stand: no change to the timestamp or the entry count is caught.
   */
  lemma GuardedHeaderIff(loc: Locale, f: seq<Byte>, g: seq<Byte>, before: Outcome)
    requires Accepted(f) && |f| == |g| && f[HEADER_SIZE..] == g[HEADER_SIZE..]
    ensures Accepted(g) <==> forall i :: 0 <= i < 6 || 22 <= i < HEADER_SIZE ==> f[i] == g[i]
    ensures !Accepted(g) ==> Deserialized(loc, g, before) == before.(status := Refused)
    ensures Accepted(g) ==>
              Deserialized(loc, g, before)
              == ParsePayload(loc, f[HEADER_SIZE..], U64At(g, 14), before.usn, U64At(g, 6))
  {
    hide Crc, ParsePayload, ToU32, Field;
    MagicAndVersion(f, g);
    if U32At(f, 22) == U32At(g, 22) {
      forall i | 22 <= i < HEADER_SIZE ensures f[i] == g[i] {
        if f[i] != g[i] {
          FieldDiffers(f, g, 22, 4, i);
        }
      }
    } else if forall i :: 22 <= i < HEADER_SIZE ==> f[i] == g[i] {
      SameHeaderSameFields(f, g, 22, 4);
    }
  }

  // ---------------------------------------------------------------- the unguarded entry count

  /** The offset the second pass gives record i. */
  function RunBefore(ds: seq<DiskEntry>, i: nat): nat
    requires i <= |ds|
  {
    DiskLen(ds[..i]) % U32_LIMIT
  }

  /** Some record's name lies outside the path pool. */
  predicate SomeReadsOutside(ds: seq<DiskEntry>, text: WString) {
    exists i :: 0 <= i < |ds| && ReadsOutside(text, RunBefore(ds, i), ds[i])
  }

  lemma ReadsOutsideStep(ds: seq<DiskEntry>, text: WString)
    requires ds != []
    ensures var front := ds[..|ds| - 1];
            SomeReadsOutside(ds, text) <==>
              SomeReadsOutside(front, text) || ReadsOutside(text, DiskLen(front) % U32_LIMIT, ds[|ds| - 1])
  {
    hide ReadsOutside, DiskLen;
    var n := |ds| - 1;
    var front := ds[..n];
    forall i | 0 <= i < n ensures RunBefore(front, i) == RunBefore(ds, i) && front[i] == ds[i] {
      assert front[..i] == ds[..i];
    }
    if i :| 0 <= i < n && ReadsOutside(text, RunBefore(front, i), front[i]) {
      assert ReadsOutside(text, RunBefore(ds, i), ds[i]);
    }
    assert RunBefore(ds, n) == DiskLen(front) % U32_LIMIT;
    if ReadsOutside(text, DiskLen(front) % U32_LIMIT, ds[n]) {
      assert ReadsOutside(text, RunBefore(ds, n), ds[n]);
    }
  }

  lemma ExtendFacts(loc: Locale, text: WString, b: Build, d: DiskEntry)
    ensures var c := Extend(loc, text, b, d);
            && (c.Faulty? <==> b.Faulty? || ReadsOutside(text, b.run, d))
            && (c.Built? ==> c.run == (b.run + d.pathLen) % U32_LIMIT)
  {
  }

  lemma NothingRead(loc: Locale, text: WString)
    ensures Rebuild(loc, [], text) == Built([], [], 0) && !SomeReadsOutside([], text) && DiskLen([]) % U32_LIMIT == 0
  {
  }

  lemma RebuildLast(loc: Locale, ds: seq<DiskEntry>, text: WString)
    requires ds != []
    ensures var front, d := ds[..|ds| - 1], ds[|ds| - 1];
            && Rebuild(loc, ds, text) == Extend(loc, text, Rebuild(loc, front, text), d)
            && DiskLen(ds) % U32_LIMIT == (DiskLen(front) % U32_LIMIT + d.pathLen) % U32_LIMIT
  {
    hide Extend, DiskLen, ReadsOutside, SomeReadsOutside;
    var front, d := ds[..|ds| - 1], ds[|ds| - 1];
    assert Rebuild(loc, ds, text) == Extend(loc, text, Rebuild(loc, front, text), d);
    hide Rebuild;
    LastLen(ds);
    SumWraps(DiskLen(front), d.pathLen);
  }

  lemma LastLen(ds: seq<DiskEntry>)
    requires ds != []
    ensures DiskLen(ds) == DiskLen(ds[..|ds| - 1]) + ds[|ds| - 1].pathLen
  {
  }

  lemma SumWraps(a: nat, b: nat)
    ensures (a % U32_LIMIT + b) % U32_LIMIT == (a + b) % U32_LIMIT
  {
  }

  /** The second pass reads outside the path pool exactly when some record's name lies there. */
  lemma {:induction false} FaultyIff(loc: Locale, ds: seq<DiskEntry>, text: WString)
    ensures Rebuild(loc, ds, text).Faulty? <==> SomeReadsOutside(ds, text)
    ensures Rebuild(loc, ds, text).Built? ==> Rebuild(loc, ds, text).run == DiskLen(ds) % U32_LIMIT
  {
    hide *;
    if ds == [] {
      NothingRead(loc, text);
    } else {
      var front, d := ds[..|ds| - 1], ds[|ds| - 1];
      RebuildLast(loc, ds, text);
      FaultyIff(loc, front, text);
      ReadsOutsideStep(ds, text);
      ExtendFacts(loc, text, Rebuild(loc, front, text), d);
    }
  }

  lemma ExtendMeta(loc: Locale, text: WString, b: Build, d: DiskEntry)
    requires Extend(loc, text, b, d).Built?
    ensures b.Built? && exists m: EntryMeta :: !m.deleted && Extend(loc, text, b, d).meta == b.meta + [m]
  {
    assert !RebuiltEntry(d, b.run, |b.nameLower|).deleted;
  }

  /** The first records come out as if the others were not there. */
  lemma {:induction false} RebuildPrefix(loc: Locale, ds: seq<DiskEntry>, text: WString, k: nat)
    requires k <= |ds| && Rebuild(loc, ds, text).Built?
    ensures Rebuild(loc, ds[..k], text).Built?
    ensures Rebuild(loc, ds[..k], text).meta == Rebuild(loc, ds, text).meta[..k]
    ensures forall i :: 0 <= i < |ds| ==> !Rebuild(loc, ds, text).meta[i].deleted
    decreases |ds|
  {
    hide *;
    if k == |ds| {
      assert ds[..k] == ds;
    }
    if ds == [] {
      NothingRead(loc, text);
    } else {
      var front := ds[..|ds| - 1];
      RebuildLast(loc, ds, text);
      ExtendMeta(loc, text, Rebuild(loc, front, text), ds[|ds| - 1]);
      RebuildPrefix(loc, front, text, if k < |ds| then k else k - 1);
      if k < |ds| {
        assert front[..k] == ds[..k];
      }
    }
  }

  lemma {:induction false} LiveRecordsPrefix(meta: seq<EntryMeta>, text: WString, k: nat)
    requires k <= |meta| && forall i :: 0 <= i < |meta| ==> !meta[i].deleted
    ensures |LiveRecords(meta, text)| == |meta|
    ensures LiveRecords(meta, text)[..k] == LiveRecords(meta[..k], text)
    decreases |meta|
  {
    if meta != [] {
      var front := meta[..|meta| - 1];
      LiveRecordsPrefix(front, text, if k < |meta| then k else k - 1);
      if k < |meta| {
        assert front[..k] == meta[..k];
      } else {
        assert meta[..k] == meta;
      }
    }
  }

  lemma {:induction false} DisksConcat(b: seq<Byte>, at: nat, m: nat, n: nat)
    requires at + DISK_ENTRY_SIZE * (m + n) <= |b|
    ensures DisksAt(b, at, m + n) == DisksAt(b, at, m) + DisksAt(b, at + DISK_ENTRY_SIZE * m, n)
    decreases n
  {
    if n > 0 {
      DisksConcat(b, at, m, n - 1);
    } else {
      assert DisksAt(b, at, m) + [] == DisksAt(b, at, m);
    }
  }


  /** Past the records written, what stands behind them is read as records: the USN map's bytes. */
  function RecordsRead(p: Pool, b: seq<Byte>, k: nat): seq<DiskEntry>
    requires var n := |LiveDisk(p.meta)|;
             n <= k && 8 + 2 * |p.pathPool| + DISK_ENTRY_SIZE * k <= |b|
  {
    var n := |LiveDisk(p.meta)|;
    LiveDisk(p.meta) + DisksAt(b, 8 + 2 * |p.pathPool| + DISK_ENTRY_SIZE * n, k - n)
  }

  /** The first records of what was built from ds + more are those of ds. */
  lemma OverrunRecords(loc: Locale, ds: seq<DiskEntry>, more: seq<DiskEntry>, text: WString)
    requires Fits(ds, text) && Rebuild(loc, ds + more, text).Built?
    ensures var rs := LiveRecords(Rebuild(loc, ds + more, text).meta, text);
            |rs| == |ds| + |more| && rs[..|ds|] == SliceRecords(ds, text)
  {
    hide Rebuild, Fits, LiveRecords, SliceRecords, LiveDisk, Dense, GoodBuild;
    var all := ds + more;
    assert all[..|ds|] == ds;
    RebuildPrefix(loc, all, text, |ds|);
    RebuildGivesSlices(loc, ds, text);
    LiveRecordsPrefix(Rebuild(loc, all, text).meta, text, |ds|);
  }

  lemma ParsedFacts(loc: Locale, b: seq<Byte>, k: nat, text: WString, usn: map<WString, U64>, ts: U64)
    requires 8 <= |b| && U64At(b, 0) == |text| < U32_LIMIT && k <= MAX_ENTRIES
    requires 8 + 2 * |text| + DISK_ENTRY_SIZE * k <= |b| && WideAt(b, 8, |text|) == text
    ensures var o := ParsePayload(loc, b, k, usn, ts); var c := Rebuild(loc, DisksAt(b, 8 + 2 * |text|, k), text);
            if c.Faulty? then o.status == Undefined
            else o.status == Ok && o.pool == Pool(c.meta, c.nameLower, text)
  {
    hide Rebuild, DisksAt, WideAt, U64At, UsnPart;
  }

  lemma ParsedRefused(loc: Locale, b: seq<Byte>, k: nat, text: WString, usn: map<WString, U64>, ts: U64)
    requires 8 + 2 * |text| <= |b| && U64At(b, 0) == |text| < U32_LIMIT && WideAt(b, 8, |text|) == text
    requires 8 + 2 * |text| + DISK_ENTRY_SIZE * k > |b|
    ensures var o := ParsePayload(loc, b, k, usn, ts);
            if k > MAX_ENTRIES then o.status == Undefined
            else o.status == Refused && Live(o.pool) == [] && o.usn == usn
  {
    hide Rebuild, DisksAt, WideAt, U64At, UsnPart;
  }

  lemma ParsedHuge(loc: Locale, b: seq<Byte>, k: nat, text: WString, usn: map<WString, U64>, ts: U64)
    requires 8 + 2 * |text| <= |b| && U64At(b, 0) == |text| < U32_LIMIT && k > MAX_ENTRIES
    ensures ParsePayload(loc, b, k, usn, ts).status == Undefined
  {
    hide U64At;
  }

  /** A read outside the path pool, or a list whose first part is right and whose rest is made of other bytes. */
  ghost predicate Overrun(o: Outcome, p: Pool, b: seq<Byte>, k: nat)
    requires var n := |LiveDisk(p.meta)|;
             n <= k && 8 + 2 * |p.pathPool| + DISK_ENTRY_SIZE * k <= |b|
  {
    var n := |LiveDisk(p.meta)|;
    if SomeReadsOutside(RecordsRead(p, b, k), p.pathPool) then o.status == Undefined
    else
      && o.status == Ok && |Live(o.pool)| == k
      && Live(o.pool)[..n] == SliceRecords(LiveDisk(p.meta), p.pathPool)
  }

  lemma BuiltOverrun(loc: Locale, o: Outcome, p: Pool, b: seq<Byte>, k: nat)
    requires |LiveDisk(p.meta)| <= k && 8 + 2 * |p.pathPool| + DISK_ENTRY_SIZE * k <= |b|
    requires Fits(LiveDisk(p.meta), p.pathPool)
    requires var c := Rebuild(loc, RecordsRead(p, b, k), p.pathPool);
             if c.Faulty? then o.status == Undefined
             else o.status == Ok && o.pool == Pool(c.meta, c.nameLower, p.pathPool)
    ensures Overrun(o, p, b, k)
  {
    hide Rebuild, DisksAt, SliceRecords, LiveRecords, LiveDisk, Fits, SomeReadsOutside;
    var n := |LiveDisk(p.meta)|;
    FaultyIff(loc, RecordsRead(p, b, k), p.pathPool);
    if Rebuild(loc, RecordsRead(p, b, k), p.pathPool).Built? {
      OverrunRecords(loc, LiveDisk(p.meta), DisksAt(b, 8 + 2 * |p.pathPool| + DISK_ENTRY_SIZE * n, k - n), p.pathPool);
    }
  }

  lemma ReadsWritten(p: Pool, b: seq<Byte>, k: nat)
    requires Written(p, b) && |LiveDisk(p.meta)| <= k && 8 + 2 * |p.pathPool| + DISK_ENTRY_SIZE * k <= |b|
    ensures DisksAt(b, 8 + 2 * |p.pathPool|, k) == RecordsRead(p, b, k)
  {
    hide DisksAt, LiveDisk, AllDiskBytes, WideAt, At, U64At, Fits;
    var n, at := |LiveDisk(p.meta)|, 8 + 2 * |p.pathPool|;
    DisksRoundTrip(b, at, LiveDisk(p.meta), n);
    assert LiveDisk(p.meta)[..n] == LiveDisk(p.meta);
    DisksConcat(b, at, n, k - n);
  }

  /** A count past the records written, when the bytes behind them are enough. */
  lemma OverrunParses(loc: Locale, p: Pool, b: seq<Byte>, k: nat, before: map<WString, U64>, ts: U64)
    requires Written(p, b) && |LiveDisk(p.meta)| < k <= MAX_ENTRIES
    requires 8 + 2 * |p.pathPool| + DISK_ENTRY_SIZE * k <= |b|
    ensures Overrun(ParsePayload(loc, b, k, before, ts), p, b, k)
  {
    hide ParsePayload, Rebuild, DisksAt, LiveDisk, WideAt, At, U64At, Fits, Overrun, AllDiskBytes, RecordsRead;
    ReadsWritten(p, b, k);
    ParsedFacts(loc, b, k, p.pathPool, before, ts);
    BuiltOverrun(loc, ParsePayload(loc, b, k, before, ts), p, b, k);
  }

  /** What a load makes of the payload written for p when the header claims k entries. */
  ghost predicate CountOutcome(loc: Locale, o: Outcome, p: Pool, b: seq<Byte>, k: nat, before: Outcome) {
    var n := |LiveDisk(p.meta)|;
    if k <= n then Reloaded(loc, o, p, k)
    else if k > MAX_ENTRIES then o.status == Undefined
    else if 8 + 2 * |p.pathPool| + DISK_ENTRY_SIZE * k > |b| then
      o.status == Refused && Live(o.pool) == [] && o.usn == before.usn
    else Overrun(o, p, b, k)
  }

  lemma LongCount(loc: Locale, p: Pool, b: seq<Byte>, k: nat, before: Outcome, ts: U64)
    requires Written(p, b) && |LiveDisk(p.meta)| < k
    ensures CountOutcome(loc, ParsePayload(loc, b, k, before.usn, ts), p, b, k, before)
  {
    hide ParsePayload, LiveDisk, WideAt, At, U64At, Fits, Overrun, AllDiskBytes, LiveRecords;
    if k > MAX_ENTRIES {
      ParsedHuge(loc, b, k, p.pathPool, before.usn, ts);
    } else if 8 + 2 * |p.pathPool| + DISK_ENTRY_SIZE * k > |b| {
      ParsedRefused(loc, b, k, p.pathPool, before.usn, ts);
    } else {
      OverrunParses(loc, p, b, k, before.usn, ts);
    }
  }

  /**
   The entry count and the timestamp lie outside the checksum. Whatever count k an accepted file
   claims over the payload of p's n records: up to n, the first k records load and nothing is
   reported; beyond n the file is refused with the index emptied, or the bytes of the USN map are
   read as records, or the load is undefined.
   */
  lemma EntryCountIsUnguarded(
      loc: Locale, p: Pool, order: seq<WString>, usn: map<WString, U64>, g: seq<Byte>, before: Outcome)
    requires Loadable(p) && IsOrder(order, usn) && UsnFits(usn)
    requires Accepted(g) && g[HEADER_SIZE..] == PayloadOf(p, order, usn)
    ensures var o := Deserialized(loc, g, before);
            && o.timestamp == U64At(g, 6)
            && CountOutcome(loc, o, p, PayloadOf(p, order, usn), U64At(g, 14), before)
  {
    var b, k, n := PayloadOf(p, order, usn), U64At(g, 14), |LiveDisk(p.meta)|;
    hide PayloadOf, LiveDisk, U64At, IsOrder, UsnFits, Loadable, Accepted, Written, ParsePayload;
    TimestampKept(loc, b, k, before.usn, U64At(g, 6));
    PoolIsSmall(p, usn);
    PayloadIsWritten(p, order, usn, b);
    if k <= n {
      ParseWritten(loc, p, order, usn, b, k, before.usn, U64At(g, 6));
      hide Reloaded;
    } else {
      hide CountOutcome;
      LongCount(loc, p, b, k, before, U64At(g, 6));
    }
  }
}
