/**
 The index file byte by byte, and what a load makes of a file that ends early.
 */
module FileLayouts {
  import opened Text
  import opened IndexPools
  import opened Crc32
  import opened IndexSerializers
  import opened RoundTrips
  import opened Corruption
  import opened RunningSums
  import opened ByteLayouts

  // ---------------------------------------------------------------- the whole file

  /** "WIDX", version 2, the time, the number of live records, the CRC of what follows. */
  ghost predicate HeaderStands(f: seq<Byte>, timestamp: U64, count: nat, payload: seq<Byte>) {
    && |f| >= 26 && f[..4] == [0x57, 0x49, 0x44, 0x58] && f[4..6] == [2, 0]
    && IntegerAt(f, 6, 8, timestamp) && IntegerAt(f, 14, 8, count) && IntegerAt(f, 22, 4, ToU32(Crc(payload)))
  }

  lemma HeaderIsWritten(timestamp: U64, count: nat, payload: seq<Byte>)
    ensures HeaderStands(Sealed(timestamp, count, payload), timestamp, count, payload)
    ensures Sealed(timestamp, count, payload)[26..] == payload
  {
    hide At, LE, IntegerAt, Crc, ToU32;
    var crc := ToU32(Crc(payload));
    var h := HeaderOf(timestamp, count, crc);
    var f := h + payload;
    AtMiddle([], h, payload);
    assert [] + h + payload == f;
    var c := LE(count, 8) + LE(crc, 4);
    var t := LE(timestamp, 8) + c;
    AtSplit(f, 0, LE(MAGIC, 4), LE(VERSION, 2) + t);
    AtSplit(f, 4, LE(VERSION, 2), t);
    AtSplit(f, 6, LE(timestamp, 8), c);
    AtSplit(f, 14, LE(count, 8), LE(crc, 4));
    IntegerStands(f, 0, 4, MAGIC);
    IntegerStands(f, 4, 2, VERSION);
    IntegerStands(f, 6, 8, timestamp);
    IntegerStands(f, 14, 8, count);
    IntegerStands(f, 22, 4, crc);
    Magic(f);
  }

  /** Where the records of p end in the payload. */
  function RecordsEnd(p: Pool): nat {
    8 + 2 * |p.pathPool| + 24 * |LiveDisk(p.meta)|
  }

  /** The parts of a written payload, one behind the other. */
  ghost predicate Parts(p: Pool, order: seq<WString>, usn: map<WString, U64>, b: seq<Byte>)
    requires forall i :: 0 <= i < |order| ==> order[i] in usn
  {
    && At(b, 0, LE(|p.pathPool|, 8)) && At(b, 8, Wide(p.pathPool))
    && At(b, 8 + 2 * |p.pathPool|, AllDiskBytes(LiveDisk(p.meta)))
    && At(b, RecordsEnd(p), LE(|usn|, 4)) && At(b, RecordsEnd(p) + 4, UsnBytes(order, usn))
    && |b| == RecordsEnd(p) + 4 + UsnSize(order)
  }

  lemma PayloadInParts(p: Pool, order: seq<WString>, usn: map<WString, U64>)
    requires forall i :: 0 <= i < |order| ==> order[i] in usn
    ensures Parts(p, order, usn, PayloadOf(p, order, usn))
  {
    hide LE, Wide, At, AllDiskBytes, UsnBytes, UsnSize, LiveDisk;
    var b := PayloadOf(p, order, usn);
    var n, ds := |p.pathPool|, LiveDisk(p.meta);
    UsnSizeIs(order, usn);
    AtStart(b);
    var roots := LE(|usn|, 4) + UsnBytes(order, usn);
    AtSplit(b, 0, LE(n, 8), Wide(p.pathPool) + (AllDiskBytes(ds) + roots));
    AtSplit(b, 8, Wide(p.pathPool), AllDiskBytes(ds) + roots);
    AtSplit(b, 8 + 2 * n, AllDiskBytes(ds), roots);
    AtSplit(b, RecordsEnd(p), LE(|usn|, 4), UsnBytes(order, usn));
  }

  /** Every byte of a saved file: its header, its text, each live record, each USN entry, and nothing else. */
  lemma FileBytes(p: Pool, order: seq<WString>, usn: map<WString, U64>, timestamp: U64)
    requires forall i :: 0 <= i < |order| ==> order[i] in usn
    ensures var f := FileOf(p, order, usn, timestamp);
            var b := f[26..];
            && HeaderStands(f, timestamp, |LiveDisk(p.meta)|, b)
            && |b| == RecordsEnd(p) + 4 + UsnSize(order)
            && IntegerAt(b, 0, 8, |p.pathPool|) && TextAt(b, 8, p.pathPool)
            && (forall i :: 0 <= i < |LiveDisk(p.meta)| ==>
                  RecordAt(b, 8 + 2 * |p.pathPool| + 24 * i, LiveDisk(p.meta)[i]))
            && IntegerAt(b, RecordsEnd(p), 4, |usn|)
            && forall i :: 0 <= i < |order| ==>
                 UsnEntryAt(b, RecordsEnd(p) + 4 + UsnSize(order[..i]), order[i], usn[order[i]])
  {
    hide LE, Wide, At, AllDiskBytes, UsnBytes, UsnSize, LiveDisk, HeaderOf, Crc, ToU32, IntegerAt, TextAt, RecordAt,
         UsnEntryAt, HeaderStands;
    var b := PayloadOf(p, order, usn);
    HeaderIsWritten(timestamp, |LiveDisk(p.meta)|, b);
    PayloadInParts(p, order, usn);
    hide PayloadOf;
    IntegerStands(b, 0, 8, |p.pathPool|);
    TextStands(b, 8, p.pathPool);
    forall i | 0 <= i < |LiveDisk(p.meta)|
      ensures RecordAt(b, 8 + 2 * |p.pathPool| + 24 * i, LiveDisk(p.meta)[i])
    {
      RecordsStand(b, 8 + 2 * |p.pathPool|, LiveDisk(p.meta), i);
    }
    IntegerStands(b, RecordsEnd(p), 4, |usn|);
    forall i | 0 <= i < |order|
      ensures UsnEntryAt(b, RecordsEnd(p) + 4 + UsnSize(order[..i]), order[i], usn[order[i]])
    {
      UsnEntriesStand(b, RecordsEnd(p) + 4, order, usn, i);
    }
  }

  /** Each live record is written with its metadata, in the order of the pool. */
  lemma {:induction false} LiveDiskFields(meta: seq<EntryMeta>, i: nat)
    requires i < |meta| && !meta[i].deleted
    ensures var k, m := |LiveDisk(meta[..i])|, meta[i];
            && k < |LiveDisk(meta)|
            && LiveDisk(meta)[k] == DiskEntry(m.size, m.lastModified, m.attributes, m.pathLen, m.nameStart)
    decreases |meta|
  {
    var n := |meta| - 1;
    if i < n {
      assert meta[..n][..i] == meta[..i];
      LiveDiskFields(meta[..n], i);
    }
  }

  // ---------------------------------------------------------------- a payload that ends early

  /** What a load makes of the first m bytes of the payload written for p. */
  ghost predicate CutOutcome(loc: Locale, o: Outcome, p: Pool, order: seq<WString>, usn: map<WString, U64>,
                             m: nat, before: map<WString, U64>)
    requires forall i :: 0 <= i < |order| ==> order[i] in usn
  {
    if m < RecordsEnd(p) then o.status == Refused && Live(o.pool) == [] && o.usn == before
    else
      && Reloaded(loc, o, p, |LiveDisk(p.meta)|)
      && o.usn == if m < RecordsEnd(p) + 4 then before
                  else Restored(order[..Fitting(order, m - RecordsEnd(p) - 4)], usn, before)
  }

  lemma CutRefused(loc: Locale, p: Pool, b: seq<Byte>, m: nat, before: map<WString, U64>, ts: U64)
    requires At(b, 0, LE(|p.pathPool|, 8)) && At(b, 8, Wide(p.pathPool)) && |p.pathPool| < U32_LIMIT
    requires m <= |b| && m < RecordsEnd(p) && |LiveDisk(p.meta)| < U32_LIMIT
    ensures var o := ParsePayload(loc, b[..m], |LiveDisk(p.meta)|, before, ts);
            o.status == Refused && Live(o.pool) == [] && o.usn == before
  {
    hide At, LE, Wide, LiveDisk, U64At, WideAt;
    var cut, n := b[..m], |p.pathPool|;
    if 8 <= m {
      AtPrefix(b, 0, LE(n, 8), m);
      U64FieldAt(cut, 0, n);
      if 8 + 2 * n <= m {
        AtPrefix(b, 8, Wide(p.pathPool), m);
        WideRoundTrip(cut, 8, p.pathPool);
        ParsedRefused(loc, cut, |LiveDisk(p.meta)|, p.pathPool, before, ts);
      } else {
        hide ParseRecords;
      }
    }
  }

  lemma CutIsWritten(p: Pool, b: seq<Byte>, m: nat)
    requires At(b, 0, LE(|p.pathPool|, 8)) && At(b, 8, Wide(p.pathPool)) && |p.pathPool| < U32_LIMIT
    requires At(b, 8 + 2 * |p.pathPool|, AllDiskBytes(LiveDisk(p.meta))) && Fits(LiveDisk(p.meta), p.pathPool)
    requires RecordsEnd(p) <= m <= |b|
    ensures Written(p, b[..m])
  {
    hide At, LE, Wide, LiveDisk, U64At, WideAt, AllDiskBytes, Fits;
    var n := |p.pathPool|;
    AtPrefix(b, 0, LE(n, 8), m);
    U64FieldAt(b[..m], 0, n);
    AtPrefix(b, 8, Wide(p.pathPool), m);
    WideRoundTrip(b[..m], 8, p.pathPool);
    AtPrefix(b, 8 + 2 * n, AllDiskBytes(LiveDisk(p.meta)), m);
  }

  lemma CutMap(b: seq<Byte>, at: nat, order: seq<WString>, usn: map<WString, U64>, was: map<WString, U64>, m: nat)
    requires IsOrder(order, usn) && UsnFits(usn) && at <= m <= |b|
    requires At(b, at, LE(|usn|, 4)) && At(b, at + 4, UsnBytes(order, usn))
    ensures UsnPart(b[..m], at, was)
            == if m < at + 4 then was else Restored(order[..Fitting(order, m - at - 4)], usn, was)
  {
    hide At, LE, U32At, UsnAt, UsnBytes, Restored, Fitting;
    if at + 4 <= m {
      AtPrefix(b, at, LE(|usn|, 4), m);
      U32FieldAt(b[..m], at, |usn|);
      CutUsn(b, at + 4, order, usn, was, m);
    }
  }

  /**
   A payload cut short anywhere, under a CRC of its own: it is refused while text or records are
   incomplete; from there on every record is read, and of the saved numbers those that are complete.
   */
  lemma CutPayloadLoads(loc: Locale, p: Pool, order: seq<WString>, usn: map<WString, U64>, m: nat,
                        ts: U64, before: Outcome)
    requires Loadable(p) && IsOrder(order, usn) && UsnFits(usn)
    requires m <= |PayloadOf(p, order, usn)|
    ensures var f := Sealed(ts, |LiveDisk(p.meta)|, PayloadOf(p, order, usn)[..m]);
            CutOutcome(loc, Deserialized(loc, f, before), p, order, usn, m, before.usn)
  {
    hide PayloadOf, Deserialized, LiveDisk, ParsePayload, Sealed, At, LE, Wide, AllDiskBytes, UsnBytes, Fits, Reloaded,
         Restored, Fitting, UsnPart, UsnSize, Written;
    var b, n := PayloadOf(p, order, usn), |LiveDisk(p.meta)|;
    PoolIsSmall(p, usn);
    PayloadInParts(p, order, usn);
    SealedIsAccepted(loc, ts, n, b[..m], before);
    if m < RecordsEnd(p) {
      CutRefused(loc, p, b, m, before.usn, ts);
    } else {
      CutAccepted(loc, p, order, usn, b, m, ts, before.usn);
    }
  }

  lemma CutAccepted(loc: Locale, p: Pool, order: seq<WString>, usn: map<WString, U64>, b: seq<Byte>, m: nat,
                    ts: U64, before: map<WString, U64>)
    requires Loadable(p) && IsOrder(order, usn) && UsnFits(usn)
    requires Parts(p, order, usn, b) && RecordsEnd(p) <= m <= |b|
    ensures CutOutcome(loc, ParsePayload(loc, b[..m], |LiveDisk(p.meta)|, before, ts), p, order, usn, m, before)
  {
    hide LiveDisk, ParsePayload, At, LE, Wide, AllDiskBytes, UsnBytes, Fits, Reloaded, Restored, Fitting, UsnPart,
         UsnSize, Written;
    PoolIsSmall(p, usn);
    CutIsWritten(p, b, m);
    WrittenParses(loc, p, b[..m], |LiveDisk(p.meta)|, before, ts);
    CutMap(b, RecordsEnd(p), order, usn, before, m);
  }
}
