/**
 The binary index file: a 26-byte header and a CRC-protected payload. The file drops path
 offsets and the lowercase pool; loading rebuilds both from running sums, whether or not these are
 the offsets that were saved.
 */
module IndexSerializers {
  import opened Text
  import opened IndexPools
  import opened Crc32

  // ---------------------------------------------------------------- bytes

  /** The k low bytes of v, lowest first: a write of a k-byte integer, truncation included. */
  function LE(v: nat, k: nat): (r: seq<Byte>)
    ensures |r| == k
    decreases k, v
  {
    if k == 0 then [] else [v % 256] + LE(v / 256, k - 1)
  }

  function Limit(k: nat): nat {
    if k == 0 then 1 else 256 * Limit(k - 1)
  }

  /** The k-byte integer at position `at`. */
  function Field(b: seq<Byte>, at: nat, k: nat): (r: nat)
    requires at + k <= |b|
    ensures r < Limit(k)
    decreases k, at
  {
    if k == 0 then 0 else b[at] + 256 * Field(b, at + 1, k - 1)
  }

  function U16At(b: seq<Byte>, at: nat): U16
    requires at + 2 <= |b|
  {
    Field(b, at, 2)
  }

  function U32At(b: seq<Byte>, at: nat): U32
    requires at + 4 <= |b|
  {
    Field(b, at, 4)
  }

  function U64At(b: seq<Byte>, at: nat): U64
    requires at + 8 <= |b|
  {
    Field(b, at, 8)
  }

  /** UTF-16 little-endian. */
  function Wide(s: WString): (r: seq<Byte>)
    ensures |r| == 2 * |s|
  {
    if s == [] then [] else LE(s[0], 2) + Wide(s[1..])
  }

  function WideAt(b: seq<Byte>, at: nat, n: nat): (r: WString)
    requires at + 2 * n <= |b|
    ensures |r| == n
    decreases n
  {
    if n == 0 then [] else [U16At(b, at)] + WideAt(b, at + 2, n - 1)
  }

  /** The bytes x stand at position `at` of b. */
  ghost predicate At(b: seq<Byte>, at: nat, x: seq<Byte>)
    ensures At(b, at, x) ==> at + |x| <= |b| || x == []
    decreases |x|
  {
    x == [] || (at < |b| && b[at] == x[0] && At(b, at + 1, x[1..]))
  }

  lemma {:induction false} AtSplit(b: seq<Byte>, at: nat, x: seq<Byte>, y: seq<Byte>)
    requires At(b, at, x + y)
    ensures At(b, at, x) && At(b, at + |x|, y)
    decreases |x|
  {
    if x == [] {
      assert x + y == y;
    } else {
      assert (x + y)[1..] == x[1..] + y;
      AtSplit(b, at + 1, x[1..], y);
    }
  }

  lemma {:induction false} AtMiddle(before: seq<Byte>, x: seq<Byte>, after: seq<Byte>)
    ensures At(before + x + after, |before|, x)
    decreases |x|
  {
    if x != [] {
      var next := before + [x[0]];
      assert before + x + after == next + x[1..] + after;
      AtMiddle(next, x[1..], after);
    }
  }

  /** Reading a k-byte integer gives back what was written. */
  lemma {:induction false} FieldAt(b: seq<Byte>, at: nat, k: nat, v: nat)
    requires At(b, at, LE(v, k)) && v < Limit(k) && at + k <= |b|
    ensures Field(b, at, k) == v
    decreases k
  {
    if k > 0 {
      assert LE(v, k)[1..] == LE(v / 256, k - 1);
      FieldAt(b, at + 1, k - 1, v / 256);
    }
  }

  lemma U16FieldAt(b: seq<Byte>, at: nat, v: U16)
    requires At(b, at, LE(v, 2))
    ensures U16At(b, at) == v
  {
    FieldAt(b, at, 2, v);
  }

  lemma U32FieldAt(b: seq<Byte>, at: nat, v: U32)
    requires At(b, at, LE(v, 4))
    ensures U32At(b, at) == v
  {
    FieldAt(b, at, 4, v);
  }

  lemma U64FieldAt(b: seq<Byte>, at: nat, v: U64)
    requires At(b, at, LE(v, 8))
    ensures U64At(b, at) == v
  {
    FieldAt(b, at, 8, v);
  }

  lemma {:induction false} WideRoundTrip(b: seq<Byte>, at: nat, s: WString)
    requires At(b, at, Wide(s)) && at + 2 * |s| <= |b|
    ensures WideAt(b, at, |s|) == s
    decreases |s|
  {
    if s != [] {
      AtSplit(b, at, LE(s[0], 2), Wide(s[1..]));
      U16FieldAt(b, at, s[0]);
      WideRoundTrip(b, at + 2, s[1..]);
    }
  }

  // ---------------------------------------------------------------- disk records

  datatype DiskEntry = DiskEntry(size: U64, lastModified: U64, attributes: U32, pathLen: U16, nameStart: U16)

  const DISK_ENTRY_SIZE: nat := 24

  function DiskOf(m: EntryMeta): DiskEntry {
    DiskEntry(m.size, m.lastModified, m.attributes, m.pathLen, m.nameStart)
  }

  /** Only live records are written. */
  function LiveDisk(meta: seq<EntryMeta>): seq<DiskEntry> {
    if meta == [] then []
    else
      LiveDisk(meta[..|meta| - 1])
      + (if meta[|meta| - 1].deleted then [] else [DiskOf(meta[|meta| - 1])])
  }

  function DiskBytes(d: DiskEntry): (r: seq<Byte>)
    ensures |r| == DISK_ENTRY_SIZE
  {
    LE(d.size, 8) + (LE(d.lastModified, 8) + (LE(d.attributes, 4) + (LE(d.pathLen, 2) + LE(d.nameStart, 2))))
  }

  function AllDiskBytes(ds: seq<DiskEntry>): (r: seq<Byte>)
    ensures |r| == DISK_ENTRY_SIZE * |ds|
  {
    if ds == [] then [] else AllDiskBytes(ds[..|ds| - 1]) + DiskBytes(ds[|ds| - 1])
  }

  function DiskAt(b: seq<Byte>, at: nat): DiskEntry
    requires at + DISK_ENTRY_SIZE <= |b|
  {
    DiskEntry(U64At(b, at), U64At(b, at + 8), U32At(b, at + 16), U16At(b, at + 20), U16At(b, at + 22))
  }

  function DisksAt(b: seq<Byte>, at: nat, n: nat): (r: seq<DiskEntry>)
    requires at + DISK_ENTRY_SIZE * n <= |b|
    ensures |r| == n
    decreases n
  {
    if n == 0 then [] else DisksAt(b, at, n - 1) + [DiskAt(b, at + DISK_ENTRY_SIZE * (n - 1))]
  }

  lemma DiskRoundTrip(b: seq<Byte>, at: nat, d: DiskEntry)
    requires At(b, at, DiskBytes(d))
    ensures DiskAt(b, at) == d
  {
    var e := LE(d.pathLen, 2) + LE(d.nameStart, 2);
    var f := LE(d.attributes, 4) + e;
    var g := LE(d.lastModified, 8) + f;
    AtSplit(b, at, LE(d.size, 8), g);
    AtSplit(b, at + 8, LE(d.lastModified, 8), f);
    AtSplit(b, at + 16, LE(d.attributes, 4), e);
    AtSplit(b, at + 20, LE(d.pathLen, 2), LE(d.nameStart, 2));
    U64FieldAt(b, at, d.size);
    U64FieldAt(b, at + 8, d.lastModified);
    U32FieldAt(b, at + 16, d.attributes);
    U16FieldAt(b, at + 20, d.pathLen);
    U16FieldAt(b, at + 22, d.nameStart);
  }

  /** Any leading part of the records reads back. */
  lemma {:induction false} DisksRoundTrip(b: seq<Byte>, at: nat, ds: seq<DiskEntry>, n: nat)
    requires At(b, at, AllDiskBytes(ds)) && n <= |ds| && at + DISK_ENTRY_SIZE * |ds| <= |b|
    ensures DisksAt(b, at, n) == ds[..n]
    decreases |ds|
  {
    if ds != [] {
      var front, d := ds[..|ds| - 1], ds[|ds| - 1];
      AtSplit(b, at, AllDiskBytes(front), DiskBytes(d));
      if n < |ds| {
        DisksRoundTrip(b, at, front, n);
        assert front[..n] == ds[..n];
      } else {
        DisksRoundTrip(b, at, front, n - 1);
        DiskRoundTrip(b, at + DISK_ENTRY_SIZE * (n - 1), d);
        assert ds[..n] == front[..n - 1] + [d];
      }
    }
  }

  // ---------------------------------------------------------------- the USN map

  /** An iteration order of the hash map. */
  ghost predicate IsOrder(order: seq<WString>, usn: map<WString, U64>) {
    && (forall i :: 0 <= i < |order| ==> order[i] in usn)
    && (forall root :: root in usn ==> root in order)
    && |order| == |usn|
  }

  function UsnBytes(order: seq<WString>, usn: map<WString, U64>): seq<Byte>
    requires forall i :: 0 <= i < |order| ==> order[i] in usn
  {
    if order == [] then [] else UsnEntryBytes(order[0], usn[order[0]]) + UsnBytes(order[1..], usn)
  }

  function UsnEntryBytes(root: WString, usn: U64): (r: seq<Byte>)
    ensures |r| == 2 + 2 * |root| + 8
  {
    LE(|root|, 2) + (Wide(root) + LE(usn, 8))
  }

  function UsnAt(b: seq<Byte>, at: nat, n: nat, m: map<WString, U64>): map<WString, U64>
    requires at <= |b|
    decreases n
  {
    if n == 0 || at + 2 > |b| then m
    else
      var len := U16At(b, at);
      if at + 2 + 2 * len + 8 > |b| then m
      else UsnAt(b, at + 2 + 2 * len + 8, n - 1, m[WideAt(b, at + 2, len) := U64At(b, at + 2 + 2 * len)])
  }

  /** The entries of `usn` for the given roots, stored over m one after the other. */
  ghost function Restored(order: seq<WString>, usn: map<WString, U64>, m: map<WString, U64>): map<WString, U64>
    requires forall i :: 0 <= i < |order| ==> order[i] in usn
    decreases |order|
  {
    if order == [] then m else Restored(order[1..], usn, m[order[0] := usn[order[0]]])
  }

  lemma {:induction false} RestoredAgrees(order: seq<WString>, usn: map<WString, U64>, m: map<WString, U64>)
    requires forall i :: 0 <= i < |order| ==> order[i] in usn
    requires forall root :: root in m ==> root in usn && m[root] == usn[root]
    ensures var r := Restored(order, usn, m);
            && (forall root :: root in r ==> root in usn && r[root] == usn[root])
            && (forall root :: root in m || root in order ==> root in r)
    decreases |order|
  {
    if order != [] {
      RestoredAgrees(order[1..], usn, m[order[0] := usn[order[0]]]);
      assert order == [order[0]] + order[1..];
    }
  }

  lemma RestoredIsWhole(order: seq<WString>, usn: map<WString, U64>)
    requires IsOrder(order, usn)
    ensures Restored(order, usn, map[]) == usn
  {
    RestoredAgrees(order, usn, map[]);
  }

  lemma {:induction false} UsnRoundTrip(
      b: seq<Byte>, at: nat, order: seq<WString>, usn: map<WString, U64>, m: map<WString, U64>)
    requires forall i :: 0 <= i < |order| ==> order[i] in usn && |order[i]| < U16_LIMIT
    requires at <= |b| && At(b, at, UsnBytes(order, usn))
    ensures UsnAt(b, at, |order|, m) == Restored(order, usn, m)
    decreases |order|
  {
    if order != [] {
      UsnFirst(b, at, order, usn, m);
      UsnRoundTrip(b, at + 2 + 2 * |order[0]| + 8, order[1..], usn, m[order[0] := usn[order[0]]]);
    }
  }

  lemma UsnEntryParts(b: seq<Byte>, at: nat, root: WString, usn: U64)
    requires At(b, at, UsnEntryBytes(root, usn)) && |root| < U16_LIMIT
    ensures U16At(b, at) == |root| && At(b, at + 2, Wide(root) + LE(usn, 8))
  {
    AtSplit(b, at, LE(|root|, 2), Wide(root) + LE(usn, 8));
    U16FieldAt(b, at, |root|);
  }

  lemma UsnEntryRoundTrip(b: seq<Byte>, at: nat, root: WString, usn: U64, n: nat)
    requires At(b, at, UsnEntryBytes(root, usn)) && |root| < U16_LIMIT && n == at + 2 + 2 * |root|
    ensures U16At(b, at) == |root| && WideAt(b, at + 2, |root|) == root
    ensures n + 8 <= |b| && U64At(b, n) == usn
  {
    hide *;
    UsnEntryParts(b, at, root, usn);
    TextThenField(b, at + 2, Wide(root), n, usn);
    WideRoundTrip(b, at + 2, root);
  }

  lemma TextThenField(b: seq<Byte>, at: nat, text: seq<Byte>, n: nat, v: U64)
    requires At(b, at, text + LE(v, 8)) && n == at + |text|
    ensures At(b, at, text) && n + 8 <= |b| && U64At(b, n) == v
  {
    AtSplit(b, at, text, LE(v, 8));
    U64FieldAt(b, n, v);
  }

  lemma UsnFirst(
      b: seq<Byte>, at: nat, order: seq<WString>, usn: map<WString, U64>, m: map<WString, U64>)
    requires order != [] && |order[0]| < U16_LIMIT
    requires forall i :: 0 <= i < |order| ==> order[i] in usn
    requires At(b, at, UsnBytes(order, usn)) && at <= |b|
    ensures var next := at + 2 + 2 * |order[0]| + 8;
            && next <= |b| && At(b, next, UsnBytes(order[1..], usn))
            && UsnAt(b, at, |order|, m) == UsnAt(b, next, |order| - 1, m[order[0] := usn[order[0]]])
  {
    hide At, LE, Wide, Field, WideAt, UsnEntryBytes, U16At, U64At;
    var root := order[0];
    AtSplit(b, at, UsnEntryBytes(root, usn[root]), UsnBytes(order[1..], usn));
    UsnEntryRoundTrip(b, at, root, usn[root], at + 2 + 2 * |root|);
  }

  // ---------------------------------------------------------------- what is written

  const MAGIC: nat := 0x5844_4957
  const VERSION: nat := 2
  const HEADER_SIZE: nat := 26

  function PayloadOf(p: Pool, order: seq<WString>, usn: map<WString, U64>): seq<Byte>
    requires forall i :: 0 <= i < |order| ==> order[i] in usn
  {
    LE(|p.pathPool|, 8) + (Wide(p.pathPool) + (AllDiskBytes(LiveDisk(p.meta))
                                               + (LE(|usn|, 4) + UsnBytes(order, usn))))
  }

  function HeaderOf(timestamp: U64, entryCount: nat, crc: U32): (r: seq<Byte>)
    ensures |r| == HEADER_SIZE
  {
    LE(MAGIC, 4) + (LE(VERSION, 2) + (LE(timestamp, 8) + (LE(entryCount, 8) + LE(crc, 4))))
  }

  function FileOf(p: Pool, order: seq<WString>, usn: map<WString, U64>, timestamp: U64): seq<Byte>
    requires forall i :: 0 <= i < |order| ==> order[i] in usn
  {
    var payload := PayloadOf(p, order, usn);
    HeaderOf(timestamp, |LiveDisk(p.meta)|, ToU32(Crc(payload))) + payload
  }

  /** Header writing over any payload and entry count. */
  function Sealed(timestamp: U64, entryCount: nat, payload: seq<Byte>): seq<Byte> {
    HeaderOf(timestamp, entryCount, ToU32(Crc(payload))) + payload
  }

  // ---------------------------------------------------------------- what is read

  datatype Build = Faulty | Built(meta: seq<EntryMeta>, nameLower: WString, run: U32)

  /** `static_cast<uint16_t>(pathLen - nameStart)` */
  function NameLen(d: DiskEntry): U16 {
    (d.pathLen - d.nameStart) % U16_LIMIT
  }

  /** The entry rebuilt from a disk record at the current running offsets. */
  function RebuiltEntry(d: DiskEntry, run: U32, nameLowerOffset: nat): EntryMeta {
    EntryMeta(d.size, d.lastModified, d.attributes, run, nameLowerOffset % U32_LIMIT,
              d.pathLen, NameLen(d), d.nameStart, false)
  }

  /** The name characters the second pass reads leave the path pool. */
  predicate ReadsOutside(text: WString, run: nat, d: DiskEntry) {
    NameLen(d) > 0 && run + d.nameStart + NameLen(d) > |text|
  }

  /** One step of the second pass. */
  function Extend(loc: Locale, text: WString, b: Build, d: DiskEntry): Build {
    match b
    case Faulty => Faulty
    case Built(meta, nl, run) =>
      if ReadsOutside(text, run, d) then Faulty
      else
        Built(meta + [RebuiltEntry(d, run, |nl|)],
              nl + loc.Fold(View(text, run + d.nameStart, NameLen(d))),
              (run + d.pathLen) % U32_LIMIT)
  }

  /** The second pass: offsets are running sums, the lowercase pool is folded from the path pool. */
  function Rebuild(loc: Locale, ds: seq<DiskEntry>, text: WString): (r: Build)
    ensures r.Built? ==> |r.meta| == |ds|
  {
    if ds == [] then Built([], [], 0)
    else Extend(loc, text, Rebuild(loc, ds[..|ds| - 1], text), ds[|ds| - 1])
  }

  datatype Status = Ok | Refused | Undefined

  /** The result of a load, with everything its out-parameters hold afterwards. */
  datatype Outcome = Outcome(status: Status, pool: Pool, usn: map<WString, U64>, timestamp: U64)

  /**
   `std::vector<EntryMeta>::max_size()` for 40-byte elements: reserving more throws, which no
   caller handles. The path pool cannot exceed 2^63 - 1 characters for the same reason.
   */
  const MAX_ENTRIES: nat := 0xFFFF_FFFF_FFFF_FFFF / 40

  const MAX_CHARS: nat := 0x7FFF_FFFF_FFFF_FFFF

  /** `pathPoolSize * sizeof(wchar_t)` in 64 bits. */
  function ByteCount(chars: U64): (r: nat)
    ensures chars <= MAX_CHARS ==> r == 2 * chars
  {
    (2 * chars) % 0x1_0000_0000_0000_0000
  }

  function UsnPart(b: seq<Byte>, at: nat, usn: map<WString, U64>): map<WString, U64>
    requires at <= |b|
  {
    if at + 4 <= |b| then UsnAt(b, at + 4, U32At(b, at), usn) else usn
  }

  /** The records at `at`, and the USN map behind them. */
  function ParseRecords(loc: Locale, b: seq<Byte>, at: nat, n: nat, text: WString, usn: map<WString, U64>, ts: U64)
    : Outcome
  {
    if at + DISK_ENTRY_SIZE * n > |b| then Outcome(Refused, Pool([], [], text), usn, ts)
    else
      match Rebuild(loc, DisksAt(b, at, n), text)
      case Faulty => Outcome(Undefined, EMPTY, usn, ts)
      case Built(meta, nl, _) =>
        Outcome(Ok, Pool(meta, nl, text), UsnPart(b, at + DISK_ENTRY_SIZE * n, usn), ts)
  }

  /** Reading the payload. `Undefined` marks an uncaught exception or a read outside a buffer. */
  function ParsePayload(loc: Locale, b: seq<Byte>, n: nat, usn: map<WString, U64>, ts: U64): Outcome {
    if |b| < 8 then Outcome(Refused, EMPTY, usn, ts)
    else
      var chars := U64At(b, 0);
      if 8 + ByteCount(chars) > |b| then Outcome(Refused, EMPTY, usn, ts)
      else if chars > MAX_CHARS || n > MAX_ENTRIES then Outcome(Undefined, EMPTY, usn, ts)
      else ParseRecords(loc, b, 8 + ByteCount(chars), n, WideAt(b, 8, chars), usn, ts)
  }

  predicate Accepted(file: seq<Byte>) {
    && |file| >= HEADER_SIZE && U32At(file, 0) == MAGIC && U16At(file, 4) == VERSION
    && ToU32(Crc(file[HEADER_SIZE..])) == U32At(file, 22)
  }

  function Deserialized(loc: Locale, file: seq<Byte>, before: Outcome): Outcome {
    if !Accepted(file) then before.(status := Refused)
    else ParsePayload(loc, file[HEADER_SIZE..], U64At(file, 14), before.usn, U64At(file, 6))
  }

  lemma HeaderFields(timestamp: U64, entryCount: U64, crc: U32, payload: seq<Byte>)
    ensures var f := HeaderOf(timestamp, entryCount, crc) + payload;
            && |f| == HEADER_SIZE + |payload| && f[HEADER_SIZE..] == payload
            && U32At(f, 0) == MAGIC && U16At(f, 4) == VERSION && U64At(f, 6) == timestamp
            && U64At(f, 14) == entryCount && U32At(f, 22) == crc
  {
    var h := HeaderOf(timestamp, entryCount, crc);
    var f := h + payload;
    AtMiddle([], h, payload);
    assert [] + h + payload == f;
    var c := LE(entryCount, 8) + LE(crc, 4);
    var t := LE(timestamp, 8) + c;
    AtSplit(f, 0, LE(MAGIC, 4), LE(VERSION, 2) + t);
    AtSplit(f, 4, LE(VERSION, 2), t);
    AtSplit(f, 6, LE(timestamp, 8), c);
    AtSplit(f, 14, LE(entryCount, 8), LE(crc, 4));
    U32FieldAt(f, 0, MAGIC);
    U16FieldAt(f, 4, VERSION);
    U64FieldAt(f, 6, timestamp);
    U64FieldAt(f, 14, entryCount);
    U32FieldAt(f, 22, crc);
  }

  // ---------------------------------------------------------------- the two routines

  function RecordBytes(m: EntryMeta): seq<Byte> {
    if m.deleted then [] else DiskBytes(DiskOf(m))
  }

  lemma LiveDiskStep(meta: seq<EntryMeta>, i: nat)
    requires i < |meta|
    ensures AllDiskBytes(LiveDisk(meta[..i + 1])) == AllDiskBytes(LiveDisk(meta[..i])) + RecordBytes(meta[i])
  {
    assert meta[..i + 1][..i] == meta[..i];
    var front := LiveDisk(meta[..i]);
    if meta[i].deleted {
      assert front + [] == front;
    } else {
      assert (front + [DiskOf(meta[i])])[..|front|] == front;
    }
  }

  lemma WriteStep(payload: seq<Byte>, meta: seq<EntryMeta>, i: nat, r: seq<Byte>)
    requires i < |meta| && r == payload + AllDiskBytes(LiveDisk(meta[..i]))
    ensures r + RecordBytes(meta[i]) == payload + AllDiskBytes(LiveDisk(meta[..i + 1]))
  {
    hide *;
    LiveDiskStep(meta, i);
  }

  lemma {:induction false} LiveDiskCount(meta: seq<EntryMeta>)
    ensures |LiveDisk(meta)| == LiveBefore(meta, |meta|)
  {
    if meta != [] {
      LiveDiskCount(meta[..|meta| - 1]);
      LiveBeforePrefix(meta, meta[..|meta| - 1], |meta| - 1);
    }
  }

  lemma {:induction false} UsnBytesAppend(order: seq<WString>, root: WString, usn: map<WString, U64>)
    requires root in usn && forall i :: 0 <= i < |order| ==> order[i] in usn
    ensures UsnBytes(order + [root], usn) == UsnBytes(order, usn) + UsnEntryBytes(root, usn[root])
  {
    if order == [] {
      assert (order + [root])[1..] == [];
      assert UsnBytes([], usn) == [];
    } else {
      assert (order + [root])[1..] == order[1..] + [root];
      UsnBytesAppend(order[1..], root, usn);
    }
  }

  method CountLive(meta: seq<EntryMeta>) returns (n: nat)
    ensures n == |LiveDisk(meta)|
  {
    n := 0;
    for i := 0 to |meta|
      invariant n == LiveBefore(meta, i)
    {
      if !meta[i].deleted {
        n := n + 1;
      }
    }
    LiveDiskCount(meta);
  }

  method WriteRecords(payload: seq<Byte>, meta: seq<EntryMeta>) returns (r: seq<Byte>)
    ensures r == payload + AllDiskBytes(LiveDisk(meta))
  {
    r := payload;
    for i := 0 to |meta|
      invariant r == payload + AllDiskBytes(LiveDisk(meta[..i]))
    {
      WriteStep(payload, meta, i, r);
      assert r + [] == r;
      if !meta[i].deleted {
        r := r + DiskBytes(DiskOf(meta[i]));
      }
    }
    assert meta[..|meta|] == meta;
  }

  /** The hash map is visited in an arbitrary order. */
  method WriteUsnMap(payload: seq<Byte>, usnMap: map<WString, U64>) returns (r: seq<Byte>, ghost order: seq<WString>)
    ensures IsOrder(order, usnMap) && r == payload + (LE(|usnMap|, 4) + UsnBytes(order, usnMap))
  {
    hide LE, Wide;
    r := payload + LE(|usnMap|, 4);
    ghost var start := r;
    order := [];
    var remaining := usnMap.Keys;
    while remaining != {}
      invariant remaining <= usnMap.Keys && |order| + |remaining| == |usnMap|
      invariant forall i :: 0 <= i < |order| ==> order[i] in usnMap
      invariant forall root :: root in usnMap ==> root in order || root in remaining
      invariant r == start + UsnBytes(order, usnMap)
      decreases |remaining|
    {
      var root :| root in remaining;
      UsnBytesAppend(order, root, usnMap);
      ghost var written := UsnBytes(order, usnMap);
      order := order + [root];
      var entry := LE(|root|, 2) + (Wide(root) + LE(usnMap[root], 8));
      r := r + entry;
      assert start + written + entry == start + (written + entry);
      remaining := remaining - {root};
    }
    assert start + UsnBytes(order, usnMap) == payload + (LE(|usnMap|, 4) + UsnBytes(order, usnMap));
  }

  method WritePayload(pool: IndexPool, usnMap: map<WString, U64>)
    returns (payload: seq<Byte>, ghost order: seq<WString>)
    ensures IsOrder(order, usnMap) && payload == PayloadOf(pool.Value(), order, usnMap)
  {
    var size, text := LE(|pool.pathPool|, 8), [];
    if |pool.pathPool| > 0 {
      text := Wide(pool.pathPool);
    }
    ghost var disk := AllDiskBytes(LiveDisk(pool.meta));
    payload := WriteRecords(size + text, pool.meta);
    payload, order := WriteUsnMap(payload, usnMap);
    Reassociate(size, text, disk, LE(|usnMap|, 4) + UsnBytes(order, usnMap));
  }

  /** Builds the file image. */
  method Serialize(pool: IndexPool, usnMap: map<WString, U64>, now: U64, crc: CrcTable)
    returns (file: seq<Byte>, ghost order: seq<WString>)
    requires crc.Valid()
    modifies crc, crc.table
    ensures crc.Valid() && IsOrder(order, usnMap)
    ensures file == FileOf(pool.Value(), order, usnMap, now)
  {
    ghost var p := pool.Value();
    var payload;
    payload, order := WritePayload(pool, usnMap);
    var liveCount := CountLive(pool.meta);
    var sum := crc.Crc32(payload);
    file := HeaderOf(now, liveCount, ToU32(sum)) + payload;
    assert pool.Value() == p;
  }

  lemma Reassociate<T>(a: seq<T>, b: seq<T>, c: seq<T>, d: seq<T>)
    ensures ((a + b) + c) + d == a + (b + (c + d))
  {
  }

  function TotalNameLen(ds: seq<DiskEntry>): nat {
    if ds == [] then 0 else TotalNameLen(ds[..|ds| - 1]) + NameLen(ds[|ds| - 1])
  }

  /** What the first pass leaves for record d. */
  function Provisional(d: DiskEntry, m: EntryMeta): bool {
    DiskOf(m) == d && m.nameLowerLen == NameLen(d) && !m.deleted
  }

  lemma {:induction false} TotalNameLenMonotone(ds: seq<DiskEntry>, i: nat)
    requires i <= |ds|
    ensures TotalNameLen(ds[..i]) <= TotalNameLen(ds)
    decreases |ds|
  {
    if i < |ds| {
      assert ds[..|ds| - 1][..i] == ds[..i];
      TotalNameLenMonotone(ds[..|ds| - 1], i);
    } else {
      assert ds[..i] == ds;
    }
  }

  lemma {:induction false} FaultyStays(loc: Locale, ds: seq<DiskEntry>, text: WString, i: nat)
    requires i <= |ds| && Rebuild(loc, ds[..i], text).Faulty?
    ensures Rebuild(loc, ds, text).Faulty?
    decreases |ds|
  {
    if i < |ds| {
      assert ds[..|ds| - 1][..i] == ds[..i];
      FaultyStays(loc, ds[..|ds| - 1], text, i);
    } else {
      assert ds[..i] == ds;
    }
  }

  /** First pass: one provisional entry per record, and a lowercase pool of the right size. */
  method ReadRecords(pool: IndexPool, b: seq<Byte>, at: nat, n: nat)
    requires at + DISK_ENTRY_SIZE * n <= |b|
    requires pool.meta == [] && pool.nameLowerPool == []
    modifies pool
    ensures pool.pathPool == old(pool.pathPool)
    ensures var ds := DisksAt(b, at, n);
            && |pool.meta| == n && (forall k :: 0 <= k < n ==> Provisional(ds[k], pool.meta[k]))
            && |pool.nameLowerPool| == TotalNameLen(ds)
  {
    var p := at;
    for i := 0 to n
      invariant p == at + DISK_ENTRY_SIZE * i && pool.pathPool == old(pool.pathPool)
      invariant |pool.meta| == i
      invariant forall k :: 0 <= k < i ==> Provisional(DisksAt(b, at, i)[k], pool.meta[k])
      invariant |pool.nameLowerPool| == TotalNameLen(DisksAt(b, at, i))
    {
      var d := DiskAt(b, p);
      p := p + DISK_ENTRY_SIZE;
      assert DisksAt(b, at, i + 1)[..i] == DisksAt(b, at, i);
      pool.meta := pool.meta + [EntryMeta(d.size, d.lastModified, d.attributes, 0,
                                          |pool.nameLowerPool| % U32_LIMIT,
                                          d.pathLen, NameLen(d), d.nameStart, false)];
      pool.nameLowerPool := pool.nameLowerPool + seq(NameLen(d), i => 0);
    }
  }

  /** The inner loop: fold `len` name characters into place; false when a read leaves the pool. */
  method FoldName(pool: IndexPool, src: nat, dst: nat, len: nat) returns (ok: bool)
    requires dst + len <= |pool.nameLowerPool|
    modifies pool
    ensures pool.meta == old(pool.meta) && pool.pathPool == old(pool.pathPool)
    ensures ok <==> len == 0 || src + len <= |pool.pathPool|
    ensures ok ==> pool.nameLowerPool
                   == old(pool.nameLowerPool)[..dst] + pool.loc.Fold(View(pool.pathPool, src, len))
                      + old(pool.nameLowerPool)[dst + len..]
  {
    for c := 0 to len
      invariant pool.meta == old(pool.meta) && pool.pathPool == old(pool.pathPool)
      invariant |pool.nameLowerPool| == |old(pool.nameLowerPool)|
      invariant c > 0 ==> src + c <= |pool.pathPool|
      invariant forall k :: 0 <= k < |pool.nameLowerPool| ==>
                  pool.nameLowerPool[k] == if dst <= k < dst + c then pool.loc.lower(pool.pathPool[src + k - dst])
                                           else old(pool.nameLowerPool)[k]
    {
      if src + c >= |pool.pathPool| {
        return false;
      }
      pool.nameLowerPool := pool.nameLowerPool[dst + c := pool.loc.lower(pool.pathPool[src + c])];
    }
    ok := true;
  }

  lemma RebuildStep(loc: Locale, ds: seq<DiskEntry>, text: WString, i: nat)
    requires i < |ds|
    ensures Rebuild(loc, ds[..i + 1], text) == Extend(loc, text, Rebuild(loc, ds[..i], text), ds[i])
  {
    assert ds[..i + 1][..i] == ds[..i];
  }

  lemma TotalNameLenStep(ds: seq<DiskEntry>, i: nat)
    requires i < |ds|
    ensures TotalNameLen(ds[..i + 1]) == TotalNameLen(ds[..i]) + NameLen(ds[i]) <= TotalNameLen(ds)
  {
    assert ds[..i + 1][..i] == ds[..i];
    TotalNameLenMonotone(ds, i + 1);
  }

  /** What holds before record i of the second pass. */
  ghost predicate HalfFixed(pool: IndexPool, ds: seq<DiskEntry>, i: nat, run: nat, nl: nat)
    requires i <= |ds|
    reads pool
  {
    var built := Rebuild(pool.loc, ds[..i], pool.pathPool);
    && |pool.meta| == |ds| && |pool.nameLowerPool| == TotalNameLen(ds)
    && built.Built? && pool.meta[..i] == built.meta && run == built.run
    && nl == |built.nameLower| == TotalNameLen(ds[..i]) && nl <= |pool.nameLowerPool|
    && pool.nameLowerPool[..nl] == built.nameLower
    && (forall k :: i <= k < |ds| ==> Provisional(ds[k], pool.meta[k]))
  }

  lemma HalfFixedStart(pool: IndexPool, ds: seq<DiskEntry>)
    requires |pool.meta| == |ds| && forall k :: 0 <= k < |ds| ==> Provisional(ds[k], pool.meta[k])
    requires |pool.nameLowerPool| == TotalNameLen(ds)
    ensures HalfFixed(pool, ds, 0, 0, 0)
  {
    assert ds[..0] == [];
  }

  /** One record of the second pass. */
  method FixRecord(pool: IndexPool, ghost ds: seq<DiskEntry>, i: nat, run: U32, nl: nat) returns (ok: bool)
    requires i < |ds| && HalfFixed(pool, ds, i, run, nl)
    modifies pool
    ensures pool.pathPool == old(pool.pathPool) && |pool.meta| == |ds|
    ensures !ok ==> Rebuild(pool.loc, ds[..i + 1], pool.pathPool).Faulty?
    ensures ok ==> pool.meta[i].pathLen == ds[i].pathLen && pool.meta[i].nameLowerLen == NameLen(ds[i])
    ensures ok ==> HalfFixed(pool, ds, i + 1, (run + ds[i].pathLen) % U32_LIMIT, nl + NameLen(ds[i]))
  {
    hide Rebuild, TotalNameLen;
    RebuildStep(pool.loc, ds, pool.pathPool, i);
    TotalNameLenStep(ds, i);
    var m := pool.meta[i].(pathOffset := run, nameLowerOffset := nl % U32_LIMIT);
    assert m == RebuiltEntry(ds[i], run, nl);
    ghost var before := pool.nameLowerPool;
    pool.meta := pool.meta[i := m];
    ok := FoldName(pool, run + m.nameStart, nl, m.nameLowerLen);
    if ok {
      ghost var name := pool.loc.Fold(View(pool.pathPool, run + m.nameStart, m.nameLowerLen));
      assert |name| == m.nameLowerLen;
      assert pool.nameLowerPool[..nl + m.nameLowerLen] == before[..nl] + name;
    }
  }

  /** Second pass: running offsets, and the lowercase names from the path pool. */
  method FixOffsets(pool: IndexPool, ghost ds: seq<DiskEntry>) returns (ok: bool)
    requires |pool.meta| == |ds| && forall k :: 0 <= k < |ds| ==> Provisional(ds[k], pool.meta[k])
    requires |pool.nameLowerPool| == TotalNameLen(ds)
    modifies pool
    ensures pool.pathPool == old(pool.pathPool)
    ensures match Rebuild(pool.loc, ds, pool.pathPool)
            case Faulty => !ok
            case Built(meta, nl, _) => ok && pool.meta == meta && pool.nameLowerPool == nl
  {
    hide Rebuild, TotalNameLen, Provisional;
    var runningPathOffset, runningNlOffset := 0, 0;
    HalfFixedStart(pool, ds);
    for i := 0 to |pool.meta|
      invariant |pool.meta| == |ds| && pool.pathPool == old(pool.pathPool)
      invariant 0 <= runningPathOffset < U32_LIMIT && 0 <= runningNlOffset
      invariant HalfFixed(pool, ds, i, runningPathOffset, runningNlOffset)
    {
      ok := FixRecord(pool, ds, i, runningPathOffset, runningNlOffset);
      if !ok {
        FaultyStays(pool.loc, ds, pool.pathPool, i + 1);
        return;
      }
      runningPathOffset := (runningPathOffset + pool.meta[i].pathLen) % U32_LIMIT;
      runningNlOffset := runningNlOffset + pool.meta[i].nameLowerLen;
    }
    assert ds[..|ds|] == ds;
    ok := true;
  }

  method ReadUsnMap(b: seq<Byte>, at: nat, usnMap: map<WString, U64>) returns (r: map<WString, U64>)
    requires at <= |b|
    ensures r == UsnPart(b, at, usnMap)
  {
    r := usnMap;
    var p := at;
    if p + 4 <= |b| {
      var usnCount := U32At(b, p);
      p := p + 4;
      for i := 0 to usnCount
        invariant at + 4 <= p <= |b|
        invariant UsnAt(b, p, usnCount - i, r) == UsnPart(b, at, usnMap)
      {
        if p + 2 > |b| {
          break;
        }
        var rootLen: nat := U16At(b, p);
        p := p + 2;
        if p + 2 * rootLen + 8 > |b| {
          break;
        }
        var root := WideAt(b, p, rootLen);
        p := p + 2 * rootLen;
        r := r[root := U64At(b, p)];
        p := p + 8;
      }
    }
  }

  /** Both passes over the n records at `at`. */
  method ReadEntries(pool: IndexPool, b: seq<Byte>, at: nat, n: nat) returns (ok: bool)
    requires at + DISK_ENTRY_SIZE * n <= |b|
    requires pool.meta == [] && pool.nameLowerPool == []
    modifies pool
    ensures pool.pathPool == old(pool.pathPool)
    ensures match Rebuild(pool.loc, DisksAt(b, at, n), pool.pathPool)
            case Faulty => !ok
            case Built(meta, nl, _) => ok && pool.meta == meta && pool.nameLowerPool == nl
  {
    ReadRecords(pool, b, at, n);
    ok := FixOffsets(pool, DisksAt(b, at, n));
  }

  method ReadRecordsAndUsn(b: seq<Byte>, at: nat, n: nat, pool: IndexPool, usnMap: map<WString, U64>, ghost ts: U64)
    returns (status: Status, usn: map<WString, U64>)
    requires pool.meta == [] && pool.nameLowerPool == []
    modifies pool
    ensures var o := ParseRecords(pool.loc, b, at, n, old(pool.pathPool), usnMap, ts);
            status == o.status && (status != Undefined ==> pool.Value() == o.pool && usn == o.usn)
  {
    usn := usnMap;
    if at + DISK_ENTRY_SIZE * n > |b| {
      return Refused, usn;
    }
    var ok := ReadEntries(pool, b, at, n);
    if !ok {
      return Undefined, usn;
    }
    usn := ReadUsnMap(b, at + DISK_ENTRY_SIZE * n, usn);
    return Ok, usn;
  }

  method ReadPayload(payload: seq<Byte>, entryCount: U64, pool: IndexPool, usnMap: map<WString, U64>, ghost ts: U64)
    returns (status: Status, usn: map<WString, U64>)
    modifies pool
    ensures var o := ParsePayload(pool.loc, payload, entryCount, usnMap, ts);
            status == o.status && (status != Undefined ==> pool.Value() == o.pool && usn == o.usn)
  {
    hide ParseRecords, WideAt, U64At, ByteCount;
    usn := usnMap;
    pool.Clear();
    if |payload| < 8 {
      return Refused, usn;
    }
    var pathPoolSize := U64At(payload, 0);
    var pathPoolBytes := ByteCount(pathPoolSize);
    if 8 + pathPoolBytes > |payload| {
      return Refused, usn;
    }
    if pathPoolSize > MAX_CHARS || entryCount > MAX_ENTRIES {
      return Undefined, usn;
    }
    pool.pathPool := WideAt(payload, 8, pathPoolSize);
    status, usn := ReadRecordsAndUsn(payload, 8 + pathPoolBytes, entryCount, pool, usn, ts);
  }

  /** Reads a file image into the pool. The pool is written as soon as the checksum is accepted. */
  method Deserialize(file: seq<Byte>, pool: IndexPool, usnMap: map<WString, U64>, timestamp: U64, crc: CrcTable)
    returns (status: Status, usn: map<WString, U64>, ts: U64)
    requires crc.Valid()
    modifies pool, crc, crc.table
    ensures crc.Valid()
    ensures var o := Deserialized(pool.loc, file, Outcome(Ok, old(pool.Value()), usnMap, timestamp));
            status == o.status && (status != Undefined ==> pool.Value() == o.pool && usn == o.usn && ts == o.timestamp)
  {
    hide ParsePayload, Crc, ToU32, U64At, U32At, U16At;
    usn, ts := usnMap, timestamp;
    if |file| < HEADER_SIZE {
      return Refused, usn, ts;
    }
    if U32At(file, 0) != MAGIC {
      return Refused, usn, ts;
    }
    if U16At(file, 4) != VERSION {
      return Refused, usn, ts;
    }
    var payload := file[HEADER_SIZE..];
    var sum := crc.Crc32(payload);
    if ToU32(sum) != U32At(file, 22) {
      return Refused, usn, ts;
    }
    ts := U64At(file, 6);
    TimestampKept(pool.loc, payload, U64At(file, 14), usn, ts);
    status, usn := ReadPayload(payload, U64At(file, 14), pool, usn, ts);
  }

  lemma TimestampKept(loc: Locale, b: seq<Byte>, n: nat, usn: map<WString, U64>, ts: U64)
    ensures ParsePayload(loc, b, n, usn, ts).timestamp == ts
  {
  }
}
