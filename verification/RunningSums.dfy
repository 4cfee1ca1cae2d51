/**
 What the second pass of a load makes of each record. It gives the record the sum of the path
 lengths before it as its offset and the folded name it finds there; as long as every sum stays
 inside the text, the pool it builds is well formed, dense, and reads each record at its sum. One
 more record is one more slice.
 */
module RunningSums {
  import opened Text
  import opened IndexPools
  import opened IndexSerializers

  // ---------------------------------------------------------------- slices at running sums

  /** The total path length of the records. */
  function DiskLen(ds: seq<DiskEntry>): nat {
    if ds == [] then 0 else DiskLen(ds[..|ds| - 1]) + ds[|ds| - 1].pathLen
  }

  function SliceRecord(text: WString, at: nat, d: DiskEntry): Record {
    Record(View(text, at, d.pathLen), d.nameStart, d.size, d.lastModified, d.attributes)
  }

  /** Record i reads its path at the sum of the preceding path lengths. */
  function SliceRecords(ds: seq<DiskEntry>, text: WString): (r: seq<Record>)
    ensures |r| == |ds|
  {
    if ds == [] then []
    else
      var front := ds[..|ds| - 1];
      SliceRecords(front, text) + [SliceRecord(text, DiskLen(front), ds[|ds| - 1])]
  }

  lemma {:induction false} SlicePrefix(ds: seq<DiskEntry>, text: WString, k: nat)
    requires k <= |ds|
    ensures SliceRecords(ds[..k], text) == SliceRecords(ds, text)[..k]
    decreases |ds|
  {
    if k < |ds| {
      var front := ds[..|ds| - 1];
      assert front[..k] == ds[..k];
      SlicePrefix(front, text, k);
    } else {
      assert ds[..k] == ds;
    }
  }

  lemma {:induction false} DiskLenMonotone(ds: seq<DiskEntry>, k: nat)
    requires k <= |ds|
    ensures DiskLen(ds[..k]) <= DiskLen(ds)
    decreases |ds|
  {
    if k < |ds| {
      var front := ds[..|ds| - 1];
      assert front[..k] == ds[..k];
      DiskLenMonotone(front, k);
    } else {
      assert ds[..k] == ds;
    }
  }

  // ---------------------------------------------------------------- the rebuilt pool

  /** The text of the live entries lies end to end from the start of the path pool. */
  ghost predicate Dense(meta: seq<EntryMeta>) {
    forall i :: 0 <= i < |meta| && !meta[i].deleted && meta[i].pathLen > 0 ==>
      meta[i].pathOffset == DiskLen(LiveDisk(meta[..i]))
  }

  ghost predicate Fits(ds: seq<DiskEntry>, text: WString) {
    && DiskLen(ds) <= |text| < U32_LIMIT
    && forall i :: 0 <= i < |ds| ==> ds[i].nameStart <= ds[i].pathLen
  }

  /** What the second pass keeps true. */
  ghost predicate GoodBuild(loc: Locale, text: WString, b: Build) {
    && b.Built? && |b.nameLower| <= b.run <= |text|
    && WellFormed(loc, Pool(b.meta, b.nameLower, text))
    && (forall i :: 0 <= i < |b.meta| ==> !b.meta[i].deleted)
    && (forall i :: 0 <= i < |b.meta| ==> b.meta[i].pathOffset + b.meta[i].pathLen <= b.run)
  }

  lemma ExtendKeeps(loc: Locale, text: WString, b: Build, d: DiskEntry)
    requires GoodBuild(loc, text, b) && |text| < U32_LIMIT
    requires d.nameStart <= d.pathLen && b.run + d.pathLen <= |text|
    ensures var c := Extend(loc, text, b, d);
            && GoodBuild(loc, text, c) && c.run == b.run + d.pathLen
            && c.meta == b.meta + [RebuiltEntry(d, b.run, |b.nameLower|)]
  {
    var m := RebuiltEntry(d, b.run, |b.nameLower|);
    var name := loc.Fold(View(text, b.run + d.nameStart, NameLen(d)));
    var c := Extend(loc, text, b, d);
    var p, q := Pool(b.meta, b.nameLower, text), Pool(c.meta, c.nameLower, text);
    NewRebuiltEntryOk(loc, text, b, d);
    assert c == Built(b.meta + [m], b.nameLower + name, b.run + d.pathLen);
    forall i | 0 <= i < |c.meta| ensures EntryOk(loc, q, c.meta[i]) {
      if i < |b.meta| {
        ViewsSurviveGrowth(loc, p, q, b.meta[i]);
      }
    }
    forall i, j | 0 <= i < j < |c.meta| ensures Before(c.meta[i], c.meta[j]) {
      assert EntryOk(loc, p, b.meta[i]);
      if j < |b.meta| {
        assert Before(b.meta[i], b.meta[j]);
      }
    }
  }

  lemma NewRebuiltEntryOk(loc: Locale, text: WString, b: Build, d: DiskEntry)
    requires b.Built? && |b.nameLower| <= b.run && |text| < U32_LIMIT
    requires d.nameStart <= d.pathLen && b.run + d.pathLen <= |text|
    ensures var c := Extend(loc, text, b, d); var m := RebuiltEntry(d, b.run, |b.nameLower|);
            && c.Built? && c.meta == b.meta + [m]
            && c.nameLower == b.nameLower + loc.Fold(View(text, b.run + d.nameStart, NameLen(d)))
            && c.run == b.run + d.pathLen
            && NameLen(d) == d.pathLen - d.nameStart && m.nameLowerOffset == |b.nameLower|
            && EntryOk(loc, Pool(c.meta, c.nameLower, text), m)
  {
    NameLenExact(d);
    ExtendExact(loc, text, b, d);
    hide NameLen, Extend;
    var m, tail := RebuiltEntry(d, b.run, |b.nameLower|), View(text, b.run + d.nameStart, NameLen(d));
    assert m.pathOffset == b.run && m.nameLowerOffset == |b.nameLower| && m.nameLowerLen == NameLen(d);
    assert m.pathLen == d.pathLen && m.nameStart == d.nameStart;
    hide RebuiltEntry;
    TailIsName(text, m);
    EndOfText(b.nameLower, loc.Fold(tail));
    hide View;
  }

  lemma NameLenExact(d: DiskEntry)
    requires d.nameStart <= d.pathLen
    ensures NameLen(d) == d.pathLen - d.nameStart
  {
  }

  lemma ExtendExact(loc: Locale, text: WString, b: Build, d: DiskEntry)
    requires b.Built? && |text| < U32_LIMIT && NameLen(d) == d.pathLen - d.nameStart && b.run + d.pathLen <= |text|
    ensures Extend(loc, text, b, d)
         == Built(b.meta + [RebuiltEntry(d, b.run, |b.nameLower|)],
                  b.nameLower + loc.Fold(View(text, b.run + d.nameStart, NameLen(d))), b.run + d.pathLen)
  {
    hide NameLen, View, RebuiltEntry;
  }

  lemma TailIsName(text: WString, m: EntryMeta)
    requires m.nameStart <= m.pathLen && m.pathOffset + m.pathLen <= |text|
    ensures RecordOf(text, m).Name() == View(text, m.pathOffset + m.nameStart, m.pathLen - m.nameStart)
  {
  }

  /** The metadata is that of dense records, and its live records are their running-sum slices. */
  ghost predicate Sliced(text: WString, meta: seq<EntryMeta>, ds: seq<DiskEntry>) {
    LiveDisk(meta) == ds && Dense(meta) && LiveRecords(meta, text) == SliceRecords(ds, text)
  }

  lemma ExtendSliced(loc: Locale, text: WString, b: Build, front: seq<DiskEntry>, d: DiskEntry)
    requires Fits(front + [d], text)
    requires GoodBuild(loc, text, b) && b.run == DiskLen(front) && Sliced(text, b.meta, front)
    ensures var c := Extend(loc, text, b, d);
            GoodBuild(loc, text, c) && c.run == DiskLen(front + [d]) && Sliced(text, c.meta, front + [d])
  {
    FitsFront(front, d, text);
    ExtendKeeps(loc, text, b, d);
    var m := RebuiltEntry(d, b.run, |b.nameLower|);
    assert !m.deleted && DiskOf(m) == d && m.pathOffset == b.run;
    hide LiveDisk, LiveRecords, SliceRecords, DiskLen, Dense, Fits, GoodBuild, Extend, RebuiltEntry, DiskOf;
    AppendedSlices(text, b.meta, m, front, d);
    AppendedIsDense(b.meta, m);
  }

  /** One more rebuilt entry is one more slice. */
  lemma AppendedSlices(
      text: WString, before: seq<EntryMeta>, m: EntryMeta, ds: seq<DiskEntry>, d: DiskEntry)
    requires !m.deleted && DiskOf(m) == d && m.pathOffset == DiskLen(ds)
    requires LiveDisk(before) == ds && LiveRecords(before, text) == SliceRecords(ds, text)
    ensures LiveDisk(before + [m]) == ds + [d] && LiveRecords(before + [m], text) == SliceRecords(ds + [d], text)
  {
    assert (before + [m])[..|before|] == before && (ds + [d])[..|ds|] == ds;
    hide LiveDisk, LiveRecords, SliceRecords, DiskLen;
    AppendedDisk(before, m);
    AppendedRecord(text, before, m);
    AppendedSlice(text, ds, d);
  }

  lemma AppendedDisk(before: seq<EntryMeta>, m: EntryMeta)
    ensures LiveDisk(before + [m]) == LiveDisk(before) + (if m.deleted then [] else [DiskOf(m)])
  {
    assert (before + [m])[..|before|] == before;
  }

  lemma AppendedRecord(text: WString, before: seq<EntryMeta>, m: EntryMeta)
    ensures LiveRecords(before + [m], text)
         == LiveRecords(before, text) + (if m.deleted then [] else [RecordOf(text, m)])
  {
    assert (before + [m])[..|before|] == before;
  }

  lemma AppendedSlice(text: WString, ds: seq<DiskEntry>, d: DiskEntry)
    ensures SliceRecords(ds + [d], text) == SliceRecords(ds, text) + [SliceRecord(text, DiskLen(ds), d)]
  {
    assert (ds + [d])[..|ds|] == ds;
  }

  lemma FitsFront(front: seq<DiskEntry>, d: DiskEntry, text: WString)
    requires Fits(front + [d], text)
    ensures Fits(front, text) && d.nameStart <= d.pathLen
    ensures DiskLen(front) + d.pathLen == DiskLen(front + [d]) <= |text| < U32_LIMIT
  {
    var ds := front + [d];
    assert ds[..|front|] == front && ds[|front|] == d;
    assert forall i :: 0 <= i < |front| ==> ds[i] == front[i];
  }

  lemma AppendedIsDense(before: seq<EntryMeta>, m: EntryMeta)
    requires Dense(before) && m.pathOffset == DiskLen(LiveDisk(before))
    ensures Dense(before + [m])
  {
    var after := before + [m];
    forall i | 0 <= i < |after| && !after[i].deleted && after[i].pathLen > 0
      ensures after[i].pathOffset == DiskLen(LiveDisk(after[..i]))
    {
      if i < |before| {
        assert after[..i] == before[..i];
      } else {
        assert after[..i] == before;
      }
    }
  }
}
