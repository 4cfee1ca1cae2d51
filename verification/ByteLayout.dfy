/**
 Bytes at a position: integers, texts, records and saved numbers as they stand in a file, low byte
 first, and what is left of them in a part of it.

 Here are the parts of the layout, in FileLayouts the whole.
 */
module ByteLayouts {
  import opened Text
  import opened IndexPools
  import opened IndexSerializers

  // ---------------------------------------------------------------- bytes at a position

  /** Byte i of v, the lowest first. */
  function ByteOf(v: nat, i: nat): (r: Byte)
    decreases i, v
  {
    if i == 0 then v % 256 else ByteOf(v / 256, i - 1)
  }

  /** A k-byte integer stands at `at`, low byte first. */
  ghost predicate IntegerAt(b: seq<Byte>, at: nat, k: nat, v: nat) {
    at + k <= |b| && forall i :: 0 <= i < k ==> b[at + i] == ByteOf(v, i)
  }

  /** A text stands at `at`, two bytes a character, low byte first. */
  ghost predicate TextAt(b: seq<Byte>, at: nat, s: WString) {
    && at + 2 * |s| <= |b|
    && forall i :: 0 <= i < |s| ==> b[at + 2 * i] == s[i] % 256 && b[at + 2 * i + 1] == s[i] / 256
  }

  /** A 24-byte record: size, time, attributes, path length, start of the name. */
  ghost predicate RecordAt(b: seq<Byte>, at: nat, d: DiskEntry) {
    && IntegerAt(b, at, 8, d.size) && IntegerAt(b, at + 8, 8, d.lastModified)
    && IntegerAt(b, at + 16, 4, d.attributes) && IntegerAt(b, at + 20, 2, d.pathLen)
    && IntegerAt(b, at + 22, 2, d.nameStart)
  }

  /** A USN entry: length of the root, the root, the number. */
  ghost predicate UsnEntryAt(b: seq<Byte>, at: nat, root: WString, usn: U64) {
    IntegerAt(b, at, 2, |root|) && TextAt(b, at + 2, root) && IntegerAt(b, at + 2 + 2 * |root|, 8, usn)
  }

  lemma {:induction false} IntegerStands(b: seq<Byte>, at: nat, k: nat, v: nat)
    requires At(b, at, LE(v, k)) && at + k <= |b|
    ensures IntegerAt(b, at, k, v)
    decreases k
  {
    if k > 0 {
      assert LE(v, k)[1..] == LE(v / 256, k - 1);
      IntegerStands(b, at + 1, k - 1, v / 256);
      forall i | 0 <= i < k ensures b[at + i] == ByteOf(v, i) {
        assert i > 0 ==> b[at + 1 + (i - 1)] == ByteOf(v / 256, i - 1);
      }
    }
  }

  lemma {:induction false} TextStands(b: seq<Byte>, at: nat, s: WString)
    requires At(b, at, Wide(s)) && at + 2 * |s| <= |b|
    ensures TextAt(b, at, s)
    decreases |s|
  {
    if s != [] {
      AtSplit(b, at, LE(s[0], 2), Wide(s[1..]));
      IntegerStands(b, at, 2, s[0]);
      TwoBytes(b, at, s[0]);
      TextStands(b, at + 2, s[1..]);
      forall i | 0 <= i < |s| ensures b[at + 2 * i] == s[i] % 256 && b[at + 2 * i + 1] == s[i] / 256 {
        assert i > 0 ==> s[1..][i - 1] == s[i] && at + 2 + 2 * (i - 1) == at + 2 * i;
      }
    }
  }

  lemma TwoBytes(b: seq<Byte>, at: nat, c: WChar)
    requires IntegerAt(b, at, 2, c)
    ensures b[at] == c % 256 && b[at + 1] == c / 256
  {
    assert b[at + 0] == ByteOf(c, 0) == c % 256;
    assert b[at + 1] == ByteOf(c, 1) == ByteOf(c / 256, 0) == c / 256;
  }

  lemma RecordStands(b: seq<Byte>, at: nat, d: DiskEntry)
    requires At(b, at, DiskBytes(d)) && at + 24 <= |b|
    ensures RecordAt(b, at, d)
  {
    hide At, LE, IntegerAt;
    var e := LE(d.pathLen, 2) + LE(d.nameStart, 2);
    var f := LE(d.attributes, 4) + e;
    var g := LE(d.lastModified, 8) + f;
    AtSplit(b, at, LE(d.size, 8), g);
    AtSplit(b, at + 8, LE(d.lastModified, 8), f);
    AtSplit(b, at + 16, LE(d.attributes, 4), e);
    AtSplit(b, at + 20, LE(d.pathLen, 2), LE(d.nameStart, 2));
    IntegerStands(b, at, 8, d.size);
    IntegerStands(b, at + 8, 8, d.lastModified);
    IntegerStands(b, at + 16, 4, d.attributes);
    IntegerStands(b, at + 20, 2, d.pathLen);
    IntegerStands(b, at + 22, 2, d.nameStart);
  }

  lemma {:induction false} RecordsStand(b: seq<Byte>, at: nat, ds: seq<DiskEntry>, i: nat)
    requires At(b, at, AllDiskBytes(ds)) && i < |ds| && at + 24 * |ds| <= |b|
    ensures RecordAt(b, at + 24 * i, ds[i])
    decreases |ds|
  {
    hide At, RecordAt, DiskBytes;
    var n := |ds| - 1;
    AtSplit(b, at, AllDiskBytes(ds[..n]), DiskBytes(ds[n]));
    if i < n {
      RecordsStand(b, at, ds[..n], i);
    } else {
      RecordStands(b, at + 24 * n, ds[n]);
    }
  }

  lemma UsnEntryStands(b: seq<Byte>, at: nat, root: WString, usn: U64)
    requires At(b, at, UsnEntryBytes(root, usn)) && at + 2 + 2 * |root| + 8 <= |b|
    ensures UsnEntryAt(b, at, root, usn)
  {
    hide At, LE, Wide, IntegerAt, TextAt;
    AtSplit(b, at, LE(|root|, 2), Wide(root) + LE(usn, 8));
    AtSplit(b, at + 2, Wide(root), LE(usn, 8));
    IntegerStands(b, at, 2, |root|);
    TextStands(b, at + 2, root);
    IntegerStands(b, at + 2 + 2 * |root|, 8, usn);
  }

  /** The bytes of the USN entries for these roots. */
  function UsnSize(order: seq<WString>): nat {
    if order == [] then 0 else 10 + 2 * |order[0]| + UsnSize(order[1..])
  }

  lemma {:induction false} UsnSizeIs(order: seq<WString>, usn: map<WString, U64>)
    requires forall i :: 0 <= i < |order| ==> order[i] in usn
    ensures |UsnBytes(order, usn)| == UsnSize(order)
    decreases |order|
  {
    if order != [] {
      UsnSizeIs(order[1..], usn);
    }
  }

  lemma {:induction false} UsnEntriesStand(
      b: seq<Byte>, at: nat, order: seq<WString>, usn: map<WString, U64>, i: nat)
    requires forall j :: 0 <= j < |order| ==> order[j] in usn
    requires At(b, at, UsnBytes(order, usn)) && at + UsnSize(order) <= |b| && i < |order|
    ensures UsnEntryAt(b, at + UsnSize(order[..i]), order[i], usn[order[i]])
    decreases |order|
  {
    hide At, UsnEntryAt, UsnEntryBytes;
    var root := order[0];
    AtSplit(b, at, UsnEntryBytes(root, usn[root]), UsnBytes(order[1..], usn));
    if i == 0 {
      UsnEntryStands(b, at, root, usn[root]);
    } else {
      UsnEntriesStand(b, at + 10 + 2 * |root|, order[1..], usn, i - 1);
      assert order[..i][1..] == order[1..][..i - 1];
    }
  }

  // ---------------------------------------------------------------- magic number and version

  lemma Magic(b: seq<Byte>)
    requires IntegerAt(b, 0, 4, MAGIC) && IntegerAt(b, 4, 2, VERSION)
    ensures b[..4] == [0x57, 0x49, 0x44, 0x58] && b[4..6] == [2, 0]
  {
    assert b[0 + 0] == ByteOf(MAGIC, 0) == 0x57;
    assert b[0 + 1] == ByteOf(MAGIC, 1) == 0x49;
    assert b[0 + 2] == ByteOf(MAGIC, 2) == 0x44;
    assert b[0 + 3] == ByteOf(MAGIC, 3) == 0x58;
    assert b[4 + 0] == ByteOf(VERSION, 0) == 2;
    assert b[4 + 1] == ByteOf(VERSION, 1) == 0;
  }

  // ---------------------------------------------------------------- a part of the bytes

  lemma {:induction false} AtPrefix(b: seq<Byte>, at: nat, x: seq<Byte>, m: nat)
    requires At(b, at, x) && at + |x| <= m <= |b|
    ensures At(b[..m], at, x)
    decreases |x|
  {
    if x != [] {
      AtPrefix(b, at + 1, x[1..], m);
    }
  }

  /** How many of the USN entries fit into so many bytes. */
  function Fitting(order: seq<WString>, room: nat): (j: nat)
    ensures j <= |order| && UsnSize(order[..j]) <= room
    ensures j < |order| ==> UsnSize(order[..j + 1]) > room
  {
    if order == [] || 10 + 2 * |order[0]| > room then
      assert order != [] ==> order[..1][1..] == [];
      0
    else
      var j := Fitting(order[1..], room - 10 - 2 * |order[0]|);
      assert order[..j + 1][1..] == order[1..][..j];
      assert j + 1 < |order| ==> order[..j + 2][1..] == order[1..][..j + 1];
      j + 1
  }

  /** The entries that are there in full are read, and no others. */
  lemma {:induction false} CutUsn(b: seq<Byte>, at: nat, order: seq<WString>, usn: map<WString, U64>,
                                  was: map<WString, U64>, m: nat)
    requires forall i :: 0 <= i < |order| ==> order[i] in usn && |order[i]| < U16_LIMIT
    requires At(b, at, UsnBytes(order, usn)) && at <= m <= |b|
    ensures UsnAt(b[..m], at, |order|, was) == Restored(order[..Fitting(order, m - at)], usn, was)
    decreases |order|
  {
    hide *;
    if order == [] {
      NothingCut(b, at, order, usn, was, m);
    } else {
      var root := order[0];
      var next := at + 10 + 2 * |root|;
      UsnHead(b, at, order, usn);
      if next <= m {
        UsnEntrySize(root, usn[root]);
        AtPrefix(b, at, UsnEntryBytes(root, usn[root]), m);
        UsnEntryRoundTrip(b[..m], at, root, usn[root], at + 2 + 2 * |root|);
        CutUsn(b, next, order[1..], usn, was[root := usn[root]], m);
        OneMoreRead(b[..m], at, order, usn, was, m - at);
      } else {
        if at + 2 <= m {
          CutEntry(b, at, root, usn[root], m);
        }
        NothingCut(b, at, order, usn, was, m);
      }
    }
  }

  lemma UsnHead(b: seq<Byte>, at: nat, order: seq<WString>, usn: map<WString, U64>)
    requires forall i :: 0 <= i < |order| ==> order[i] in usn
    requires order != [] && At(b, at, UsnBytes(order, usn))
    ensures At(b, at, UsnEntryBytes(order[0], usn[order[0]]))
    ensures At(b, at + 10 + 2 * |order[0]|, UsnBytes(order[1..], usn))
  {
    hide At, UsnEntryBytes;
    AtSplit(b, at, UsnEntryBytes(order[0], usn[order[0]]), UsnBytes(order[1..], usn));
  }

  /** The first entry is not there in full. */
  lemma NothingCut(b: seq<Byte>, at: nat, order: seq<WString>, usn: map<WString, U64>, was: map<WString, U64>, m: nat)
    requires forall i :: 0 <= i < |order| ==> order[i] in usn
    requires at <= m <= |b|
    requires order != [] ==> m < at + 10 + 2 * |order[0]| && (at + 2 <= m ==> U16At(b[..m], at) == |order[0]|)
    ensures UsnAt(b[..m], at, |order|, was) == Restored(order[..Fitting(order, m - at)], usn, was)
  {
    hide U16At;
  }

  lemma OneMoreRead(cut: seq<Byte>, at: nat, order: seq<WString>, usn: map<WString, U64>,
                    was: map<WString, U64>, room: nat)
    requires forall i :: 0 <= i < |order| ==> order[i] in usn
    requires order != [] && at + 10 + 2 * |order[0]| <= |cut| && room == |cut| - at
    requires U16At(cut, at) == |order[0]| && WideAt(cut, at + 2, |order[0]|) == order[0]
    requires U64At(cut, at + 2 + 2 * |order[0]|) == usn[order[0]]
    requires var root := order[0]; var next := at + 10 + 2 * |root|;
             UsnAt(cut, next, |order| - 1, was[root := usn[root]])
             == Restored(order[1..][..Fitting(order[1..], |cut| - next)], usn, was[root := usn[root]])
    ensures UsnAt(cut, at, |order|, was) == Restored(order[..Fitting(order, room)], usn, was)
  {
    hide U16At, WideAt, U64At;
    var j := Fitting(order[1..], room - 10 - 2 * |order[0]|);
    assert order[..j + 1][1..] == order[1..][..j];
  }

  lemma UsnEntrySize(root: WString, usn: U64)
    ensures |UsnEntryBytes(root, usn)| == 2 + 2 * |root| + 8
  {
  }

  lemma CutEntry(b: seq<Byte>, at: nat, root: WString, usn: U64, m: nat)
    requires At(b, at, UsnEntryBytes(root, usn)) && |root| < U16_LIMIT && at + 2 <= m <= |b|
    ensures U16At(b[..m], at) == |root|
  {
    hide At, LE, Wide;
    AtSplit(b, at, LE(|root|, 2), Wide(root) + LE(usn, 8));
    AtPrefix(b, at, LE(|root|, 2), m);
    U16FieldAt(b[..m], at, |root|);
  }
}
