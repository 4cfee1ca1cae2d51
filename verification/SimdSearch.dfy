/**
 Vectorised substring search: a block scan over 8 (SSE2) or 16 (AVX2) lanes with two
 mask bits per lane, followed by a scalar tail.
 */
module SimdSearch {
  import opened Text

  // ---------------------------------------------------------------- specification

  ghost predicate OccursAt(hay: WString, needle: WString, i: int) {
    0 <= i <= |hay| - |needle| && hay[i..i + |needle|] == needle
  }

  /** `r` is the leftmost occurrence; None exactly when there is no occurrence. */
  ghost predicate IsLeftmost(hay: WString, needle: WString, r: Option<nat>) {
    match r
    case Some(p) => OccursAt(hay, needle, p) && forall i :: 0 <= i < p ==> !OccursAt(hay, needle, i)
    case None => forall i :: !OccursAt(hay, needle, i)
  }

  lemma LeftmostIsUnique(hay: WString, needle: WString, r: Option<nat>, q: Option<nat>)
    requires IsLeftmost(hay, needle, r) && IsLeftmost(hay, needle, q)
    ensures r == q
  {
    if r.Some? && q.Some? {
      assert !(r.value < q.value) && !(q.value < r.value);
    }
  }

  /** No occurrence starts before p. */
  ghost predicate NoneBefore(hay: WString, needle: WString, p: int) {
    forall i :: 0 <= i < p ==> !OccursAt(hay, needle, i)
  }

  // ---------------------------------------------------------------- intrinsics

  /** `_mm_cmpeq_epi16` against a broadcast value: per lane, all ones (true) or zero (false). */
  function CompareLanes(chunk: WString, first: WChar): seq<bool> {
    seq(|chunk|, i requires 0 <= i < |chunk| => chunk[i] == first)
  }

  /**
   `_mm_movemask_epi8`: the sign bit of every byte. Both bytes of an all-ones lane have it
   set, so that lane k sets bits 2k and 2k+1 or neither.
   */
  function MoveMask(lanes: seq<bool>): bv32 {
    if lanes == [] then 0 else PushLane(MoveMask(lanes[1..]), lanes[0])
  }

  function PushLane(mask: bv32, equal: bool): bv32 {
    if equal then (mask << 2) | 3 else mask << 2
  }

  /** `_BitScanForward`: the index of the lowest set bit. */
  function BitScanForward(mask: bv32): nat
    requires mask != 0
    decreases mask
  {
    if mask & 1 != 0 then 0 else 1 + BitScanForward(mask >> 1)
  }

  /** Two rounds of `mask &= mask - 1`. */
  function ClearTwoBits(mask: bv32): bv32 {
    var once := mask & (mask - 1);
    once & (once - 1)
  }

  // ---------------------------------------------------------------- masks as lanes

  /** Bits 2k and 2k+1 of `mask` both say whether lane k is still a candidate. */
  ghost predicate Encodes(mask: bv32, lanes: seq<bool>) {
    if lanes == [] then mask == 0
    else mask & 3 == (if lanes[0] then 3 else 0) && Encodes(mask >> 2, lanes[1..])
  }

  function Count(lanes: seq<bool>): nat {
    if lanes == [] then 0 else (if lanes[0] then 1 else 0) + Count(lanes[1..])
  }

  /** The top `free` lanes of the mask are clear, so `free` more lanes can be pushed without loss. */
  ghost predicate Room(mask: bv32, free: nat)
    decreases free
  {
    free == 0 || (mask & 0xC000_0000 == 0 && Room(mask << 2, free - 1))
  }

  lemma {:induction false} RoomUnion(x: bv32, y: bv32, free: nat)
    requires Room(x, free) && Room(y, free)
    ensures Room(x | y, free)
    decreases free
  {
    if free > 0 {
      assert (x | y) << 2 == (x << 2) | (y << 2);
      RoomUnion(x << 2, y << 2, free - 1);
    }
  }

  lemma {:induction false} RoomLess(x: bv32, more: nat, free: nat)
    requires Room(x, more) && free <= more
    ensures Room(x, free)
    decreases free
  {
    if free > 0 {
      RoomLess(x << 2, more - 1, free - 1);
    }
  }

  lemma {:induction false} RoomOfZero(free: nat)
    ensures Room(0, free)
  {
    if free > 0 {
      assert (0 as bv32) << 2 == 0;
      RoomOfZero(free - 1);
    }
  }

  lemma RoomPush(mask: bv32, equal: bool, free: nat)
    requires free <= 15 && Room(mask, free + 1)
    ensures Room(PushLane(mask, equal), free)
  {
    RoomLess(3, 15, free);
    RoomUnion(mask << 2, 3, free);
  }

  lemma {:induction false} MoveMaskRoom(lanes: seq<bool>, free: nat)
    requires |lanes| + free == 16
    ensures Room(MoveMask(lanes), free)
  {
    if lanes == [] {
      RoomOfZero(16);
    } else {
      var rest := MoveMask(lanes[1..]);
      assert Room(rest, free + 1) by { MoveMaskRoom(lanes[1..], free + 1); }
      assert Room(PushLane(rest, lanes[0]), free) by { RoomPush(rest, lanes[0], free); }
    }
  }

  /** The mask is `rest` with one lane pushed below it. */
  ghost predicate Pushed(mask: bv32, rest: bv32, equal: bool) {
    mask & 3 == (if equal then 3 else 0) && mask >> 2 == rest
  }

  lemma PushLaneBits(rest: bv32, equal: bool)
    requires rest & 0xC000_0000 == 0
    ensures Pushed(PushLane(rest, equal), rest, equal)
  {
  }

  lemma EncodesPush(mask: bv32, rest: bv32, lanes: seq<bool>)
    requires lanes != [] && Pushed(mask, rest, lanes[0]) && Encodes(rest, lanes[1..])
    ensures Encodes(mask, lanes)
  {
  }

  lemma {:induction false} MoveMaskEncodes(lanes: seq<bool>)
    requires |lanes| <= 16
    ensures Encodes(MoveMask(lanes), lanes)
  {
    if lanes != [] {
      var rest := MoveMask(lanes[1..]);
      assert Pushed(PushLane(rest, lanes[0]), rest, lanes[0]) by {
        MoveMaskRoom(lanes[1..], 17 - |lanes|);
        PushLaneBits(rest, lanes[0]);
      }
      hide Pushed, PushLane, Encodes;
      MoveMaskEncodes(lanes[1..]);
      EncodesPush(PushLane(rest, lanes[0]), rest, lanes);
    }
  }

  lemma {:induction false} EncodesZero(mask: bv32, lanes: seq<bool>)
    requires Encodes(mask, lanes)
    ensures mask == 0 <==> forall k :: 0 <= k < |lanes| ==> !lanes[k]
  {
    if lanes != [] {
      EncodesZero(mask >> 2, lanes[1..]);
      if mask == 0 {
        assert mask >> 2 == 0;
        assert forall k :: 1 <= k < |lanes| ==> lanes[k] == lanes[1..][k - 1];
      } else if !lanes[0] {
        assert mask & 3 == 0 && mask != 0 ==> mask >> 2 != 0;
        var k :| 0 <= k < |lanes[1..]| && lanes[1..][k];
        assert lanes[k + 1];
      }
    }
  }

  /** The scan finds the first candidate lane, and clearing two bits removes exactly that lane. */
  lemma {:induction false} TakeLowestLane(mask: bv32, lanes: seq<bool>)
    requires mask != 0 && Encodes(mask, lanes)
    ensures var k := BitScanForward(mask) / 2;
            && k < |lanes| && lanes[k] && (forall j :: 0 <= j < k ==> !lanes[j])
            && Encodes(ClearTwoBits(mask), lanes[k := false])
            && Count(lanes[k := false]) < Count(lanes)
  {
    var k := BitScanForward(mask) / 2;
    if lanes[0] {
      ClearLane(mask);
      assert lanes[0 := false][1..] == lanes[1..];
    } else {
      SkipLane(mask);
      TakeLowestLane(mask >> 2, lanes[1..]);
      assert lanes[k := false][1..] == lanes[1..][k - 1 := false];
      assert forall j :: 1 <= j < k ==> lanes[j] == lanes[1..][j - 1];
    }
  }

  lemma ClearLane(mask: bv32)
    requires mask & 3 == 3
    ensures mask != 0 && BitScanForward(mask) == 0
    ensures ClearTwoBits(mask) & 3 == 0 && ClearTwoBits(mask) >> 2 == mask >> 2
  {
    assert mask & 1 != 0;
  }

  lemma SkipLane(mask: bv32)
    requires mask != 0 && mask & 3 == 0
    ensures mask >> 2 != 0 && BitScanForward(mask) == BitScanForward(mask >> 2) + 2
    ensures ClearTwoBits(mask) & 3 == 0 && ClearTwoBits(mask) >> 2 == ClearTwoBits(mask >> 2)
  {
    assert mask & 1 == 0 && (mask >> 1) & 1 == 0 && mask >> 1 != 0 && (mask >> 1) >> 1 == mask >> 2;
  }

  // ---------------------------------------------------------------- the scans

  /** A position in the block that is no longer a candidate starts no occurrence. */
  lemma NoCandidateNoMatch(hay: WString, needle: WString, i: int)
    requires needle != [] && 0 <= i < |hay| && hay[i] != needle[0]
    ensures !OccursAt(hay, needle, i)
  {
    if 0 <= i <= |hay| - |needle| {
      assert hay[i..i + |needle|][0] == hay[i];
    }
  }

  /** Every lane of the block at p that starts an occurrence is still a candidate. */
  ghost predicate Covers(hay: WString, needle: WString, p: int, lanes: seq<bool>) {
    forall k :: 0 <= k < |lanes| && OccursAt(hay, needle, p + k) ==> lanes[k]
  }

  method BlockFind(hay: WString, needle: WString, width: nat) returns (r: Option<nat>)
    requires width == 8 || width == 16
    ensures IsLeftmost(hay, needle, r)
  {
    hide Encodes, MoveMask, BitScanForward, ClearTwoBits, Count;
    if |needle| == 0 {
      return Some(0);
    }
    if |needle| > |hay| {
      return None;
    }
    var p := 0;
    var end := |hay| - |needle| + 1;
    while p + width <= end
      invariant 0 <= p <= end
      invariant NoneBefore(hay, needle, p)
    {
      var chunk := hay[p..p + width];
      var mask := MoveMask(CompareLanes(chunk, needle[0]));
      ghost var lanes := CompareLanes(chunk, needle[0]);
      MoveMaskEncodes(lanes);
      forall k | 0 <= k < width && !lanes[k] ensures !OccursAt(hay, needle, p + k) {
        NoCandidateNoMatch(hay, needle, p + k);
      }
      while mask != 0
        invariant |lanes| == width && Encodes(mask, lanes)
        invariant Covers(hay, needle, p, lanes)
        invariant NoneBefore(hay, needle, p)
        decreases Count(lanes)
      {
        TakeLowestLane(mask, lanes);
        var off := BitScanForward(mask) / 2;
        if hay[p + off..p + off + |needle|] == needle {
          assert OccursAt(hay, needle, p + off);
          forall i | 0 <= i < p + off ensures !OccursAt(hay, needle, i) {
            assert i < p || !lanes[i - p];
          }
          return Some(p + off);
        }
        mask := ClearTwoBits(mask);
        lanes := lanes[off := false];
      }
      EncodesZero(mask, lanes);
      forall i | 0 <= i < p + width ensures !OccursAt(hay, needle, i) {
        assert i >= p ==> !lanes[i - p];
      }
      p := p + width;
    }
    while p < end
      invariant 0 <= p <= end
      invariant NoneBefore(hay, needle, p)
    {
      if hay[p] == needle[0] && hay[p..p + |needle|] == needle {
        return Some(p);
      }
      assert !OccursAt(hay, needle, p);
      p := p + 1;
    }
    return None;
  }

  method Sse2Find(hay: WString, needle: WString) returns (r: Option<nat>)
    ensures IsLeftmost(hay, needle, r)
  {
    r := BlockFind(hay, needle, 8);
  }

  method Avx2Find(hay: WString, needle: WString) returns (r: Option<nat>)
    ensures IsLeftmost(hay, needle, r)
  {
    r := BlockFind(hay, needle, 16);
  }

  /** The run-time dispatch; whichever instruction set is present, the answer is the same. */
  method SimdFindSubstring(avx2: bool, hay: WString, needle: WString) returns (r: Option<nat>)
    ensures IsLeftmost(hay, needle, r)
  {
    if avx2 {
      r := Avx2Find(hay, needle);
    } else {
      r := Sse2Find(hay, needle);
    }
  }

  /** The case-folding scan is the leftmost occurrence in the folded texts. */
  method ScalarFindInsensitive(loc: Locale, hay: WString, needle: WString) returns (r: Option<nat>)
    ensures IsLeftmost(loc.Fold(hay), loc.Fold(needle), r)
  {
    ghost var h, n := loc.Fold(hay), loc.Fold(needle);
    if |needle| == 0 {
      return Some(0);
    }
    if |needle| > |hay| {
      return None;
    }
    for i := 0 to |hay| - |needle| + 1
      invariant NoneBefore(h, n, i)
    {
      var isMatch := true;
      var j := 0;
      while j < |needle|
        invariant 0 <= j <= |needle|
        invariant isMatch ==> forall k :: 0 <= k < j ==> h[i + k] == n[k]
        invariant !isMatch ==> !OccursAt(h, n, i)
      {
        if loc.lower(hay[i + j]) != loc.lower(needle[j]) {
          assert h[i..i + |n|][j] != n[j];
          isMatch := false;
          break;
        }
        j := j + 1;
      }
      if isMatch {
        assert h[i..i + |n|] == n;
        return Some(i);
      }
    }
    return None;
  }
}
