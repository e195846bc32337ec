/** Comparing ranges of bits of two IDs, a byte at a time. */
module Bits {
  const NumBits: nat := 256
  const BitsPerByte: nat := 8

  /** 32 bytes; bit 7 is the most significant bit of byte 0. */
  type ID = s: seq<bv8> | |s| == 32 witness seq(32, _ => 0)

  /** 1 << j, by cases. */
  function One(j: nat): bv8
    requires j < 8
  {
    if j == 0 then 1 else if j == 1 then 2 else if j == 2 then 4 else if j == 3 then 8
    else if j == 4 then 16 else if j == 5 then 32 else if j == 6 then 64 else 128
  }

  predicate ByteBit(b: bv8, j: nat)
    requires j < 8
  {
    b & One(j) != 0
  }

  predicate Bit(id: ID, i: nat)
    requires i < NumBits
  {
    ByteBit(id[i / BitsPerByte], i % BitsPerByte)
  }

  /** -1 << startBit: 11...10...0, with `startBit` zeros. */
  function StartMask(startBit: nat): bv8
    requires startBit < 8
  {
    0 - One(startBit)
  }

  /** (1 << (stopBit + 1)) - 1: 0...01...1, with `stopBit + 1` ones. */
  function StopMask(stopBit: nat): bv8
    requires stopBit < 8
  {
    (One(stopBit) << 1) - 1
  }

  function TrailingZeros8(x: bv8): nat {
    if x & 1 != 0 then 0
    else if x & 2 != 0 then 1
    else if x & 4 != 0 then 2
    else if x & 8 != 0 then 3
    else if x & 16 != 0 then 4
    else if x & 32 != 0 then 5
    else if x & 64 != 0 then 6
    else if x & 128 != 0 then 7
    else 8
  }

  // ---------------------------------------------------------------- one byte

  /** Bit j of a byte is its low bit after shifting by j places. */
  lemma ByteBitMeaning(b: bv8, j: nat)
    requires j < 8
    ensures ByteBit(b, j) <==> (b >> j) & 1 == 1
  {
    if j == 0 {} else if j == 1 {} else if j == 2 {} else if j == 3 {}
    else if j == 4 {} else if j == 5 {} else if j == 6 {} else {}
  }

  lemma XorMasked(a: bv8, b: bv8, m: bv8)
    ensures (a ^ b) & m != 0 <==> a & m != b & m
  {
  }

  lemma SingleBit(a: bv8, j: nat)
    requires j < 8
    ensures a & One(j) == 0 || a & One(j) == One(j)
  {
  }

  lemma XorBit(a: bv8, b: bv8, j: nat)
    requires j < 8
    ensures ByteBit(a ^ b, j) <==> ByteBit(a, j) != ByteBit(b, j)
  {
    SingleBit(a, j);
    SingleBit(b, j);
    XorMasked(a, b, One(j));
  }

  lemma StartMaskBit(b: bv8, k: nat, j: nat)
    requires k < 8 && j < 8
    ensures ByteBit(StartMask(k) & b, j) == (j >= k && ByteBit(b, j))
  {
  }

  lemma StopMaskBit(b: bv8, k: nat, j: nat)
    requires k < 8 && j < 8
    ensures ByteBit(StopMask(k) & b, j) == (j <= k && ByteBit(b, j))
  {
  }

  lemma BothMasksBit(b: bv8, k: nat, l: nat, j: nat)
    requires k < 8 && l < 8 && j < 8
    ensures ByteBit((StartMask(k) & StopMask(l)) & b, j) == (k <= j <= l && ByteBit(b, j))
  {
    assert (StartMask(k) & StopMask(l)) & b == StartMask(k) & (StopMask(l) & b);
    StartMaskBit(StopMask(l) & b, k, j);
    StopMaskBit(b, l, j);
  }

  lemma ByteExtensional(a: bv8, b: bv8)
    requires forall j :: 0 <= j < 8 ==> ByteBit(a, j) == ByteBit(b, j)
    ensures a == b
  {
    assert ByteBit(a, 0) == ByteBit(b, 0) && ByteBit(a, 1) == ByteBit(b, 1) && ByteBit(a, 2) == ByteBit(b, 2);
    assert ByteBit(a, 3) == ByteBit(b, 3) && ByteBit(a, 4) == ByteBit(b, 4) && ByteBit(a, 5) == ByteBit(b, 5);
    assert ByteBit(a, 6) == ByteBit(b, 6) && ByteBit(a, 7) == ByteBit(b, 7);
  }

  lemma TrailingZerosBit(x: bv8, j: nat)
    requires x != 0
    ensures TrailingZeros8(x) < 8 && ByteBit(x, TrailingZeros8(x))
    ensures j < TrailingZeros8(x) ==> !ByteBit(x, j)
  {
    assert TrailingZeros8(x) != 8;
  }

  // ---------------------------------------------------------------- ranges of bits

  /** The masked comparison of one byte, where the masks keep the bits [from, to]. */
  ghost predicate KeepsBits(b: bv8, masked: bv8, from: int, to: int) {
    forall j :: 0 <= j < 8 ==> ByteBit(masked, j) == (from <= j <= to && ByteBit(b, j))
  }

  lemma StartMaskKeeps(b: bv8, k: nat)
    requires k < 8
    ensures KeepsBits(b, StartMask(k) & b, k, 7)
  {
    forall j | 0 <= j < 8 ensures ByteBit(StartMask(k) & b, j) == (k <= j <= 7 && ByteBit(b, j)) {
      StartMaskBit(b, k, j);
    }
  }

  lemma StopMaskKeeps(b: bv8, k: nat)
    requires k < 8
    ensures KeepsBits(b, StopMask(k) & b, 0, k)
  {
    forall j | 0 <= j < 8 ensures ByteBit(StopMask(k) & b, j) == (0 <= j <= k && ByteBit(b, j)) {
      StopMaskBit(b, k, j);
    }
  }

  lemma BothMasksKeep(b: bv8, k: nat, l: nat)
    requires k < 8 && l < 8
    ensures KeepsBits(b, (StartMask(k) & StopMask(l)) & b, k, l)
  {
    forall j | 0 <= j < 8
      ensures ByteBit((StartMask(k) & StopMask(l)) & b, j) == (k <= j <= l && ByteBit(b, j))
    {
      BothMasksBit(b, k, l, j);
    }
  }

  ghost predicate SameBits(id1: ID, id2: ID, start: int, stop: int)
    requires 0 <= start && stop <= NumBits
  {
    forall i :: start <= i < stop ==> Bit(id1, i) == Bit(id2, i)
  }

  /** Equal masked bytes are equal bits of the IDs. */
  lemma ByteComparison(id1: ID, id2: ID, k: nat, from: nat, to: nat, m1: bv8, m2: bv8)
    requires k < 32 && from <= to < 8
    requires KeepsBits(id1[k], m1, from, to) && KeepsBits(id2[k], m2, from, to)
    ensures m1 == m2 <==> SameBits(id1, id2, 8 * k + from, 8 * k + to + 1)
  {
    if m1 == m2 {
      forall i | 8 * k + from <= i < 8 * k + to + 1 ensures Bit(id1, i) == Bit(id2, i) {
        assert i / 8 == k && i % 8 == i - 8 * k;
        assert ByteBit(m1, i - 8 * k) == ByteBit(m2, i - 8 * k);
      }
    } else if SameBits(id1, id2, 8 * k + from, 8 * k + to + 1) {
      forall j | 0 <= j < 8 ensures ByteBit(m1, j) == ByteBit(m2, j) {
        if from <= j <= to {
          assert (8 * k + j) / 8 == k && (8 * k + j) % 8 == j;
          assert Bit(id1, 8 * k + j) == Bit(id2, 8 * k + j);
        }
      }
      ByteExtensional(m1, m2);
    }
  }

  /** The lowest differing bit of two masked bytes is the first differing bit of the IDs in that range. */
  lemma ByteDifference(id1: ID, id2: ID, k: nat, from: nat, to: nat, m1: bv8, m2: bv8)
    requires k < 32 && from <= to < 8 && m1 != m2
    requires KeepsBits(id1[k], m1, from, to) && KeepsBits(id2[k], m2, from, to)
    ensures var d := TrailingZeros8(m1 ^ m2);
            from <= d <= to && Bit(id1, 8 * k + d) != Bit(id2, 8 * k + d) && SameBits(id1, id2, 8 * k + from, 8 * k + d)
  {
    var x := m1 ^ m2;
    assert x != 0;
    var d := TrailingZeros8(x);
    TrailingZerosBit(x, 0);
    XorBit(m1, m2, d);
    assert (8 * k + d) / 8 == k && (8 * k + d) % 8 == d;
    forall i | 8 * k + from <= i < 8 * k + d ensures Bit(id1, i) == Bit(id2, i) {
      var j := i - 8 * k;
      assert i / 8 == k && i % 8 == j;
      TrailingZerosBit(x, j);
      XorBit(m1, m2, j);
    }
  }

  lemma WholeByteKeeps(b: bv8)
    ensures KeepsBits(b, b, 0, 7)
  {
  }

  /** Bits of equal byte slices are equal, and conversely. */
  lemma SliceComparison(id1: ID, id2: ID, from: nat, to: nat)
    requires from <= to <= 32
    ensures id1[from..to] == id2[from..to] <==> SameBits(id1, id2, 8 * from, 8 * to)
  {
    if id1[from..to] == id2[from..to] {
      forall i | 8 * from <= i < 8 * to ensures Bit(id1, i) == Bit(id2, i) {
        var k := i / 8;
        assert id1[from..to][k - from] == id2[from..to][k - from];
      }
    } else if SameBits(id1, id2, 8 * from, 8 * to) {
      forall k | from <= k < to ensures id1[k] == id2[k] {
        WholeByteKeeps(id1[k]);
        WholeByteKeeps(id2[k]);
        ByteComparison(id1, id2, k, 0, 7, id1[k], id2[k]);
      }
    }
  }

  /** A range inside one byte, whatever bytes the masks leave. */
  lemma OneByteRange(id1: ID, id2: ID, start: nat, stop: nat, m1: bv8, m2: bv8)
    requires start < stop <= NumBits && start / 8 == (stop - 1) / 8
    requires KeepsBits(id1[start / 8], m1, start % 8, (stop - 1) % 8)
    requires KeepsBits(id2[start / 8], m2, start % 8, (stop - 1) % 8)
    ensures m1 == m2 <==> SameBits(id1, id2, start, stop)
  {
    ByteComparison(id1, id2, start / 8, start % 8, (stop - 1) % 8, m1, m2);
  }

  /** A range over several bytes, whatever bytes the masks leave of its first and last. */
  lemma LongRange(id1: ID, id2: ID, start: nat, stop: nat, a1: bv8, a2: bv8, z1: bv8, z2: bv8)
    requires start < stop <= NumBits && start / 8 < (stop - 1) / 8
    requires KeepsBits(id1[start / 8], a1, start % 8, 7) && KeepsBits(id2[start / 8], a2, start % 8, 7)
    requires KeepsBits(id1[(stop - 1) / 8], z1, 0, (stop - 1) % 8)
    requires KeepsBits(id2[(stop - 1) / 8], z2, 0, (stop - 1) % 8)
    ensures a1 == a2 && z1 == z2 && id1[start / 8 + 1..(stop - 1) / 8] == id2[start / 8 + 1..(stop - 1) / 8]
            <==> SameBits(id1, id2, start, stop)
  {
    var p, q := start / 8, (stop - 1) / 8;
    ByteComparison(id1, id2, p, start % 8, 7, a1, a2);
    SliceComparison(id1, id2, p + 1, q);
    ByteComparison(id1, id2, q, 0, (stop - 1) % 8, z1, z2);
    SameBitsSplit(id1, id2, start, 8 * (p + 1), 8 * q, stop);
  }

  lemma SameBitsSplit(id1: ID, id2: ID, start: nat, mid1: nat, mid2: nat, stop: nat)
    requires start <= mid1 <= mid2 <= stop <= NumBits
    ensures SameBits(id1, id2, start, stop) <==>
              SameBits(id1, id2, start, mid1) && SameBits(id1, id2, mid1, mid2) && SameBits(id1, id2, mid2, stop)
  {
  }

  // ---------------------------------------------------------------- the two operations

  /** Division and remainder that round towards zero. */
  function Quotient(x: int): int {
    if x >= 0 then x / BitsPerByte else -((-x) / BitsPerByte)
  }

  function Remainder(x: int): int {
    x - BitsPerByte * Quotient(x)
  }

  /** A negative remainder is a huge shift count, which leaves no bit of the mask. */
  function FirstKept(startBit: int): nat {
    if startBit < 0 then 8 else startBit
  }

  lemma NothingKept(b: bv8, from: int, to: int)
    requires from > to
    ensures KeepsBits(b, 0, from, to)
  {
  }

  lemma NothingLeft(b: bv8, m: bv8, from: int, to: int)
    requires from > to && KeepsBits(b, m, from, to)
    ensures m == 0
  {
    NothingKept(b, from, to);
    ByteExtensional(m, 0);
  }

  /** What the start mask leaves of a byte. */
  method MaskStart(startBit: int, b: bv8) returns (m: bv8)
    requires startBit < 8
    ensures KeepsBits(b, m, FirstKept(startBit), 7)
  {
    if startBit < 0 {
      m := 0;
      NothingKept(b, 8, 7);
    } else {
      m := StartMask(startBit) & b;
      StartMaskKeeps(b, startBit);
    }
  }

  /** What the stop mask leaves of a byte. */
  method MaskStop(stopBit: nat, b: bv8) returns (m: bv8)
    requires stopBit < 8
    ensures KeepsBits(b, m, 0, stopBit)
  {
    m := StopMask(stopBit) & b;
    StopMaskKeeps(b, stopBit);
  }

  /** What both masks leave of a byte. */
  method MaskBoth(startBit: int, stopBit: nat, b: bv8) returns (m: bv8)
    requires startBit < 8 && stopBit < 8
    ensures KeepsBits(b, m, FirstKept(startBit), stopBit)
  {
    if startBit < 0 {
      m := 0;
      NothingKept(b, 8, stopBit);
    } else {
      m := (StartMask(startBit) & StopMask(stopBit)) & b;
      BothMasksKeep(b, startBit, stopBit);
    }
  }

  /** The index of the lowest bit at which two masked bytes, and so the IDs, differ. */
  method FirstDifferenceIn(k: nat, m1: bv8, m2: bv8, ghost id1: ID, ghost id2: ID, ghost from: nat, ghost to: nat)
    returns (index: nat)
    requires k < 32 && from <= to < 8 && m1 != m2
    requires KeepsBits(id1[k], m1, from, to) && KeepsBits(id2[k], m2, from, to)
    ensures 8 * k + from <= index <= 8 * k + to
    ensures Bit(id1, index) != Bit(id2, index) && SameBits(id1, id2, 8 * k + from, index)
  {
    ByteDifference(id1, id2, k, from, to, m1, m2);
    index := TrailingZeros8(m1 ^ m2) + k * BitsPerByte;
  }

  /** The first bit that is compared: a negative start leaves out the whole first byte. */
  ghost function FirstCompared(start: int): nat {
    if start < 0 then 8 else start
  }

  lemma CompareOne(id1: ID, id2: ID, start: int, stop: nat, m1: bv8, m2: bv8)
    requires -8 < start < stop <= NumBits && Quotient(start) == (stop - 1) / 8
    requires KeepsBits(id1[(stop - 1) / 8], m1, FirstKept(Remainder(start)), (stop - 1) % 8)
    requires KeepsBits(id2[(stop - 1) / 8], m2, FirstKept(Remainder(start)), (stop - 1) % 8)
    ensures m1 == m2 <==> SameBits(id1, id2, FirstCompared(start), stop)
    ensures start < 0 ==> m1 == m2
  {
    if start < 0 {
      NothingLeft(id1[0], m1, 8, (stop - 1) % 8);
      NothingLeft(id2[0], m2, 8, (stop - 1) % 8);
    } else {
      OneByteRange(id1, id2, start, stop, m1, m2);
    }
  }

  lemma CompareMany(id1: ID, id2: ID, start: int, stop: nat, a1: bv8, a2: bv8, z1: bv8, z2: bv8)
    requires -8 < start < stop <= NumBits && Quotient(start) < (stop - 1) / 8
    requires KeepsBits(id1[Quotient(start)], a1, FirstKept(Remainder(start)), 7)
    requires KeepsBits(id2[Quotient(start)], a2, FirstKept(Remainder(start)), 7)
    requires KeepsBits(id1[(stop - 1) / 8], z1, 0, (stop - 1) % 8)
    requires KeepsBits(id2[(stop - 1) / 8], z2, 0, (stop - 1) % 8)
    ensures a1 == a2 && z1 == z2 && id1[Quotient(start) + 1..(stop - 1) / 8] == id2[Quotient(start) + 1..(stop - 1) / 8]
            <==> SameBits(id1, id2, FirstCompared(start), stop)
  {
    if start < 0 {
      var q := (stop - 1) / 8;
      NothingLeft(id1[0], a1, 8, 7);
      NothingLeft(id2[0], a2, 8, 7);
      SliceComparison(id1, id2, 1, q);
      ByteComparison(id1, id2, q, 0, (stop - 1) % 8, z1, z2);
      SameBitsSplit(id1, id2, 8, 8, 8 * q, stop);
    } else {
      LongRange(id1, id2, start, stop, a1, a2, z1, z2);
    }
  }

  /** Past the end of the IDs the answer is false; for an empty range it is true. A start below -7 makes an index negative,
      unless whole bytes that differ come first. */
  method EqualSubset(start: int, stop: int, id1: ID, id2: ID) returns (r: bool, panics: bool)
    ensures start > -8 ==> !panics
    ensures start > -8 ==>
              (r <==> stop <= start || stop <= 0 || (stop <= 256 && SameBits(id1, id2, FirstCompared(start), stop)))
    ensures start <= -8 ==>
              (panics <==> 0 < stop <= 256 && (start <= -16 || SameBits(id1, id2, 0, 8 * ((stop - 1) / 8))))
    ensures start <= -8 && !panics ==> (r <==> stop <= start || stop <= 0)
  {
    var last := stop - 1;
    if start > last || last < 0 {
      return true, false;
    }
    if last >= NumBits {
      return false, false;
    }
    var startIndex, stopIndex := Quotient(start), last / BitsPerByte;
    if startIndex + 1 < stopIndex {
      if startIndex + 1 < 0 {
        return false, true;
      }
      SliceComparison(id1, id2, startIndex + 1, stopIndex);
      if id1[startIndex + 1..stopIndex] != id2[startIndex + 1..stopIndex] {
        SameBitsSplit(id1, id2, 8 * (startIndex + 1), 8 * (startIndex + 1), 8 * stopIndex, stop);
        return false, false;
      }
    }
    if startIndex < 0 {
      return false, true;
    }
    var startBit, stopBit := Remainder(start), last % BitsPerByte;
    if startIndex == stopIndex {
      var b1 := MaskBoth(startBit, stopBit, id1[startIndex]);
      var b2 := MaskBoth(startBit, stopBit, id2[startIndex]);
      CompareOne(id1, id2, start, stop, b1, b2);
      return b1 == b2, false;
    }
    var start1 := MaskStart(startBit, id1[startIndex]);
    var start2 := MaskStart(startBit, id2[startIndex]);
    var stop1 := MaskStop(stopBit, id1[stopIndex]);
    var stop2 := MaskStop(stopBit, id2[stopIndex]);
    CompareMany(id1, id2, start, stop, start1, start2, stop1, stop2);
    return start1 == start2 && stop1 == stop2, false;
  }

  /** The part of the search where the range covers more than one byte; `last` is inclusive. */
  method FirstDifferenceAcross(start: int, last: nat, id1: ID, id2: ID) returns (index: nat, found: bool)
    requires -8 < start && Quotient(start) < last / BitsPerByte && last < NumBits
    ensures found <==> !SameBits(id1, id2, FirstCompared(start), last + 1)
    ensures found ==> start <= index <= last && Bit(id1, index) != Bit(id2, index)
    ensures found ==> SameBits(id1, id2, FirstCompared(start), index)
  {
    var startIndex, stopIndex := Quotient(start), last / BitsPerByte;
    var start1 := MaskStart(Remainder(start), id1[startIndex]);
    var start2 := MaskStart(Remainder(start), id2[startIndex]);
    if start < 0 {
      NothingLeft(id1[0], start1, 8, 7);
      NothingLeft(id2[0], start2, 8, 7);
    }
    if start1 != start2 {
      index := FirstDifferenceIn(startIndex, start1, start2, id1, id2, start % BitsPerByte, 7);
      return index, true;
    }
    if start >= 0 {
      ByteComparison(id1, id2, startIndex, start % BitsPerByte, 7, start1, start2);
    }
    var i := startIndex + 1;
    while i < stopIndex
      invariant startIndex < i <= stopIndex && SameBits(id1, id2, FirstCompared(start), 8 * i)
    {
      WholeByteKeeps(id1[i]);
      WholeByteKeeps(id2[i]);
      if id1[i] != id2[i] {
        index := FirstDifferenceIn(i, id1[i], id2[i], id1, id2, 0, 7);
        return index, true;
      }
      ByteComparison(id1, id2, i, 0, 7, id1[i], id2[i]);
      i := i + 1;
    }
    var stop1 := MaskStop(last % BitsPerByte, id1[stopIndex]);
    var stop2 := MaskStop(last % BitsPerByte, id2[stopIndex]);
    if stop1 != stop2 {
      index := FirstDifferenceIn(stopIndex, stop1, stop2, id1, id2, 0, last % BitsPerByte);
      return index, true;
    }
    ByteComparison(id1, id2, stopIndex, 0, last % BitsPerByte, stop1, stop2);
    return 0, false;
  }

  /** The least index in [start, stop) at which the IDs differ, if there is one and the range lies within the IDs. A start
      below -7 makes an index negative. */
  method FirstDifferenceSubset(start: int, stop: int, id1: ID, id2: ID) returns (index: nat, found: bool, panics: bool)
    ensures panics <==> start <= -8 && 0 < stop <= 256
    ensures !panics ==>
              (found <==> start < stop && 0 < stop <= 256 && !SameBits(id1, id2, FirstCompared(start), stop))
    ensures found ==> start <= index < stop <= 256 && Bit(id1, index) != Bit(id2, index)
    ensures found ==> SameBits(id1, id2, FirstCompared(start), index)
  {
    var last := stop - 1;
    if start > last || last < 0 || last >= NumBits {
      return 0, false, false;
    }
    var startIndex, stopIndex := Quotient(start), last / BitsPerByte;
    if startIndex < 0 {
      return 0, false, true;
    }
    if startIndex == stopIndex {
      var stopBit := last % BitsPerByte;
      var b1 := MaskBoth(Remainder(start), stopBit, id1[startIndex]);
      var b2 := MaskBoth(Remainder(start), stopBit, id2[startIndex]);
      CompareOne(id1, id2, start, stop, b1, b2);
      if b1 == b2 {
        return 0, false, false;
      }
      index := FirstDifferenceIn(startIndex, b1, b2, id1, id2, start % BitsPerByte, stopBit);
      return index, true, false;
    }
    index, found := FirstDifferenceAcross(start, last, id1, id2);
    panics := false;
  }
}
