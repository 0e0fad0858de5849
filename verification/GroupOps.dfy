// Group matching and mask iteration (src/raw/bitmask.rs, group.rs, group32.rs, group64.rs).
// A SIMD compare is a lane-wise equality; movemask gathers one bit a lane.
module GroupOps {
  import opened Wrappers
  import opened Bits

  type u8 = x: nat | x < 256

  const EMPTY: u8 := 0

  function CompareEqual(bytes: seq<u8>, value: u8): (lanes: seq<bool>)
    ensures |lanes| == |bytes| && forall i :: 0 <= i < |bytes| ==> lanes[i] == (bytes[i] == value)
  {
    seq(|bytes|, i requires 0 <= i < |bytes| => bytes[i] == value)
  }

  function MoveMask(lanes: seq<bool>): nat {
    if lanes == [] then 0 else (if lanes[0] then 1 else 0) + 2 * MoveMask(lanes[1..])
  }

  lemma {:induction false} BitOfMoveMask(lanes: seq<bool>, i: nat)
    ensures Bit(MoveMask(lanes), i) == (i < |lanes| && lanes[i])
    decreases i
  {
    if lanes == [] {
      ZeroBit(i);
    } else if i > 0 {
      assert MoveMask(lanes) / 2 == MoveMask(lanes[1..]);
      BitOfMoveMask(lanes[1..], i - 1);
    }
  }

  lemma {:induction false} MoveMaskBound(lanes: seq<bool>)
    ensures MoveMask(lanes) < Pow2(|lanes|)
  {
    if lanes != [] { MoveMaskBound(lanes[1..]); }
  }

  // mask has bit i exactly when slot i is allowed and its byte is (or is not) value.
  ghost predicate Matches(mask: nat, bytes: seq<u8>, value: u8, slotMask: nat, equal: bool) {
    forall i: nat :: Bit(mask, i) <==> i < |bytes| && (bytes[i] == value) == equal && Bit(slotMask, i)
  }

  lemma {:induction false} MatchesUnique(mask: nat, mask': nat, bytes: seq<u8>, value: u8, slotMask: nat, equal: bool)
    requires Matches(mask, bytes, value, slotMask, equal) && Matches(mask', bytes, value, slotMask, equal)
    ensures mask == mask'
  {
    SameBits(mask, mask');
  }

  // ---- one wide compare (AVX-512 for 64 slots, AVX2 for 32, SSE2 for 16) ----

  function WideMatch(bytes: seq<u8>, value: u8, slotMask: nat): nat {
    And(MoveMask(CompareEqual(bytes, value)), slotMask)
  }

  function WideNonEmpty(bytes: seq<u8>, slotMask: nat): nat {
    MoveMaskBound(CompareEqual(bytes, EMPTY));
    And(Not(MoveMask(CompareEqual(bytes, EMPTY)), |bytes|), slotMask)
  }

  lemma {:induction false} WideMatchMatches(bytes: seq<u8>, value: u8, slotMask: nat)
    ensures Matches(WideMatch(bytes, value, slotMask), bytes, value, slotMask, true)
  {
    forall i: nat
      ensures Bit(WideMatch(bytes, value, slotMask), i) <==> i < |bytes| && bytes[i] == value && Bit(slotMask, i)
    {
      BitOfAnd(MoveMask(CompareEqual(bytes, value)), slotMask, i);
      BitOfMoveMask(CompareEqual(bytes, value), i);
    }
  }

  // Complementing the empty mask and masking it gives the non-empty slots.
  lemma {:induction false} ComplementMatches(empty: nat, bytes: seq<u8>, slotMask: nat)
    requires empty < Pow2(|bytes|) && forall i: nat :: Bit(empty, i) <==> i < |bytes| && bytes[i] == EMPTY
    ensures Matches(And(Not(empty, |bytes|), slotMask), bytes, EMPTY, slotMask, false)
  {
    var n := Not(empty, |bytes|);
    forall i: nat
      ensures Bit(And(n, slotMask), i) <==> i < |bytes| && bytes[i] != EMPTY && Bit(slotMask, i)
    {
      BitOfAnd(n, slotMask, i);
      if i < |bytes| { BitOfNot(empty, |bytes|, i); } else { HighBitsClear(n, |bytes|, i); }
    }
  }

  lemma {:induction false} WideNonEmptyMatches(bytes: seq<u8>, slotMask: nat)
    ensures Matches(WideNonEmpty(bytes, slotMask), bytes, EMPTY, slotMask, false)
  {
    var lanes := CompareEqual(bytes, EMPTY);
    MoveMaskBound(lanes);
    forall i: nat ensures Bit(MoveMask(lanes), i) <==> i < |bytes| && bytes[i] == EMPTY {
      BitOfMoveMask(lanes, i);
    }
    ComplementMatches(MoveMask(lanes), bytes, slotMask);
  }

  // ---- two half-width compares (AVX2 for 64 slots, SSE2 for 32) ----

  // (hi << half) | lo, before the slot mask.
  function HalvesMask(bytes: seq<u8>, half: nat, value: u8): nat
    requires half <= |bytes|
  {
    Or(Shl(MoveMask(CompareEqual(bytes[half..], value)), half), MoveMask(CompareEqual(bytes[..half], value)))
  }

  function HalvesMatch(bytes: seq<u8>, half: nat, value: u8, slotMask: nat): nat
    requires half <= |bytes|
  {
    And(HalvesMask(bytes, half, value), slotMask)
  }

  lemma {:induction false} BitOfHalves(bytes: seq<u8>, half: nat, value: u8, i: nat)
    requires half <= |bytes|
    ensures Bit(HalvesMask(bytes, half, value), i) <==> i < |bytes| && bytes[i] == value
  {
    var hi, lo := CompareEqual(bytes[half..], value), CompareEqual(bytes[..half], value);
    BitOfOr(Shl(MoveMask(hi), half), MoveMask(lo), i);
    BitOfShl(MoveMask(hi), half, i);
    BitOfMoveMask(lo, i);
    if i >= half { BitOfMoveMask(hi, i - half); }
  }

  // Combining two halves is the same mask as one wide compare.
  lemma {:induction false} HalvesAgree(bytes: seq<u8>, half: nat, value: u8, slotMask: nat)
    requires half <= |bytes|
    ensures HalvesMask(bytes, half, value) == MoveMask(CompareEqual(bytes, value))
    ensures HalvesMatch(bytes, half, value, slotMask) == WideMatch(bytes, value, slotMask)
  {
    forall i: nat ensures Bit(HalvesMask(bytes, half, value), i) == Bit(MoveMask(CompareEqual(bytes, value)), i) {
      BitOfHalves(bytes, half, value, i);
      BitOfMoveMask(CompareEqual(bytes, value), i);
    }
    SameBits(HalvesMask(bytes, half, value), MoveMask(CompareEqual(bytes, value)));
  }

  // Complementing the two halves together, over the whole word.
  function HalvesNonEmpty(bytes: seq<u8>, half: nat, slotMask: nat): nat
    requires half <= |bytes|
  {
    HalvesAgree(bytes, half, EMPTY, slotMask);
    MoveMaskBound(CompareEqual(bytes, EMPTY));
    And(Not(HalvesMask(bytes, half, EMPTY), |bytes|), slotMask)
  }

  lemma {:induction false} HalvesNonEmptyMatches(bytes: seq<u8>, half: nat, slotMask: nat)
    requires half <= |bytes|
    ensures HalvesNonEmpty(bytes, half, slotMask) == WideNonEmpty(bytes, slotMask)
    ensures Matches(HalvesNonEmpty(bytes, half, slotMask), bytes, EMPTY, slotMask, false)
  {
    HalvesAgree(bytes, half, EMPTY, slotMask);
    WideNonEmptyMatches(bytes, slotMask);
  }

  // ---- the loops ----

  // The 16-lane compare of four 128-bit chunks (SSE2, 64 slots): chunk i lands at bit 16 * i.
  method QuartersMask(bytes: seq<u8>, value: u8) returns (mask: nat)
    requires |bytes| == 64
    ensures mask == MoveMask(CompareEqual(bytes, value))
  {
    mask := 0;
    forall j: nat ensures !Bit(0, j) { ZeroBit(j); }
    for i := 0 to 4
      invariant forall j: nat :: Bit(mask, j) <==> j < 16 * i && bytes[j] == value
    {
      var chunk := bytes[16 * i..16 * i + 16];
      var lanes := CompareEqual(chunk, value);
      var m := And(MoveMask(lanes), 0xFFFF);
      var next := Or(mask, Shl(m, 16 * i));
      forall j: nat ensures Bit(next, j) <==> j < 16 * (i + 1) && bytes[j] == value {
        BitOfOr(mask, Shl(m, 16 * i), j);
        BitOfShl(m, 16 * i, j);
        if j >= 16 * i {
          BitOfAnd(MoveMask(lanes), 0xFFFF, j - 16 * i);
          BitOfMoveMask(lanes, j - 16 * i);
          LowBits16(j - 16 * i);
        }
      }
      mask := next;
    }
    forall i: nat ensures Bit(mask, i) == Bit(MoveMask(CompareEqual(bytes, value)), i) {
      BitOfMoveMask(CompareEqual(bytes, value), i);
    }
    SameBits(mask, MoveMask(CompareEqual(bytes, value)));
  }

  method QuartersMatch(bytes: seq<u8>, value: u8, slotMask: nat) returns (mask: nat)
    requires |bytes| == 64
    ensures mask == WideMatch(bytes, value, slotMask)
  {
    mask := QuartersMask(bytes, value);
    mask := And(mask, slotMask);
  }

  method QuartersNonEmpty(bytes: seq<u8>, slotMask: nat) returns (mask: nat)
    requires |bytes| == 64
    ensures mask == WideNonEmpty(bytes, slotMask)
  {
    var emptyMask := QuartersMask(bytes, EMPTY);
    MoveMaskBound(CompareEqual(bytes, EMPTY));
    mask := And(Not(emptyMask, 64), slotMask);
  }

  lemma {:induction false} LowBits16(i: nat)
    ensures i < 16 ==> Bit(0xFFFF, i)
  {
    WordSizes();
    if i < 16 {
      assert 0xFFFF == Not(0, 16);
      BitOfNot(0, 16, i);
      ZeroBit(i);
    }
  }

  // The scalar fallback: mask |= 1 << i for every matching byte.
  method ScalarMatch(bytes: seq<u8>, value: u8, slotMask: nat) returns (mask: nat)
    ensures mask == WideMatch(bytes, value, slotMask)
  {
    mask := 0;
    forall j: nat ensures !Bit(0, j) { ZeroBit(j); }
    for i := 0 to |bytes|
      invariant forall j: nat :: Bit(mask, j) <==> j < i && bytes[j] == value
    {
      if bytes[i] == value {
        mask := SetBit(mask, i);
      }
    }
    forall i: nat ensures Bit(mask, i) == Bit(MoveMask(CompareEqual(bytes, value)), i) {
      BitOfMoveMask(CompareEqual(bytes, value), i);
    }
    SameBits(mask, MoveMask(CompareEqual(bytes, value)));
    mask := And(mask, slotMask);
  }

  // The scalar fallback for occupied slots agrees with the complemented compare.
  method ScalarNonEmpty(bytes: seq<u8>, slotMask: nat) returns (mask: nat)
    ensures mask == WideNonEmpty(bytes, slotMask)
  {
    mask := 0;
    forall j: nat ensures !Bit(0, j) { ZeroBit(j); }
    for i := 0 to |bytes|
      invariant forall j: nat :: Bit(mask, j) <==> j < i && bytes[j] != EMPTY
    {
      if bytes[i] != EMPTY {
        mask := SetBit(mask, i);
      }
    }
    ghost var all := mask;
    mask := And(mask, slotMask);
    forall i: nat ensures Bit(mask, i) <==> i < |bytes| && bytes[i] != EMPTY && Bit(slotMask, i) {
      BitOfAnd(all, slotMask, i);
    }
    WideNonEmptyMatches(bytes, slotMask);
    MatchesUnique(mask, WideNonEmpty(bytes, slotMask), bytes, EMPTY, slotMask, false);
  }

  method SetBit(mask: nat, i: nat) returns (mask': nat)
    ensures forall j: nat :: Bit(mask', j) <==> Bit(mask, j) || j == i
  {
    mask' := Or(mask, Pow2(i));
    forall j: nat ensures Bit(mask', j) <==> Bit(mask, j) || j == i {
      BitOfOr(mask, Pow2(i), j);
      BitOfPow2(i, j);
    }
  }

  // ---- iteration ----

  // The mask iterators of all three widths.
  class BitMask {
    var bits: nat

    constructor (bits: nat)
      ensures this.bits == bits
    {
      this.bits := bits;
    }

    method Next() returns (r: Option<nat>)
      modifies this
      ensures old(bits) == 0 ==> r == None && bits == 0
      ensures old(bits) != 0 ==> bits < old(bits) && r.Some? && Bit(old(bits), r.value)
      ensures old(bits) != 0 ==> forall i: nat :: i < r.value ==> !Bit(old(bits), i)
      ensures old(bits) != 0 ==> forall i: nat :: Bit(bits, i) <==> Bit(old(bits), i) && i != r.value
    {
      if bits == 0 {
        return None;
      }
      var i := TrailingZeros(bits);
      SomeBit(bits);
      forall j: nat ensures Bit(And(bits, bits - 1), j) <==> Bit(bits, j) && j != i { ClearLowest(bits, j); }
      ClearLowest(bits, 0);
      bits := And(bits, bits - 1);
      return Some(i);
    }
  }

  function LowestSetBit(mask: nat): Option<nat> {
    if mask == 0 then None else Some(TrailingZeros(mask))
  }

  // Draining the iterator yields the set bits, each once, ascending.
  method Collect(mask: nat) returns (slots: seq<nat>)
    ensures forall i: nat :: i in slots <==> Bit(mask, i)
    ensures forall p, q :: 0 <= p < q < |slots| ==> slots[p] < slots[q]
  {
    var it := new BitMask(mask);
    slots := [];
    while it.bits != 0
      invariant fresh(it)
      invariant forall i: nat :: Bit(mask, i) <==> i in slots || Bit(it.bits, i)
      invariant forall p, q :: 0 <= p < q < |slots| ==> slots[p] < slots[q]
      invariant forall p, i: nat :: 0 <= p < |slots| && Bit(it.bits, i) ==> slots[p] < i
      decreases it.bits
    {
      var r := it.Next();
      slots := slots + [r.value];
    }
    forall i: nat ensures !Bit(0, i) { ZeroBit(i); }
  }

  // ---- the 16-byte group with its overflow byte ----

  const GROUP_SIZE: nat := 15
  const META_GROUP_BYTES: nat := 16

  // match_byte: byte 15 is the overflow byte, so only 15 slots count.
  function MatchByte(bytes: seq<u8>, value: u8): nat
    requires |bytes| == META_GROUP_BYTES
  {
    WideMatch(bytes, value, 0x7FFF)
  }

  function MatchNonEmpty(bytes: seq<u8>): nat
    requires |bytes| == META_GROUP_BYTES
  {
    WideNonEmpty(bytes, 0x7FFF)
  }

  lemma {:induction false} SlotBits(i: nat)
    ensures Bit(0x7FFF, i) <==> i < GROUP_SIZE
  {
    WordSizes();
    Pow2Add(8, 7);
    assert Pow2(7) == 128;
    if i < 15 {
      assert 0x7FFF == Not(0, 15);
      BitOfNot(0, 15, i);
      ZeroBit(i);
    } else {
      HighBitsClear(0x7FFF, 15, i);
    }
  }

  lemma {:induction false} MatchByteSlots(bytes: seq<u8>, value: u8)
    requires |bytes| == META_GROUP_BYTES
    ensures forall i: nat :: Bit(MatchByte(bytes, value), i) <==> i < GROUP_SIZE && bytes[i] == value
  {
    WideMatchMatches(bytes, value, 0x7FFF);
    forall i: nat ensures Bit(0x7FFF, i) <==> i < GROUP_SIZE { SlotBits(i); }
  }

  lemma {:induction false} MatchNonEmptySlots(bytes: seq<u8>)
    requires |bytes| == META_GROUP_BYTES
    ensures forall i: nat :: Bit(MatchNonEmpty(bytes), i) <==> i < GROUP_SIZE && bytes[i] != EMPTY
  {
    WideNonEmptyMatches(bytes, 0x7FFF);
    forall i: nat ensures Bit(0x7FFF, i) <==> i < GROUP_SIZE { SlotBits(i); }
  }
}
