// The dense slot bitset of try_build_seed: 64 slots a word (src/perfect/chd.rs).
module Bitset {
  import opened Bits
  import opened Hashing

  function Words(m: nat): nat { (m + 63) / 64 }

  predicate BitsetTest(bits: seq<u64>, i: nat)
    requires i / 64 < |bits|
  {
    And(bits[i / 64], Pow2(i % 64)) != 0
  }

  lemma {:induction false} WordOr(word: u64, j: nat)
    requires j < 64
    ensures Or(word, Pow2(j)) < WORD
  {
    WordSizes();
    Pow2Monotone(j, 64);
    OrBound(word, Pow2(j), 64);
  }

  method BitsetSet(bits: array<u64>, i: nat)
    requires i / 64 < bits.Length
    modifies bits
    ensures Or(old(bits[i / 64]), Pow2(i % 64)) < WORD
    ensures bits[..] == old(bits[..])[i / 64 := Or(old(bits[i / 64]), Pow2(i % 64))]
  {
    WordOr(bits[i / 64], i % 64);
    bits[i / 64] := Or(bits[i / 64], Pow2(i % 64));
  }

  // The words hold exactly the slots of occ.
  ghost predicate Represents(bits: seq<u64>, m: nat, occ: set<nat>) {
    && |bits| == Words(m)
    && (forall s :: s in occ ==> s < m)
    && (forall s: nat :: s < m ==> (Bit(bits[s / 64], s % 64) <==> s in occ))
  }

  lemma {:induction false} TestIsMembership(bits: seq<u64>, m: nat, occ: set<nat>, s: nat)
    requires Represents(bits, m, occ) && s < m
    ensures BitsetTest(bits, s) <==> s in occ
  {
    MaskTest(bits[s / 64], s % 64);
  }

  lemma {:induction false} SetAddsSlot(bits: seq<u64>, m: nat, occ: set<nat>, s: nat)
    requires Represents(bits, m, occ) && s < m && Or(bits[s / 64], Pow2(s % 64)) < WORD
    ensures Represents(bits[s / 64 := Or(bits[s / 64], Pow2(s % 64))], m, occ + {s})
  {
    var bits' := bits[s / 64 := Or(bits[s / 64], Pow2(s % 64))];
    forall t: nat | t < m ensures Bit(bits'[t / 64], t % 64) <==> t in occ + {s} {
      if t / 64 == s / 64 {
        BitOfOr(bits[s / 64], Pow2(s % 64), t % 64);
        BitOfPow2(s % 64, t % 64);
      }
    }
  }

  lemma {:induction false} EmptyBitset(m: nat)
    ensures Represents(seq(Words(m), _ => 0), m, {})
  {
    forall s: nat | s < m ensures !Bit(0, s % 64) {
      ZeroBit(s % 64);
    }
  }
}
