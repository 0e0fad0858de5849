// The 64-bit mixers of the perfect-hash family (src/perfect/util.rs and the
// head of src/perfect/chd.rs).  Wrapping arithmetic is written out modulo 2^64.
module Hashing {
  import opened Bits

  const WORD: nat := 0x1_0000_0000_0000_0000

  type u64 = x: nat | x < 0x1_0000_0000_0000_0000
  type u32 = x: nat | x < 0x1_0000_0000
  type pos = x: nat | 0 < x witness 1

  function WrappingMul(x: u64, c: u64): u64 { x * c % WORD }

  function WrappingAdd(x: u64, c: u64): u64 { (x + c) % WORD }

  function WrappingSub(x: u64, c: u64): u64 { (x - c) % WORD }

  function Xor64(x: u64, y: u64): (z: u64) {
    WordSizes();
    XorBound(x, y, 64);
    Xor(x, y)
  }

  // x ^ (x >> s).
  function Fold(x: u64, s: nat): u64 {
    ShrBound(x, s);
    Xor64(x, Shr(x, s))
  }

  const GOLDEN: u64 := 0x9E3779B97F4A7C15

  function TimesA(x: u64): u64 { WrappingMul(x, 0xBF58476D1CE4E5B9) }

  function TimesB(x: u64): u64 { WrappingMul(x, 0x94D049BB133111EB) }

  function Mix(h: u64, seed: u64): u64 {
    Fold(TimesB(Fold(TimesA(Xor64(h, seed)), 30)), 31)
  }

  // The value SlotOf reduces modulo the table size.
  function SlotMix(h: u64, seed: u64, d: u32): u64 {
    Fold(TimesA(Fold(TimesB(WrappingAdd(Xor64(h, WrappingAdd(seed, GOLDEN)), TimesA(d))), 31)), 32)
  }

  function BucketOf(h: u64, seed: u64, r: pos): nat {
    Shr(Mix(h, seed), 32) % r
  }

  function SlotOf(h: u64, seed: u64, d: u32, m: pos): nat {
    SlotMix(h, seed, d) % m
  }

  // The inverse of every step: the odd multipliers have inverses modulo 2^64,
  // and a right fold is undone by folding with s and 2s while 3s >= 64.
  function OverA(x: u64): u64 { WrappingMul(x, 0x96DE1B173F119089) }

  function OverB(x: u64): u64 { WrappingMul(x, 0x319642B2D24D8EC3) }

  function Unfold(y: u64, s: nat): u64 {
    ShrBound(y, 2 * s);
    Xor64(Fold(y, s), Shr(y, 2 * s))
  }

  function Unmix(y: u64, seed: u64): u64 {
    Xor64(OverA(Unfold(OverB(Unfold(y, 31)), 30)), seed)
  }

  function UnslotMix(y: u64, seed: u64, d: u32): u64 {
    Xor64(WrappingSub(OverB(Unfold(OverA(Unfold(y, 32)), 31)), TimesA(d)), WrappingAdd(seed, GOLDEN))
  }

  lemma {:induction false} SameResidue(a: nat, b: nat, k: int)
    requires a < WORD && b < WORD && a == b + k * WORD
    ensures a == b
  {
  }

  // Multiplying by c and then by its inverse modulo 2^64 is the identity.
  lemma {:induction false} MulInverse(x: u64, c: u64, inverse: u64)
    requires c * inverse % WORD == 1
    ensures WrappingMul(WrappingMul(x, c), inverse) == x
  {
    var y := WrappingMul(x, c);
    var z := WrappingMul(y, inverse);
    var q := x * c / WORD;
    var q' := y * inverse / WORD;
    var q'' := c * inverse / WORD;
    assert y * inverse == x * (c * inverse) - q * WORD * inverse by {
      assert y == x * c - q * WORD;
      assert (x * c - q * WORD) * inverse == x * c * inverse - q * WORD * inverse;
      assert x * c * inverse == x * (c * inverse);
    }
    assert x * (c * inverse) == x * (q'' * WORD + 1) == x * q'' * WORD + x;
    assert q * WORD * inverse == q * inverse * WORD;
    assert z == x + (x * q'' - q * inverse - q') * WORD;
    SameResidue(z, x, x * q'' - q * inverse - q');
  }

  lemma {:induction false} MultiplierInverses(x: u64)
    ensures OverA(TimesA(x)) == x && TimesA(OverA(x)) == x
    ensures OverB(TimesB(x)) == x && TimesB(OverB(x)) == x
  {
    MulInverse(x, 0xBF58476D1CE4E5B9, 0x96DE1B173F119089);
    MulInverse(x, 0x96DE1B173F119089, 0xBF58476D1CE4E5B9);
    MulInverse(x, 0x94D049BB133111EB, 0x319642B2D24D8EC3);
    MulInverse(x, 0x319642B2D24D8EC3, 0x94D049BB133111EB);
  }

  lemma {:induction false} XorTwice(x: u64, y: u64)
    ensures Xor64(Xor64(x, y), y) == x
  {
    forall i: nat ensures Bit(Xor(Xor(x, y), y), i) == Bit(x, i) {
      BitOfXor(Xor(x, y), y, i);
      BitOfXor(x, y, i);
    }
    SameBits(Xor(Xor(x, y), y), x);
  }

  lemma {:induction false} BitOfFold(x: u64, s: nat, i: nat)
    ensures Bit(Fold(x, s), i) == (Bit(x, i) != Bit(x, i + s))
  {
    BitOfXor(x, Shr(x, s), i);
    BitOfShr(x, s, i);
  }

  lemma {:induction false} BitOfUnfold(y: u64, s: nat, i: nat)
    ensures Bit(Unfold(y, s), i) == ((Bit(y, i) != Bit(y, i + s)) != Bit(y, i + 2 * s))
  {
    BitOfXor(Fold(y, s), Shr(y, 2 * s), i);
    BitOfFold(y, s, i);
    BitOfShr(y, 2 * s, i);
  }

  lemma {:induction false} FoldInverse(x: u64, s: nat)
    requires 3 * s >= 64
    ensures Unfold(Fold(x, s), s) == x && Fold(Unfold(x, s), s) == x
  {
    forall i: nat ensures Bit(Unfold(Fold(x, s), s), i) == Bit(x, i) && Bit(Fold(Unfold(x, s), s), i) == Bit(x, i) {
      UnfoldFoldBit(x, s, i);
      FoldUnfoldBit(x, s, i);
    }
    SameBits(Unfold(Fold(x, s), s), x);
    SameBits(Fold(Unfold(x, s), s), x);
  }

  lemma {:induction false} UnfoldFoldBit(x: u64, s: nat, i: nat)
    requires 3 * s >= 64
    ensures Bit(Unfold(Fold(x, s), s), i) == Bit(x, i)
  {
    WordSizes();
    HighBitsClear(x, 64, i + 3 * s);
    BitOfUnfold(Fold(x, s), s, i);
    BitOfFold(x, s, i);
    BitOfFold(x, s, i + s);
    BitOfFold(x, s, i + 2 * s);
  }

  lemma {:induction false} FoldUnfoldBit(x: u64, s: nat, i: nat)
    requires 3 * s >= 64
    ensures Bit(Fold(Unfold(x, s), s), i) == Bit(x, i)
  {
    WordSizes();
    HighBitsClear(x, 64, i + 3 * s);
    BitOfFold(Unfold(x, s), s, i);
    BitOfUnfold(x, s, i);
    BitOfUnfold(x, s, i + s);
  }

  // For every seed, Mix is a bijection on 64-bit words: Unmix is its two-sided inverse.
  lemma {:induction false} MixIsBijective(x: u64, seed: u64)
    ensures Unmix(Mix(x, seed), seed) == x
    ensures Mix(Unmix(x, seed), seed) == x
  {
    var a := TimesA(Xor64(x, seed));
    var b := TimesB(Fold(a, 30));
    FoldInverse(b, 31);
    MultiplierInverses(Fold(a, 30));
    FoldInverse(a, 30);
    MultiplierInverses(Xor64(x, seed));
    XorTwice(x, seed);

    var a' := OverB(Unfold(x, 31));
    var b' := OverA(Unfold(a', 30));
    XorTwice(b', seed);
    MultiplierInverses(Unfold(a', 30));
    FoldInverse(a', 30);
    MultiplierInverses(Unfold(x, 31));
    FoldInverse(x, 31);
  }

  lemma {:induction false} SubUndoesAdd(x: u64, t: u64)
    ensures WrappingSub(WrappingAdd(x, t), t) == x
    ensures WrappingAdd(WrappingSub(x, t), t) == x
  {
  }

  // For every seed and displacement, the word SlotOf reduces modulo m is a bijection of the hash.
  lemma {:induction false} SlotMixIsBijective(x: u64, seed: u64, d: u32)
    ensures UnslotMix(SlotMix(x, seed, d), seed, d) == x
    ensures SlotMix(UnslotMix(x, seed, d), seed, d) == x
  {
    UnslotAfterSlot(x, seed, d);
    SlotAfterUnslot(x, seed, d);
  }

  lemma {:induction false} UnslotAfterSlot(x: u64, seed: u64, d: u32)
    ensures UnslotMix(SlotMix(x, seed, d), seed, d) == x
  {
    var k, t := WrappingAdd(seed, GOLDEN), TimesA(d);
    var y := Xor64(x, k);
    var a := WrappingAdd(y, t);
    var b := Fold(TimesB(a), 31);
    FoldInverse(TimesA(b), 32);
    MultiplierInverses(b);
    FoldInverse(TimesB(a), 31);
    MultiplierInverses(a);
    SubUndoesAdd(y, t);
    XorTwice(x, k);
  }

  lemma {:induction false} SlotAfterUnslot(x: u64, seed: u64, d: u32)
    ensures SlotMix(UnslotMix(x, seed, d), seed, d) == x
  {
    var k, t := WrappingAdd(seed, GOLDEN), TimesA(d);
    var b := OverA(Unfold(x, 32));
    var a := OverB(Unfold(b, 31));
    XorTwice(WrappingSub(a, t), k);
    SubUndoesAdd(a, t);
    MultiplierInverses(Unfold(b, 31));
    FoldInverse(b, 31);
    MultiplierInverses(Unfold(x, 32));
    FoldInverse(x, 32);
  }

  // The bucket is the high half of the mixed word, whatever that word is.
  lemma {:induction false} BucketOfAnyWord(y: u64, seed: u64, r: pos)
    ensures BucketOf(Unmix(y, seed), seed, r) == y / 0x1_0000_0000 % r
  {
    MixIsBijective(y, seed);
    WordSizes();
    ShrIsDivision(y, 32);
  }

  lemma {:induction false} ShrIsDivision(x: nat, k: nat)
    ensures Shr(x, k) == x / Pow2(k)
  {
    if k > 0 {
      ShrIsDivision(x / 2, k - 1);
      DivideTwice(x, Pow2(k - 1));
    }
  }

  lemma {:induction false} DivideTwice(x: nat, p: pos)
    ensures x / 2 / p == x / (2 * p)
  {
    var q, r, e := x / 2 / p, x / 2 % p, x % 2;
    assert x / 2 == p * q + r;
    assert x == 2 * (p * q + r) + e == (2 * p) * q + (2 * r + e);
    DivisionIs(x, 2 * p, q, 2 * r + e);
  }

  lemma {:induction false} MoreIsMore(d: pos, q: int, q': int)
    ensures q < q' ==> d * q + d <= d * q'
  {
    if q < q' {
      var k: nat := q' - q - 1;
      assert q' == q + 1 + k;
      assert d * (q + 1 + k) == d * q + d + d * k;
      assert d * k >= 0;
    }
  }

  lemma {:induction false} DivisionIs(x: nat, d: pos, q: int, r: nat)
    requires x == d * q + r && r < d
    ensures x / d == q && x % d == r
  {
    assert x == d * (x / d) + x % d;
    MoreIsMore(d, q, x / d);
    MoreIsMore(d, x / d, q);
  }

  // Every word is the slot word of some hash under any displacement; the slot is
  // that word reduced by the table size.
  lemma {:induction false} SlotOfAnyWord(y: u64, seed: u64, d: u32, m: pos)
    ensures SlotOf(UnslotMix(y, seed, d), seed, d, m) == y % m
  {
    SlotMixIsBijective(y, seed, d);
  }

  // No two displacements send a hash to the same slot word.
  lemma {:induction false} DisplacementsDiffer(h: u64, seed: u64, d: u32, d': u32)
    requires d != d'
    ensures SlotMix(h, seed, d) != SlotMix(h, seed, d')
  {
    UnslotAfterSlot(h, seed, d);
    UnslotAfterSlot(h, seed, d');
    var y, k := SlotMix(h, seed, d), WrappingAdd(seed, GOLDEN);
    var w := OverB(Unfold(OverA(Unfold(y, 32)), 31));
    XorTwice(WrappingSub(w, TimesA(d)), k);
    XorTwice(WrappingSub(w, TimesA(d')), k);
    SubDiffers(w, TimesA(d), TimesA(d'));
    MultiplierInverses(d);
    MultiplierInverses(d');
  }

  lemma {:induction false} SubDiffers(w: u64, t: u64, t': u64)
    ensures WrappingSub(w, t) == WrappingSub(w, t') ==> t == t'
  {
  }

  // Two displacements of one hash come to different slots in some table of fewer than 2^32 slots.
  lemma {:induction false} DisplacementsSeparate(h: u64, seed: u64, d: u32, d': u32) returns (m: pos)
    requires d != d'
    ensures m < 0x1_0000_0000 && SlotOf(h, seed, d, m) != SlotOf(h, seed, d', m)
  {
    DisplacementsDiffer(h, seed, d, d');
    m := TableThatSeparates(SlotMix(h, seed, d), SlotMix(h, seed, d'));
  }

  lemma {:induction false} TableThatSeparates(x: u64, y: u64) returns (m: pos)
    requires x != y
    ensures m < 0x1_0000_0000 && x % m != y % m
  {
    var a, b, c := 0xFFFF_FFFF, 0xFFFF_FFFE, 0xFFFF_FFFD;
    if x % a != y % a { return a; }
    if x % b != y % b { return b; }
    var diff := if x < y then y - x else x - y;
    EqualResidues(x, y, a);
    EqualResidues(x, y, b);
    // A common multiple of two neighbours below 2^64 is their product, which leaves 2 modulo the next one.
    var q := diff / a;
    assert diff == a * q && diff == b * q + q;
    assert q % b == 0 && q < 2 * b;
    assert q == b && diff == a * b;
    assert diff % c == 2;
    if x % c == y % c { EqualResidues(x, y, c); }
    m := c;
  }

  lemma {:induction false} EqualResidues(x: u64, y: u64, m: pos)
    requires x % m == y % m
    ensures (if x < y then y - x else x - y) % m == 0
  {
    var hi, lo := if x < y then y else x, if x < y then x else y;
    assert hi - lo == m * (hi / m - lo / m);
    DivisionIs(hi - lo, m, hi / m - lo / m, 0);
  }
}
