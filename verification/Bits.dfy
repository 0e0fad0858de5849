// Bit operations on naturals, one definition for the 16-, 32- and 64-bit words
// the program uses.  A word of width w is a natural below Pow2(w).
module Bits {

  function Pow2(n: nat): (p: nat)
    ensures p > 0
  {
    if n == 0 then 1 else 2 * Pow2(n - 1)
  }

  // Bit i of x.
  predicate Bit(x: nat, i: nat) {
    if i == 0 then x % 2 == 1 else Bit(x / 2, i - 1)
  }

  function And(x: nat, y: nat): nat {
    if x == 0 || y == 0 then 0
    else 2 * And(x / 2, y / 2) + if x % 2 == 1 && y % 2 == 1 then 1 else 0
  }

  function Or(x: nat, y: nat): nat
    decreases x + y
  {
    if x == 0 then y
    else if y == 0 then x
    else 2 * Or(x / 2, y / 2) + if x % 2 == 1 || y % 2 == 1 then 1 else 0
  }

  function Xor(x: nat, y: nat): nat
    decreases x + y
  {
    if x == 0 then y
    else if y == 0 then x
    else 2 * Xor(x / 2, y / 2) + if x % 2 != y % 2 then 1 else 0
  }

  // Complement within w bits.
  function Not(x: nat, w: nat): nat
    requires x < Pow2(w)
  {
    Pow2(w) - 1 - x
  }

  function Shl(x: nat, s: nat): nat {
    if s == 0 then x else 2 * Shl(x, s - 1)
  }

  function Shr(x: nat, s: nat): nat {
    if s == 0 then x else Shr(x / 2, s - 1)
  }

  // Number of trailing zero bits.
  function TrailingZeros(x: nat): nat
    requires x > 0
  {
    if x % 2 == 1 then 0 else 1 + TrailingZeros(x / 2)
  }

  lemma {:induction false} ZeroBit(i: nat)
    ensures !Bit(0, i)
  {
    if i > 0 { ZeroBit(i - 1); }
  }

  lemma {:induction false} HalveAnd(x: nat, y: nat)
    requires x != 0 && y != 0
    ensures And(x, y) / 2 == And(x / 2, y / 2)
    ensures And(x, y) % 2 == 1 <==> x % 2 == 1 && y % 2 == 1
  {
  }

  lemma {:induction false} HalveOr(x: nat, y: nat)
    requires x != 0 && y != 0
    ensures Or(x, y) / 2 == Or(x / 2, y / 2)
    ensures Or(x, y) % 2 == 1 <==> x % 2 == 1 || y % 2 == 1
  {
  }

  lemma {:induction false} HalveXor(x: nat, y: nat)
    requires x != 0 && y != 0
    ensures Xor(x, y) / 2 == Xor(x / 2, y / 2)
    ensures Xor(x, y) % 2 == 1 <==> x % 2 != y % 2
  {
  }

  lemma {:induction false} BitOfAnd(x: nat, y: nat, i: nat)
    ensures Bit(And(x, y), i) == (Bit(x, i) && Bit(y, i))
    decreases i
  {
    if x == 0 || y == 0 {
      ZeroBit(i);
    } else {
      HalveAnd(x, y);
      if i > 0 { BitOfAnd(x / 2, y / 2, i - 1); }
    }
  }

  lemma {:induction false} BitOfOr(x: nat, y: nat, i: nat)
    ensures Bit(Or(x, y), i) == (Bit(x, i) || Bit(y, i))
    decreases i
  {
    if x == 0 || y == 0 {
      ZeroBit(i);
    } else {
      HalveOr(x, y);
      if i > 0 { BitOfOr(x / 2, y / 2, i - 1); }
    }
  }

  lemma {:induction false} BitOfXor(x: nat, y: nat, i: nat)
    ensures Bit(Xor(x, y), i) == (Bit(x, i) != Bit(y, i))
    decreases i
  {
    if x == 0 || y == 0 {
      ZeroBit(i);
    } else {
      HalveXor(x, y);
      if i > 0 { BitOfXor(x / 2, y / 2, i - 1); }
    }
  }

  lemma {:induction false} BitOfShr(x: nat, s: nat, i: nat)
    ensures Bit(Shr(x, s), i) == Bit(x, i + s)
    decreases s
  {
    if s > 0 { BitOfShr(x / 2, s - 1, i); }
  }

  lemma {:induction false} BitOfPow2(j: nat, i: nat)
    ensures Bit(Pow2(j), i) == (i == j)
    decreases i
  {
    if j == 0 {
      if i > 0 { ZeroBit(i - 1); }
    } else if i > 0 {
      BitOfPow2(j - 1, i - 1);
    }
  }

  lemma {:induction false} BitOfNot(x: nat, w: nat, i: nat)
    requires x < Pow2(w) && i < w
    ensures Bit(Not(x, w), i) == !Bit(x, i)
    decreases i
  {
    if i > 0 {
      assert Not(x, w) / 2 == Not(x / 2, w - 1);
      BitOfNot(x / 2, w - 1, i - 1);
    }
  }

  lemma {:induction false} BitOfShl(x: nat, s: nat, i: nat)
    ensures Bit(Shl(x, s), i) == (i >= s && Bit(x, i - s))
    decreases s
  {
    if s > 0 && i > 0 {
      assert Shl(x, s) / 2 == Shl(x, s - 1);
      BitOfShl(x, s - 1, i - 1);
    }
  }

  // A word has no bit at or above its width.
  lemma {:induction false} HighBitsClear(x: nat, w: nat, i: nat)
    requires x < Pow2(w) && w <= i
    ensures !Bit(x, i)
    decreases w
  {
    if w == 0 { ZeroBit(i); } else { HighBitsClear(x / 2, w - 1, i - 1); }
  }

  lemma {:induction false} SomeBit(x: nat)
    requires x > 0
    ensures Bit(x, TrailingZeros(x))
    ensures forall i :: 0 <= i < TrailingZeros(x) ==> !Bit(x, i)
  {
    if x % 2 == 0 {
      SomeBit(x / 2);
      forall i | 0 <= i < TrailingZeros(x) ensures !Bit(x, i) {
        if i > 0 { assert !Bit(x / 2, i - 1); }
      }
    }
  }

  // Words are equal when all their bits are.
  lemma {:induction false} SameBits(x: nat, y: nat)
    requires forall i: nat :: Bit(x, i) == Bit(y, i)
    ensures x == y
    decreases x
  {
    if x == 0 {
      if y > 0 { SomeBit(y); ZeroBit(TrailingZeros(y)); }
    } else {
      forall i: nat ensures Bit(x / 2, i) == Bit(y / 2, i) {
        assert Bit(x, i + 1) == Bit(y, i + 1);
      }
      assert Bit(x, 0) == Bit(y, 0);
      SameBits(x / 2, y / 2);
    }
  }

  lemma {:induction false} OrBound(x: nat, y: nat, w: nat)
    requires x < Pow2(w) && y < Pow2(w)
    ensures Or(x, y) < Pow2(w)
    decreases w
  {
    if w > 0 && x != 0 && y != 0 { OrBound(x / 2, y / 2, w - 1); }
  }

  lemma {:induction false} XorBound(x: nat, y: nat, w: nat)
    requires x < Pow2(w) && y < Pow2(w)
    ensures Xor(x, y) < Pow2(w)
    decreases w
  {
    if w > 0 && x != 0 && y != 0 { XorBound(x / 2, y / 2, w - 1); }
  }

  lemma {:induction false} ShrBound(x: nat, s: nat)
    ensures Shr(x, s) <= x
  {
    if s > 0 { ShrBound(x / 2, s - 1); }
  }

  lemma {:induction false} Pow2Add(a: nat, b: nat)
    ensures Pow2(a + b) == Pow2(a) * Pow2(b)
  {
    if a > 0 {
      Pow2Add(a - 1, b);
      assert Pow2(a + b) == 2 * Pow2(a - 1 + b);
    }
  }

  lemma {:induction false} WordSizes()
    ensures Pow2(8) == 0x100
    ensures Pow2(16) == 0x1_0000
    ensures Pow2(32) == 0x1_0000_0000
    ensures Pow2(64) == 0x1_0000_0000_0000_0000
  {
    assert Pow2(4) == 16;
    Pow2Add(4, 4);
    Pow2Add(8, 8);
    Pow2Add(16, 16);
    Pow2Add(32, 32);
  }

  lemma {:induction false} AndBound(x: nat, y: nat)
    ensures And(x, y) <= x && And(x, y) <= y
  {
    if x != 0 && y != 0 { AndBound(x / 2, y / 2); }
  }

  lemma {:induction false} Pow2Monotone(a: nat, b: nat)
    requires a <= b
    ensures Pow2(a) <= Pow2(b)
    ensures a < b ==> Pow2(a) < Pow2(b)
  {
    if a < b { Pow2Monotone(a, b - 1); }
  }

  // Testing one bit with a mask: x & (1 << j) != 0.
  lemma {:induction false} MaskTest(x: nat, j: nat)
    ensures (And(x, Pow2(j)) != 0) == Bit(x, j)
  {
    var y := And(x, Pow2(j));
    BitOfAnd(x, Pow2(j), j);
    BitOfPow2(j, j);
    if y == 0 {
      ZeroBit(j);
    } else {
      var i := TrailingZeros(y);
      SomeBit(y);
      BitOfAnd(x, Pow2(j), i);
      BitOfPow2(j, i);
    }
  }

  // Kernighan's step: x & (x - 1) clears the lowest set bit and no other.
  lemma {:induction false} ClearLowest(x: nat, i: nat)
    requires x > 0
    ensures And(x, x - 1) < x
    ensures Bit(And(x, x - 1), i) == (Bit(x, i) && i != TrailingZeros(x))
    decreases x
  {
    AndBound(x, x - 1);
    if x % 2 == 1 {
      BitOfAnd(x, x - 1, i);
      if i > 0 { assert Bit(x - 1, i) == Bit((x - 1) / 2, i - 1); }
    } else {
      ClearLowest(x / 2, if i == 0 then 0 else i - 1);
      assert (x - 1) / 2 == x / 2 - 1;
      assert And(x, x - 1) == 2 * And(x / 2, x / 2 - 1);
    }
  }
}
