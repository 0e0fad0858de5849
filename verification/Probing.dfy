// Triangular probing modulo a power of two visits every group exactly once (src/raw/mod.rs).
module Probing {
  import opened Bits
  import opened Seqs

  // x & (groups - 1) for a power of two: the remainder by repeated subtraction.
  function Masked(x: nat, groups: nat): (r: nat)
    requires groups > 0
    ensures r < groups
  {
    if x < groups then x else Masked(x - groups, groups)
  }

  // The p-th group probed from home: the step grows by one each time.
  function ProbeSeq(home: nat, p: nat, groups: nat): (g: nat)
    requires groups > 0
    ensures g < groups
  {
    if p == 0 then Masked(home, groups) else Masked(ProbeSeq(home, p - 1, groups) + p, groups)
  }

  function Triangle(p: nat): nat {
    if p == 0 then 0 else Triangle(p - 1) + p
  }

  lemma {:induction false} TriangleFormula(p: nat)
    ensures 2 * Triangle(p) == p * (p + 1)
  {
    if p > 0 { TriangleFormula(p - 1); }
  }

  lemma {:induction false} AtLeastOnce(k: int, g: nat)
    requires k >= 1
    ensures k * g >= g
  {
  }

  lemma {:induction false} Distribute(a: int, b: int, g: int)
    ensures (a - b) * g == a * g - b * g && (a + b) * g == a * g + b * g
  {
  }

  lemma {:induction false} MaskedIsRemainder(x: nat, g: nat) returns (c: nat)
    requires g > 0
    ensures x == c * g + Masked(x, g)
  {
    if x < g {
      c := 0;
    } else {
      c := MaskedIsRemainder(x - g, g);
      Distribute(c, 1, g);
      c := c + 1;
    }
  }

  lemma {:induction false} MaskedAddend(a: nat, b: nat, g: nat)
    requires g > 0
    ensures Masked(Masked(a, g) + b, g) == Masked(a + b, g)
  {
    if a >= g { MaskedAddend(a - g, b, g); }
  }

  lemma {:induction false} ProbeIsTriangular(home: nat, p: nat, groups: nat)
    requires groups > 0
    ensures ProbeSeq(home, p, groups) == Masked(home + Triangle(p), groups)
  {
    if p > 0 {
      ProbeIsTriangular(home, p - 1, groups);
      MaskedAddend(home + Triangle(p - 1), p, groups);
    }
  }

  lemma {:induction false} OddTimes(h: nat, b: nat)
    ensures (2 * h + 1) * b == 2 * (h * b) + b
  {
  }

  lemma {:induction false} TimesDouble(a: nat, b: nat)
    ensures a * (2 * b) == 2 * (a * b)
  {
  }

  lemma {:induction false} EvenFactor(a: nat, b: nat, c: nat)
    requires a % 2 == 1 && a * b == 2 * c
    ensures b % 2 == 0 && a * (b / 2) == c
  {
    var h, half := a / 2, b / 2;
    assert a == 2 * h + 1;
    OddTimes(h, b);
    assert b == 2 * half;
    TimesDouble(a, half);
  }

  // An odd factor does not help divide by a power of two.
  lemma {:induction false} OddFactor(a: nat, b: nat, n: nat, c: nat) returns (e: nat)
    requires a % 2 == 1 && a * b == c * Pow2(n)
    ensures b == e * Pow2(n)
    decreases n
  {
    if n == 0 {
      e := b;
    } else {
      TimesDouble(c, Pow2(n - 1));
      EvenFactor(a, b, c * Pow2(n - 1));
      e := OddFactor(a, b / 2, n - 1, c);
      TimesDouble(e, Pow2(n - 1));
    }
  }

  // So the other factor, if small, is zero.
  lemma {:induction false} SmallFactorVanishes(a: nat, b: nat, n: nat, c: nat)
    requires a % 2 == 1 && a * b == c * Pow2(n) && b < Pow2(n)
    ensures b == 0
  {
    var e := OddFactor(a, b, n, c);
    if e >= 1 { AtLeastOnce(e, Pow2(n)); }
  }

  lemma {:induction false} SameResidueGap(x: nat, y: nat, g: nat) returns (c: nat)
    requires g > 0 && x <= y && Masked(x, g) == Masked(y, g)
    ensures y - x == c * g
  {
    var q := MaskedIsRemainder(y, g);
    var q' := MaskedIsRemainder(x, g);
    Distribute(q, q', g);
    Distribute(q', q, g);
    if q < q' { AtLeastOnce(q' - q, g); }
    c := q - q';
  }

  lemma {:induction false} TriangleGap(p: nat, q: nat)
    requires p <= q
    ensures 2 * (Triangle(q) - Triangle(p)) == (q - p) * (q + p + 1)
    ensures Triangle(p) <= Triangle(q)
  {
    TriangleFormula(p);
    TriangleFormula(q);
    assert q * (q + 1) - p * (p + 1) == (q - p) * (q + p + 1);
  }

  // gap and sum have opposite parity, so the power of two divides the even one.
  lemma {:induction false} GapVanishes(gap: nat, sum: nat, n: nat, c: nat)
    requires gap * sum == c * Pow2(n) && sum * gap == c * Pow2(n) && (gap % 2 == 1 || sum % 2 == 1)
    requires gap < Pow2(n) && 0 < sum < Pow2(n)
    ensures gap == 0
  {
    if gap % 2 == 1 {
      SmallFactorVanishes(gap, sum, n, c);
    } else {
      SmallFactorVanishes(sum, gap, n, c);
    }
  }

  lemma {:induction false} Commute(a: nat, b: nat)
    ensures a * b == b * a
  {
  }

  // Two different steps below 2^k probe different groups.
  lemma {:induction false} ProbesDiffer(home: nat, p: nat, q: nat, k: nat)
    requires p < q < Pow2(k)
    ensures ProbeSeq(home, p, Pow2(k)) != ProbeSeq(home, q, Pow2(k))
  {
    if ProbeSeq(home, p, Pow2(k)) == ProbeSeq(home, q, Pow2(k)) {
      var gap, sum, c := SameProbeGap(home, p, q, k);
      GapVanishes(gap, sum, k + 1, c);
    }
  }

  lemma {:induction false} SameProbeGap(home: nat, p: nat, q: nat, k: nat) returns (gap: nat, sum: nat, c: nat)
    requires p < q < Pow2(k) && ProbeSeq(home, p, Pow2(k)) == ProbeSeq(home, q, Pow2(k))
    ensures gap * sum == c * Pow2(k + 1) && sum * gap == c * Pow2(k + 1) && (gap % 2 == 1 || sum % 2 == 1)
    ensures 0 < gap < Pow2(k + 1) && 0 < sum < Pow2(k + 1)
  {
    gap, sum := q - p, q + p + 1;
    assert gap % 2 == 1 || sum % 2 == 1;
    ProbeIsTriangular(home, p, Pow2(k));
    ProbeIsTriangular(home, q, Pow2(k));
    TriangleGap(p, q);
    c := SameResidueGap(home + Triangle(p), home + Triangle(q), Pow2(k));
    TimesDouble(c, Pow2(k));
    Commute(gap, sum);
  }

  ghost function Below(n: nat): (below: set<nat>)
    ensures forall x: nat :: x in below <==> x < n
    ensures |below| == n
  {
    if n == 0 then {} else Below(n - 1) + {n - 1}
  }

  lemma {:induction false} DistinctSize<T>(s: seq<T>)
    requires forall i, j :: 0 <= i < j < |s| ==> s[i] != s[j]
    ensures |Members(s)| == |s|
  {
    if s != [] {
      var t, last := s[..|s| - 1], s[|s| - 1];
      DistinctSize(t);
      assert last !in t;
      assert s == t + [last];
      assert Members(s) == Members(t) + {last};
    }
  }

  lemma {:induction false} SubsetSize<T>(a: set<T>, b: set<T>)
    requires a <= b
    ensures |a| <= |b|
  {
    if x :| x in a {
      SubsetSize(a - {x}, b - {x});
    }
  }

  // n distinct numbers below n are all the numbers below n.
  lemma {:induction false} DistinctCover(s: seq<nat>, x: nat)
    requires forall i, j :: 0 <= i < j < |s| ==> s[i] != s[j]
    requires forall i :: 0 <= i < |s| ==> s[i] < |s|
    requires x < |s|
    ensures x in s
  {
    DistinctSize(s);
    if x !in s {
      SubsetSize(Members(s), Below(|s|) - {x});
    }
  }

  // Every group is probed within the first 2^k steps.
  lemma {:induction false} ProbesCover(home: nat, k: nat, g: nat) returns (p: nat)
    requires g < Pow2(k)
    ensures p < Pow2(k) && ProbeSeq(home, p, Pow2(k)) == g
  {
    var n := Pow2(k);
    var s := seq(n, i requires 0 <= i < n => ProbeSeq(home, i, n));
    forall i, j | 0 <= i < j < |s| ensures s[i] != s[j] {
      ProbesDiffer(home, i, j, k);
    }
    DistinctCover(s, g);
    p :| 0 <= p < n && s[p] == g;
  }
}
