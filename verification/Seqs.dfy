// Sequences: laws of concatenation and insertion, and sequences without repetition.

module Seqs {
  lemma {:induction false} Assoc<X>(a: seq<X>, b: seq<X>, c: seq<X>)
    ensures (a + b) + c == a + (b + c)
  {
  }

  lemma {:induction false} TailOfConcat<X>(a: seq<X>, b: seq<X>)
    requires a != []
    ensures (a + b)[0] == a[0] && (a + b)[1..] == a[1..] + b
  {
  }

  lemma {:induction false} NothingBefore<X>(a: seq<X>, b: seq<X>)
    requires a == []
    ensures a + b == b
  {
  }

  lemma {:induction false} NothingBehind<X>(a: seq<X>)
    ensures a + [] == a
  {
  }

  // Inserting `b` into `a` in front of position i.
  function Spliced<X>(a: seq<X>, i: nat, b: seq<X>): seq<X>
    requires i <= |a|
  {
    if i == 0 then b + a else [a[0]] + Spliced(a[1..], i - 1, b)
  }

  lemma {:induction false} SplicedIsInsertion<X>(a: seq<X>, i: nat, b: seq<X>)
    requires i <= |a|
    ensures Spliced(a, i, b) == a[..i] + b + a[i..]
  {
    if i > 0 {
      SplicedIsInsertion(a[1..], i - 1, b);
      assert a[1..][..i - 1] == a[1..i] && a[1..][i - 1..] == a[i..];
      assert a[..i] == [a[0]] + a[1..i];
    }
  }

  lemma {:induction false} SplicedAtEnd<X>(a: seq<X>, b: seq<X>)
    ensures Spliced(a, |a|, b) == a + b
  {
    SplicedIsInsertion(a, |a|, b);
  }

  lemma {:induction false} SplicedLeft<X>(a: seq<X>, b: seq<X>, i: nat, x: seq<X>)
    requires i <= |a|
    ensures Spliced(a + b, i, x) == Spliced(a, i, x) + b
  {
    if i == 0 {
      Assoc(x, a, b);
    } else {
      TailOfConcat(a, b);
      SplicedLeft(a[1..], b, i - 1, x);
      Assoc([a[0]], Spliced(a[1..], i - 1, x), b);
    }
  }

  // Inserting behind a prefix inserts into what follows it.
  lemma {:induction false} SplicedBehind<X>(a: seq<X>, b: seq<X>, i: nat, x: seq<X>, at: nat, spliced: seq<X>)
    requires i <= |b| && at == |a| + i && spliced == Spliced(b, i, x)
    ensures Spliced(a + b, at, x) == a + spliced
  {
    if a == [] {
      NothingBefore(a, b);
      NothingBefore(a, spliced);
    } else {
      TailOfConcat(a, b);
      SplicedBehind(a[1..], b, i, x, at - 1, spliced);
      Assoc([a[0]], a[1..], spliced);
      assert [a[0]] + a[1..] == a;
    }
  }

  lemma {:induction false} SplicedPast<X>(a: seq<X>, k: X, b: seq<X>, i: nat, x: seq<X>, at: nat, spliced: seq<X>)
    requires i <= |b| && at == |a| + 1 + i && spliced == Spliced(b, i, x)
    ensures Spliced(a + ([k] + b), at, x) == a + ([k] + spliced)
  {
    SplicedBehind([k], b, i, x, 1 + i, spliced);
    SplicedBehind(a, [k] + b, 1 + i, x, at, [k] + spliced);
  }

  ghost function Members<X>(s: seq<X>): set<X> {
    set x | x in s
  }

  // No element occurs twice.
  ghost predicate Distinct<X>(s: seq<X>) {
    s == [] || (s[0] !in s[1..] && Distinct(s[1..]))
  }

  lemma {:induction false} DistinctHolds<X>(s: seq<X>)
    ensures Distinct(s) <==> forall p, q :: 0 <= p < q < |s| ==> s[p] != s[q]
  {
    if s != [] {
      var rest := s[1..];
      DistinctHolds(rest);
      if Distinct(s) {
        forall p, q | 0 <= p < q < |s| ensures s[p] != s[q] {
          assert s[q] == rest[q - 1];
          assert p > 0 ==> s[p] == rest[p - 1];
        }
      } else if s[0] in rest {
        var q :| 0 <= q < |rest| && rest[q] == s[0];
        assert s[0] == s[q + 1];
      } else {
        var p, q :| 0 <= p < q < |rest| && rest[p] == rest[q];
        assert s[p + 1] == s[q + 1];
      }
    }
  }

  lemma {:induction false} DistinctConcat<X>(a: seq<X>, b: seq<X>)
    requires Distinct(a) && Distinct(b) && forall x :: x in a ==> x !in b
    ensures Distinct(a + b)
  {
    if a == [] {
      NothingBefore(a, b);
    } else {
      TailOfConcat(a, b);
      assert a[0] in a;
      DistinctConcat(a[1..], b);
    }
  }

  lemma {:induction false} DistinctTail<X>(s: seq<X>, p: nat)
    requires Distinct(s) && p < |s|
    ensures s[p] !in s[p + 1..]
  {
    if p > 0 {
      DistinctTail(s[1..], p - 1);
      assert s[1..][p..] == s[p + 1..];
    }
  }

  lemma {:induction false} DistinctAt<X>(s: seq<X>, p: nat, q: nat)
    requires Distinct(s) && p < |s| && q < |s|
    ensures s[p] == s[q] <==> p == q
  {
    DistinctHolds(s);
  }
}
