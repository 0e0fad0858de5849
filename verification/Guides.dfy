// How separators guide a search: each stands between the keys of the leaves
// before it and those of the leaves after it.

module Guides {
  import opened Wrappers
  import opened Seqs
  import opened LeafChain
  import opened SortedEntries
  import opened Interior

  function LowerGuide<T>(seps: seq<Key<T>>, p: nat): Option<int> {
    if 0 < p <= |seps| then Some(seps[p - 1].rank) else None
  }

  function UpperGuide<T>(seps: seq<Key<T>>, p: nat): Option<int> {
    if p < |seps| then Some(seps[p].rank) else None
  }

  // Every key lies at or above lo and below hi.
  ghost predicate Within<T, V>(s: seq<Entry<T, V>>, lo: Option<int>, hi: Option<int>) {
    forall e :: e in s ==> (lo.Some? ==> lo.value <= e.key.rank) && (hi.Some? ==> e.key.rank < hi.value)
  }

  // The leaf at position p keeps between its two separators.
  ghost predicate GuidedAt<T, V>(arena: seq<LeafOf<T, V>>, chain: seq<nat>, seps: seq<Key<T>>, p: nat)
    requires p < |chain|
  {
    Within(HeldAt(arena, chain[p]), LowerGuide(seps, p), UpperGuide(seps, p))
  }

  ghost predicate LeavesGuided<T, V>(arena: seq<LeafOf<T, V>>, chain: seq<nat>, seps: seq<Key<T>>, n: nat) {
    n == 0 || (n <= |chain| && GuidedAt(arena, chain, seps, n - 1) && LeavesGuided(arena, chain, seps, n - 1))
  }

  ghost predicate Guided<T, V>(arena: seq<LeafOf<T, V>>, chain: seq<nat>, seps: seq<Key<T>>) {
    |chain| == |seps| + 1 && NonDecreasing(seps) && LeavesGuided(arena, chain, seps, |chain|)
  }

  lemma {:induction false} LeavesGuidedHolds<T, V>(arena: seq<LeafOf<T, V>>, chain: seq<nat>, seps: seq<Key<T>>, n: nat)
    ensures LeavesGuided(arena, chain, seps, n) <==> n <= |chain| && forall p :: 0 <= p < n ==>
        GuidedAt(arena, chain, seps, p)
  {
    if n > 0 {
      LeavesGuidedHolds(arena, chain, seps, n - 1);
    }
  }

  // No key in front of position p reaches the rank b, when the separator there does not.
  lemma {:induction false} AllBefore<T, V>(arena: seq<LeafOf<T, V>>, chain: seq<nat>, seps: seq<Key<T>>, p: nat, b: int)
    requires Guided(arena, chain, seps) && p < |chain|
    requires forall i :: 0 <= i < p ==> seps[i].rank <= b
    ensures forall e :: e in Items(arena, chain[..p]) ==> e.key.rank < b
  {
    if p > 0 {
      LeavesGuidedHolds(arena, chain, seps, |chain|);
      assert GuidedAt(arena, chain, seps, p - 1);
      ItemsAround(arena, chain, p - 1);
      AllBefore(arena, chain, seps, p - 1, b);
    }
  }

  lemma {:induction false} AllAfter<T, V>(arena: seq<LeafOf<T, V>>, chain: seq<nat>, seps: seq<Key<T>>, p: nat, b: int)
    requires Guided(arena, chain, seps) && p < |chain|
    requires forall i :: p <= i < |seps| ==> b <= seps[i].rank
    ensures forall e :: e in Items(arena, chain[p + 1..]) ==> b <= e.key.rank
    decreases |chain| - p
  {
    if p + 1 == |chain| {
      assert chain[p + 1..] == [];
    } else {
      LeavesGuidedHolds(arena, chain, seps, |chain|);
      assert GuidedAt(arena, chain, seps, p + 1);
      ItemsAround(arena, chain, p + 1);
      AllAfter(arena, chain, seps, p + 1, b);
    }
  }

  // How many leading entries are below rank r.
  function RankIn<T, V>(s: seq<Entry<T, V>>, r: int): nat {
    if s == [] || r <= s[0].key.rank then 0 else 1 + RankIn(s[1..], r)
  }

  lemma {:induction false} RankInBound<T, V>(s: seq<Entry<T, V>>, r: int)
    ensures RankIn(s, r) <= |s|
    ensures forall i :: 0 <= i < RankIn(s, r) ==> s[i].key.rank < r
    ensures RankIn(s, r) < |s| ==> r <= s[RankIn(s, r)].key.rank
  {
    if s != [] && s[0].key.rank < r {
      RankInBound(s[1..], r);
    }
  }

  lemma {:induction false} RankPasses<T, V>(a: seq<Entry<T, V>>, b: seq<Entry<T, V>>, r: int)
    requires forall e :: e in a ==> e.key.rank < r
    ensures RankIn(a + b, r) == |a| + RankIn(b, r)
  {
    if a == [] {
      NothingBefore(a, b);
    } else {
      TailOfConcat(a, b);
      assert a[0] in a;
      RankPasses(a[1..], b, r);
    }
  }

  lemma {:induction false} RankStops<T, V>(a: seq<Entry<T, V>>, b: seq<Entry<T, V>>, r: int)
    requires forall e :: e in b ==> r <= e.key.rank
    ensures RankIn(a + b, r) == RankIn(a, r)
  {
    if a == [] {
      NothingBefore(a, b);
      assert b != [] ==> b[0] in b;
    } else {
      TailOfConcat(a, b);
      RankStops(a[1..], b, r);
    }
  }

  // In an ordered sequence the entry of rank r, if any, stands where the lower ranks end.
  lemma {:induction false} LookupAtRank<T, V>(s: seq<Entry<T, V>>, r: int)
    requires Ascending(s)
    ensures Lookup(s, r) == if RankIn(s, r) < |s| && s[RankIn(s, r)].key.rank == r then Some(s[RankIn(s, r)]) else None
  {
    if s != [] {
      if r < s[0].key.rank {
        BelowAllMissing(s, r);
      } else if s[0].key.rank < r {
        LookupAtRank(s[1..], r);
      }
    }
  }

  lemma {:induction false} AbsentMissing<T, V>(s: seq<Entry<T, V>>, r: int)
    requires forall e :: e in s ==> e.key.rank != r
    ensures Lookup(s, r) == None
  {
    LookupFindsRank(s, r);
  }

  // A search for rank r, which goes right at equal separators, reaches the one
  // leaf that can hold it.
  lemma {:induction false} SearchReachesLeaf<T, V>(arena: seq<LeafOf<T, V>>, chain: seq<nat>, seps: seq<Key<T>>,
                                                   r: int, p: nat)
    requires Guided(arena, chain, seps) && p == Below(seps, r + 1)
    ensures p < |chain|
    ensures Lookup(Items(arena, chain), r) == Lookup(HeldAt(arena, chain[p]), r)
    ensures forall e :: e in Items(arena, chain[..p]) ==> e.key.rank < r
    ensures forall e :: e in Items(arena, chain[p + 1..]) ==> r < e.key.rank
    ensures LowerGuide(seps, p).Some? ==> LowerGuide(seps, p).value <= r
    ensures UpperGuide(seps, p).Some? ==> r < UpperGuide(seps, p).value
  {
    SeparatorsAround(seps, r + 1);
    ItemsAround(arena, chain, p);
    AllBefore(arena, chain, seps, p, r);
    AllAfter(arena, chain, seps, p, r + 1);
    var before, held, after := Items(arena, chain[..p]), HeldAt(arena, chain[p]), Items(arena, chain[p + 1..]);
    AbsentMissing(before, r);
    AbsentMissing(after, r);
    LookupInConcat(before, held + after, r);
    LookupInConcat(held, after, r);
  }

  // Separators on either side of the leaf that a descent for rank r reaches.
  lemma {:induction false} SeparatorsAround<T>(seps: seq<Key<T>>, r: int)
    requires NonDecreasing(seps)
    ensures Below(seps, r) <= |seps|
    ensures forall i :: 0 <= i < Below(seps, r) ==> seps[i].rank < r
    ensures forall i :: Below(seps, r) <= i < |seps| ==> r <= seps[i].rank
  {
    BelowBound(seps, r);
    NonDecreasingOrdered(seps);
  }

  // The entries below rank r end inside the leaf that the descent reaches, or right behind it.
  lemma {:induction false} DescentFindsRank<T, V>(arena: seq<LeafOf<T, V>>, chain: seq<nat>, seps: seq<Key<T>>, r: int)
    requires Guided(arena, chain, seps)
    ensures Below(seps, r) < |chain|
    ensures RankIn(Items(arena, chain), r)
         == Offset(arena, chain, Below(seps, r)) + RankIn(HeldAt(arena, chain[Below(seps, r)]), r)
    ensures forall e :: e in Items(arena, chain[Below(seps, r) + 1..]) ==> r <= e.key.rank
    ensures forall e :: e in Items(arena, chain[..Below(seps, r)]) ==> e.key.rank < r
  {
    SeparatorsAround(seps, r);
    var p := Below(seps, r);
    ItemsAround(arena, chain, p);
    AllBefore(arena, chain, seps, p, r);
    AllAfter(arena, chain, seps, p, r);
    var before, held, after := Items(arena, chain[..p]), HeldAt(arena, chain[p]), Items(arena, chain[p + 1..]);
    RankPasses(before, held + after, r);
    RankStops(held, after, r);
  }

  lemma {:induction false} EditedStaysGuided<T, V>(a: seq<LeafOf<T, V>>, chain: seq<nat>, seps: seq<Key<T>>, p: nat,
                                                   leaf: LeafOf<T, V>)
    requires Guided(a, chain, seps) && Distinct(chain)
    requires p < |chain| && chain[p] < |a|
    requires Within(Held(leaf), LowerGuide(seps, p), UpperGuide(seps, p))
    ensures Guided(a[chain[p] := leaf], chain, seps)
  {
    var b := a[chain[p] := leaf];
    LeavesGuidedHolds(a, chain, seps, |chain|);
    forall q | 0 <= q < |chain| ensures GuidedAt(b, chain, seps, q) {
      DistinctAt(chain, p, q);
      assert GuidedAt(a, chain, seps, q);
    }
    LeavesGuidedHolds(b, chain, seps, |chain|);
  }
}
