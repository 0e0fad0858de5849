// The bucket-major key layout of try_build_seed: bucket assignment, prefix sums and scatter
// (src/perfect/chd.rs, phases 1 and 2).  Every stored index is a u32, so no cast loses bits.
module CountingSort {
  import opened Hashing
  import opened Placement

  // Keys below n that fall in buckets below b.
  function SizesBelow(a: Attempt, b: nat, n: nat): nat
    requires n <= |a.hashes|
  {
    if b == 0 then 0 else SizesBelow(a, b - 1, n) + |a.KeysBelow(b - 1, n)|
  }

  // Where bucket b starts in the flat layout.
  function StartOf(a: Attempt, b: nat): nat {
    SizesBelow(a, b, |a.hashes|)
  }

  lemma {:induction false} SizesStep(a: Attempt, b: nat, n: nat)
    requires n < |a.hashes|
    ensures SizesBelow(a, b, n + 1) == SizesBelow(a, b, n) + if a.Bucket(n) < b then 1 else 0
  {
    if b > 0 { SizesStep(a, b - 1, n); }
  }

  // The bucket sizes add up to the number of keys.
  lemma {:induction false} SizesAddUp(a: Attempt, n: nat)
    requires a.Valid() && n <= |a.hashes|
    ensures SizesBelow(a, a.r, n) == n
  {
    if n == 0 {
      NoSizes(a, a.r);
    } else {
      SizesAddUp(a, n - 1);
      SizesStep(a, a.r, n - 1);
    }
  }

  lemma {:induction false} NoSizes(a: Attempt, b: nat)
    ensures SizesBelow(a, b, 0) == 0
  {
    if b > 0 { NoSizes(a, b - 1); }
  }

  lemma {:induction false} StartsAscend(a: Attempt, b: nat, b': nat)
    requires b < b'
    ensures StartOf(a, b) + |a.Keys(b)| <= StartOf(a, b')
  {
    if b + 1 < b' { StartsAscend(a, b, b' - 1); }
  }

  lemma {:induction false} StartInRange(a: Attempt, b: nat)
    requires a.Valid() && b < a.r
    ensures StartOf(a, b) + |a.Keys(b)| <= |a.hashes|
  {
    SizesAddUp(a, |a.hashes|);
    if b + 1 < a.r { StartsAscend(a, b, a.r); }
  }

  lemma {:induction false} KeysGrow(a: Attempt, b: nat, n: nat, n': nat)
    requires n <= n' <= |a.hashes|
    ensures a.KeysBelow(b, n) <= a.KeysBelow(b, n')
  {
    if n < n' { KeysGrow(a, b, n, n' - 1); }
  }

  lemma {:induction false} FewKeys(a: Attempt, b: nat, n: nat)
    requires n <= |a.hashes|
    ensures |a.KeysBelow(b, n)| <= n
  {
    if n > 0 { FewKeys(a, b, n - 1); }
  }

  // Phase 1.
  method AssignBuckets(a: Attempt) returns (bucketOfKey: seq<u32>, sizes: array<u32>)
    requires a.Valid()
    ensures fresh(sizes) && sizes.Length == a.r && |bucketOfKey| == |a.hashes|
    ensures forall i :: 0 <= i < |bucketOfKey| ==> bucketOfKey[i] == a.Bucket(i)
    ensures forall b :: 0 <= b < sizes.Length ==> sizes[b] == |a.Keys(b)|
  {
    bucketOfKey := [];
    sizes := new u32[a.r](_ => 0);
    for i := 0 to |a.hashes|
      invariant |bucketOfKey| == i
      invariant forall j :: 0 <= j < i ==> bucketOfKey[j] == a.Bucket(j)
      invariant forall b :: 0 <= b < sizes.Length ==> sizes[b] == |a.KeysBelow(b, i)|
    {
      var b := a.Bucket(i);
      FewKeys(a, b, i);
      bucketOfKey := bucketOfKey + [b];
      sizes[b] := sizes[b] + 1;
    }
  }

  method PrefixSums(a: Attempt, sizes: array<u32>) returns (starts: seq<u32>)
    requires a.Valid() && sizes.Length == a.r
    requires forall b :: 0 <= b < sizes.Length ==> sizes[b] == |a.Keys(b)|
    ensures |starts| == a.r + 1
    ensures forall b :: 0 <= b <= a.r ==> starts[b] == StartOf(a, b)
    ensures starts[a.r] == |a.hashes|
  {
    starts := [];
    var acc: u32 := 0;
    for b := 0 to sizes.Length
      invariant |starts| == b && acc == StartOf(a, b)
      invariant forall c :: 0 <= c < b ==> starts[c] == StartOf(a, c)
    {
      StartInRange(a, b);
      starts := starts + [acc];
      acc := acc + sizes[b];
    }
    starts := starts + [acc];
    SizesAddUp(a, |a.hashes|);
  }

  // The first i keys are in place in the slice of bucket b.
  ghost predicate SliceFilled(a: Attempt, flat: seq<nat>, i: nat, b: nat)
    requires i <= |a.hashes|
  {
    var keys := a.KeysBelow(b, i);
    StartOf(a, b) + |keys| <= |flat| && flat[StartOf(a, b)..StartOf(a, b) + |keys|] == keys
  }

  ghost predicate Scattered(a: Attempt, flat: seq<nat>, i: nat)
    requires i <= |a.hashes|
  {
    forall b: nat :: b < a.r ==> SliceFilled(a, flat, i, b)
  }

  // Writing key i at the cursor of its bucket extends that bucket's slice by i.
  lemma {:induction false} OwnSlice(a: Attempt, flat: seq<nat>, i: nat, p: nat)
    requires a.Valid() && i < |a.hashes| && SliceFilled(a, flat, i, a.Bucket(i))
    requires p == StartOf(a, a.Bucket(i)) + |a.KeysBelow(a.Bucket(i), i)| < |flat|
    ensures SliceFilled(a, flat[p := i], i + 1, a.Bucket(i))
  {
    var start := StartOf(a, a.Bucket(i));
    assert flat[p := i][start..p + 1] == flat[start..p] + [i];
  }

  // It leaves the slice of every other bucket alone.
  lemma {:induction false} OtherSlice(a: Attempt, flat: seq<nat>, i: nat, p: nat, c: nat)
    requires a.Valid() && i < |a.hashes| && c < a.r && c != a.Bucket(i) && SliceFilled(a, flat, i, c)
    requires p == StartOf(a, a.Bucket(i)) + |a.KeysBelow(a.Bucket(i), i)| < |flat|
    ensures SliceFilled(a, flat[p := i], i + 1, c)
  {
    var b := a.Bucket(i);
    var start, end := StartOf(a, c), StartOf(a, c) + |a.KeysBelow(c, i)|;
    KeysGrow(a, b, i + 1, |a.hashes|);
    KeysGrow(a, c, i, |a.hashes|);
    if c < b { StartsAscend(a, c, b); } else { StartsAscend(a, b, c); }
    assert flat[p := i][start..end] == flat[start..end];
  }

  lemma {:induction false} RoomInBucket(a: Attempt, b: nat, i: nat)
    requires i < |a.hashes| && a.Bucket(i) == b
    ensures |a.KeysBelow(b, i)| < |a.Keys(b)|
  {
    KeysGrow(a, b, i + 1, |a.hashes|);
    assert a.KeysBelow(b, i + 1) == a.KeysBelow(b, i) + [i];
  }

  lemma {:induction false} CursorInRange(a: Attempt, i: nat)
    requires a.Valid() && i < |a.hashes|
    ensures a.Bucket(i) < a.r
    ensures StartOf(a, a.Bucket(i)) + |a.KeysBelow(a.Bucket(i), i)| < |a.hashes|
  {
    RoomInBucket(a, a.Bucket(i), i);
    StartInRange(a, a.Bucket(i));
  }

  lemma {:induction false} ScatterStep(a: Attempt, flat: seq<nat>, i: nat, p: nat)
    requires a.Valid() && i < |a.hashes| && |flat| == |a.hashes| && Scattered(a, flat, i)
    requires p == StartOf(a, a.Bucket(i)) + |a.KeysBelow(a.Bucket(i), i)|
    ensures p < |flat| && Scattered(a, flat[p := i], i + 1)
  {
    CursorInRange(a, i);
    var flat', next := flat[p := i], i + 1;
    forall c: nat | c < a.r ensures SliceFilled(a, flat', next, c) {
      assert SliceFilled(a, flat, i, c);
      if c == a.Bucket(i) { OwnSlice(a, flat, i, p); } else { OtherSlice(a, flat, i, p, c); }
    }
  }

  // Phase 2: the keys of bucket b, ascending, fill flat[starts[b]..starts[b + 1]].
  method Scatter(a: Attempt, bucketOfKey: seq<u32>, starts: seq<u32>) returns (flat: array<u32>)
    requires a.Valid() && |bucketOfKey| == |a.hashes| && |starts| == a.r + 1
    requires forall i :: 0 <= i < |bucketOfKey| ==> bucketOfKey[i] == a.Bucket(i)
    requires forall b :: 0 <= b <= a.r ==> starts[b] == StartOf(a, b)
    ensures fresh(flat) && flat.Length == |a.hashes|
    ensures Scattered(a, flat[..], |a.hashes|)
  {
    var n := |a.hashes|;
    flat := new u32[n](_ => 0);
    var cursor := new u32[a.r](b requires 0 <= b < a.r => starts[b]);
    ghost var empty: seq<nat> := flat[..];
    forall b: nat | b < a.r ensures SliceFilled(a, empty, 0, b) {
      StartInRange(a, b);
    }
    for i := 0 to n
      invariant forall b :: 0 <= b < a.r ==> cursor[b] == StartOf(a, b) + |a.KeysBelow(b, i)|
      invariant Scattered(a, flat[..], i)
    {
      var b := bucketOfKey[i];
      var p := cursor[b];
      ScatterStep(a, flat[..], i, p);
      flat[p] := i;
      cursor[b] := cursor[b] + 1;
    }
  }

  lemma {:induction false} BucketSlice(a: Attempt, flat: seq<nat>, b: nat)
    requires a.Valid() && b < a.r && |flat| == |a.hashes| && Scattered(a, flat, |a.hashes|)
    ensures StartOf(a, b) <= StartOf(a, b + 1) <= |flat|
    ensures flat[StartOf(a, b)..StartOf(a, b + 1)] == a.Keys(b)
  {
    assert SliceFilled(a, flat, |a.hashes|, b);
  }

  lemma {:induction false} BucketAt(a: Attempt, p: nat, r: nat) returns (b: nat)
    requires p < StartOf(a, r)
    ensures b < r && StartOf(a, b) <= p < StartOf(a, b + 1)
  {
    if p < StartOf(a, r - 1) { b := BucketAt(a, p, r - 1); } else { b := r - 1; }
  }

  // The flat layout is a permutation of the key indices.
  lemma {:induction false} LayoutIsPermutation(a: Attempt, flat: seq<nat>)
    requires a.Valid() && |flat| == |a.hashes| && Scattered(a, flat, |a.hashes|)
    ensures forall i: nat :: i < |a.hashes| ==> i in flat
    ensures forall p, p' :: 0 <= p < p' < |flat| ==> flat[p] != flat[p']
  {
    forall i: nat | i < |a.hashes| ensures i in flat {
      var b := a.Bucket(i);
      BucketSlice(a, flat, b);
      a.KeysAreTheBucket(b, |a.hashes|);
      assert i in flat[StartOf(a, b)..StartOf(a, b + 1)];
    }
    SizesAddUp(a, |a.hashes|);
    forall p, p' | 0 <= p < p' < |flat| ensures flat[p] != flat[p'] {
      var b := BucketAt(a, p, a.r);
      var b' := BucketAt(a, p', a.r);
      FlatEntry(a, flat, p, b);
      FlatEntry(a, flat, p', b');
      a.KeysAreTheBucket(b, |a.hashes|);
    }
  }

  lemma {:induction false} FlatEntry(a: Attempt, flat: seq<nat>, p: nat, b: nat)
    requires a.Valid() && |flat| == |a.hashes| && Scattered(a, flat, |a.hashes|)
    requires b < a.r && StartOf(a, b) <= p < StartOf(a, b + 1)
    ensures p < |flat| && flat[p] == a.Keys(b)[p - StartOf(a, b)]
    ensures a.Bucket(a.Keys(b)[p - StartOf(a, b)]) == b
  {
    BucketSlice(a, flat, b);
    a.KeysAreTheBucket(b, |a.hashes|);
    assert flat[p] == flat[StartOf(a, b)..StartOf(a, b + 1)][p - StartOf(a, b)];
  }
}
