// One construction attempt as the program runs it (try_build_seed in src/perfect/chd.rs):
// counting sort, size order, and the displacement search over the slot bitset.
module ChdAttempt {
  import opened Seqs
  import opened Wrappers
  import opened Hashing
  import opened Placement
  import opened CountingSort
  import opened Bitset

  datatype BuildError = Exhausted | DuplicateHash

  // The counters of the build profile.
  class ChdBuildProfile {
    var seedRetries: u32
    var bucketCount: nat
    var maxBucketSize: u32
    var displacementAttempts: u64
    var maxDisplacementUsed: u32

    constructor ()
      ensures seedRetries == 0 && bucketCount == 0 && maxBucketSize == 0
      ensures displacementAttempts == 0 && maxDisplacementUsed == 0
    {
      seedRetries, bucketCount, maxBucketSize, displacementAttempts, maxDisplacementUsed := 0, 0, 0, 0, 0;
    }
  }

  // A permutation of the bucket ids by descending size.  The library sort promises no order among ties.
  ghost predicate SortedBySize(sizes: seq<nat>, order: seq<nat>) {
    && |order| == |sizes|
    && (forall k :: 0 <= k < |order| ==> order[k] < |sizes|)
    && (forall k, k' :: 0 <= k < k' < |order| ==> order[k] != order[k'])
    && (forall b: nat :: b < |sizes| ==> b in order)
    && (forall k, k' :: 0 <= k < k' < |order| ==> sizes[order[k]] >= sizes[order[k']])
  }

  ghost predicate SortsBySize(sort: seq<nat> -> seq<nat>) {
    forall sizes :: SortedBySize(sizes, sort(sizes))
  }

  function BucketSizes(a: Attempt): (sizes: seq<nat>)
    ensures |sizes| == a.r
    ensures forall b :: 0 <= b < a.r ==> sizes[b] == |a.Keys(b)|
  {
    seq(a.r, b requires 0 <= b < a.r => |a.Keys(b)|)
  }

  // The order in which an attempt processes the buckets.
  function OrderOf(a: Attempt, sort: seq<nat> -> seq<nat>): seq<nat> {
    sort(BucketSizes(a))
  }

  // The cancel flag as an attempt may read it at bucket position k, displacement d.
  type Flag = (nat, nat) -> bool

  // The flag is up at one of the points at which it is looked at.
  ghost predicate MayCancel(flag: Option<Flag>) {
    flag.Some? && exists k: nat, d: nat :: d % 64 == 0 && flag.value(k, d)
  }

  method TryDisplacement(a: Attempt, b: nat, keys: seq<u32>, d: u32, occupied: array<u64>, ghost occ: set<nat>)
    returns (ok: bool, tentative: seq<u32>)
    requires a.Valid() && b < a.r && keys == a.Keys(b) && Represents(occupied[..], a.m, occ)
    ensures ok <==> a.Fits(b, d, occ)
    ensures ok ==> tentative == a.SlotsAt(b, d)
  {
    tentative := [];
    ok := true;
    ghost var slots := a.SlotsAt(b, d);
    for j := 0 to |keys|
      invariant ok && tentative == slots[..j]
      invariant forall i :: 0 <= i < j ==> slots[i] !in occ
      invariant forall i, i' :: 0 <= i < i' < j ==> slots[i] != slots[i']
    {
      var s := a.Slot(keys[j], d);
      assert s == slots[j];
      TestIsMembership(occupied[..], a.m, occ, s);
      if BitsetTest(occupied[..], s) || s in tentative {
        ok := false;
        return;
      }
      tentative := tentative + [s];
    }
  }

  method Commit(a: Attempt, tentative: seq<u32>, occupied: array<u64>, ghost occ: set<nat>)
    requires Represents(occupied[..], a.m, occ)
    requires forall j :: 0 <= j < |tentative| ==> tentative[j] < a.m
    modifies occupied
    ensures Represents(occupied[..], a.m, occ + Members(tentative))
  {
    ghost var done: set<nat> := occ;
    for j := 0 to |tentative|
      invariant done == occ + Members(tentative[..j])
      invariant Represents(occupied[..], a.m, done)
    {
      ghost var before := occupied[..];
      BitsetSet(occupied, tentative[j]);
      SetAddsSlot(before, a.m, done, tentative[j]);
      ghost var s: nat := tentative[j];
      done := done + {s};
      assert tentative[..j + 1] == tentative[..j] + [tentative[j]];
    }
    assert tentative[..|tentative|] == tentative;
  }

  // p after its next bucket b takes displacement d.
  ghost function Placed(a: Attempt, p: Progress, b: nat, d: u32): Progress
    requires b < |p.disp|
  {
    Progress(p.k + 1, 0, p.occ + Members(a.SlotsAt(b, d)), p.disp[b := d])
  }

  // Trying every displacement in turn ends at the first fit.
  lemma {:induction false} SearchAccepts(a: Attempt, order: seq<nat>, p: Progress, d: nat)
    requires Fitting(a, order, p) && p.k < |order| && a.Keys(order[p.k]) != [] && p.d <= d
    requires a.FirstFit(order[p.k], d, p.occ)
    ensures Fitting(a, order, Placed(a, p, order[p.k], d))
    ensures Finish(a, order, p) == Finish(a, order, Placed(a, p, order[p.k], d))
    decreases d - p.d
  {
    if p.d < d {
      assert Advance(a, order, p) == p.(d := p.d + 1);
      SearchAccepts(a, order, p.(d := p.d + 1), d);
    } else {
      assert Advance(a, order, p) == Placed(a, p, order[p.k], d);
    }
  }

  lemma {:induction false} SearchGivesUp(a: Attempt, order: seq<nat>, p: Progress)
    requires Fitting(a, order, p) && p.k < |order| && a.Keys(order[p.k]) != []
    requires NoneBelow(a, order[p.k], MAX_DISPLACEMENT + 1, p.occ)
    ensures Finish(a, order, p).None?
    decreases MAX_DISPLACEMENT + 1 - p.d
  {
    if p.d <= MAX_DISPLACEMENT {
      assert Advance(a, order, p) == p.(d := p.d + 1);
      SearchGivesUp(a, order, p.(d := p.d + 1));
    }
  }

  // The displacement loop for bucket b: it returns the first fit against the occupied slots, if there is one.
  method PlaceBucket(
    a: Attempt, k: nat, b: nat, keys: seq<u32>, occupied: array<u64>, ghost occ: set<nat>,
    flag: Option<Flag>, profile: ChdBuildProfile)
    returns (r: Option<u32>)
    requires a.Valid() && b < a.r
    requires keys == a.Keys(b) && Represents(occupied[..], a.m, occ)
    requires profile.displacementAttempts + MAX_DISPLACEMENT + 1 < WORD
    modifies occupied, profile`displacementAttempts, profile`maxDisplacementUsed
    ensures r.Some? ==> a.FirstFit(b, r.value, occ) && Represents(occupied[..], a.m, occ + Members(a.SlotsAt(b,
        r.value)))
    ensures r.None? ==> MayCancel(flag) || NoneBelow(a, b, MAX_DISPLACEMENT + 1, occ)
    ensures r.None? && !MayCancel(flag) ==>
      profile.displacementAttempts == old(profile.displacementAttempts) + 0x100_0000 + 1
    ensures old(profile.displacementAttempts) <= profile.displacementAttempts
         <= old(profile.displacementAttempts) + MAX_DISPLACEMENT + 1
    ensures r.Some? ==> profile.displacementAttempts == old(profile.displacementAttempts) + r.value + 1
    ensures profile.maxDisplacementUsed == if r.Some? && r.value > old(profile.maxDisplacementUsed)
                                           then r.value else old(profile.maxDisplacementUsed)
  {
    var d: u32 := 0;
    while true
      invariant d <= MAX_DISPLACEMENT + 1
      invariant Represents(occupied[..], a.m, occ)
      invariant NoneBelow(a, b, d, occ)
      invariant profile.displacementAttempts == old(profile.displacementAttempts) + d
      invariant profile.maxDisplacementUsed == old(profile.maxDisplacementUsed)
      decreases MAX_DISPLACEMENT + 1 - d
    {
      if d > MAX_DISPLACEMENT {
        return None;
      }
      if d % 64 == 0 && flag.Some? && flag.value(k, d) {
        return None;
      }
      profile.displacementAttempts := profile.displacementAttempts + 1;
      var ok, tentative := TryDisplacement(a, b, keys, d, occupied, occ);
      if ok {
        Commit(a, tentative, occupied, occ);
        if d > profile.maxDisplacementUsed {
          profile.maxDisplacementUsed := d;
        }
        return Some(d);
      }
      d := d + 1;
    }
  }

  // Keeps the largest bucket size seen across attempts.
  method RecordLargest(sizes: array<u32>, profile: ChdBuildProfile)
    modifies profile`maxBucketSize
    ensures forall b :: 0 <= b < sizes.Length ==> sizes[b] <= profile.maxBucketSize
    ensures old(profile.maxBucketSize) <= profile.maxBucketSize
    ensures profile.maxBucketSize == old(profile.maxBucketSize)
         || exists b :: 0 <= b < sizes.Length && profile.maxBucketSize == sizes[b]
  {
    var largest: u32 := 0;
    for b := 0 to sizes.Length
      invariant forall c :: 0 <= c < b ==> sizes[c] <= largest
      invariant largest == 0 || exists c :: 0 <= c < b && largest == sizes[c]
    {
      if sizes[b] > largest { largest := sizes[b]; }
    }
    if largest > profile.maxBucketSize {
      profile.maxBucketSize := largest;
    }
  }

  // Displacements tried on the first k buckets of order: all up to the accepted one, none for an empty bucket.
  ghost function Tries(a: Attempt, order: seq<nat>, k: nat, disp: seq<nat>): nat {
    if k == 0 || k > |order| || order[k - 1] >= |disp| then 0
    else Tries(a, order, k - 1, disp) + if a.Keys(order[k - 1]) == [] then 0 else disp[order[k - 1]] + 1
  }

  lemma {:induction false} TriesElsewhere(a: Attempt, order: seq<nat>, k: nat, disp: seq<nat>, b: nat, d: nat)
    requires ListsBuckets(a, order) && k <= |order| && b < |disp| && forall i :: 0 <= i < k ==> order[i] != b
    ensures Tries(a, order, k, disp[b := d]) == Tries(a, order, k, disp)
  {
    if k > 0 {
      TriesElsewhere(a, order, k - 1, disp, b, d);
    }
  }

  lemma {:induction false} TriesStep(a: Attempt, order: seq<nat>, k: nat, disp: seq<nat>, d: nat)
    requires ListsBuckets(a, order) && k < |order| && |disp| == a.r
    ensures a.Keys(order[k]) == [] ==> Tries(a, order, k + 1, disp) == Tries(a, order, k, disp)
    ensures a.Keys(order[k]) != [] ==>
      Tries(a, order, k + 1, disp[order[k] := d]) == Tries(a, order, k, disp) + d + 1
  {
    TriesElsewhere(a, order, k, disp, order[k], d);
  }

  // One whole attempt.  Unless the cancel flag is raised it returns exactly the first-fit outcome;
  // when it is, the only other answer it can give is a spurious Exhausted.
  method TryBuildSeed(a: Attempt, sort: seq<nat> -> seq<nat>, profile: ChdBuildProfile, flag: Option<Flag>)
    returns (r: Result<seq<u32>, BuildError>)
    requires a.Valid() && SortsBySize(sort)
    requires profile.displacementAttempts + a.r * (MAX_DISPLACEMENT + 1) < WORD
    modifies profile`maxBucketSize, profile`displacementAttempts, profile`maxDisplacementUsed
    ensures profile.displacementAttempts <= old(profile.displacementAttempts) + a.r * (MAX_DISPLACEMENT + 1)
    ensures forall b: nat :: b < a.r ==> |a.Keys(b)| <= profile.maxBucketSize
    ensures old(profile.maxBucketSize) <= profile.maxBucketSize
    ensures profile.maxBucketSize == old(profile.maxBucketSize) ||
      exists b: nat :: b < a.r && profile.maxBucketSize == |a.Keys(b)|
    ensures ListsBuckets(a, OrderOf(a, sort))
    ensures r.Ok? ==> Outcome(a, OrderOf(a, sort)) == Some(r.value) && |r.value| == a.r
    ensures r.Ok? ==>
      var order := OrderOf(a, sort);
      && profile.displacementAttempts == old(profile.displacementAttempts) + Tries(a, order, |order|, r.value)
      && forall b :: 0 <= b < |r.value| ==> r.value[b] <= profile.maxDisplacementUsed
    ensures r.Err? ==> r.error == Exhausted && (MayCancel(flag) || Outcome(a, OrderOf(a, sort)).None?)
  {
    var bucketOfKey, sizes := AssignBuckets(a);
    var starts := PrefixSums(a, sizes);
    var flat := Scatter(a, bucketOfKey, starts);
    var order := sort(sizes[..]);
    assert sizes[..] == BucketSizes(a);
    RecordLargest(sizes, profile);
    r := PlaceBuckets(a, order, sizes[..], starts, flat[..], profile, flag);
  }

  lemma {:induction false} SkipEmpty(a: Attempt, order: seq<nat>, p: Progress)
    requires Fitting(a, order, p) && p.k < |order| && a.Keys(order[p.k]) == []
    ensures Finish(a, order, p) == Finish(a, order, p.(k := p.k + 1, d := 0))
  {
  }

  method KeysInBucket(a: Attempt, starts: seq<u32>, flat: seq<u32>, b: nat) returns (keys: seq<u32>)
    requires a.Valid() && b < a.r
    requires |starts| == a.r + 1 && forall b :: 0 <= b <= a.r ==> starts[b] == StartOf(a, b)
    requires |flat| == |a.hashes| && Scattered(a, flat, |a.hashes|)
    ensures keys == a.Keys(b)
  {
    BucketSlice(a, flat, b);
    keys := flat[starts[b]..starts[b + 1]];
  }

  // An attempt that has come to bucket k of the order, with these displacements so far and so many tried.
  ghost predicate Placing(a: Attempt, order: seq<nat>, p: Progress, k: nat, disp: seq<nat>, tried: nat)
    requires forall k :: 0 <= k < |order| ==> order[k] < a.r
  {
    && Fitting(a, order, p) && p.k == k && p.d == 0 && p.disp == disp
    && Finish(a, order, p) == Outcome(a, order)
    && tried == Tries(a, order, k, disp)
  }

  lemma {:induction false} EmptyStep(a: Attempt, order: seq<nat>, p: Progress, k: nat, disp: seq<nat>, tried: nat)
    requires ListsBuckets(a, order) && Placing(a, order, p, k, disp, tried) && k < |order| && a.Keys(order[k]) == []
    ensures Placing(a, order, p.(k := k + 1), k + 1, disp, tried)
  {
    SkipEmpty(a, order, p);
    TriesStep(a, order, k, disp, 0);
  }

  lemma {:induction false} PlacedStep(a: Attempt, order: seq<nat>, p: Progress, k: nat, disp: seq<nat>, d: nat,
                                      tried: nat)
    requires ListsBuckets(a, order) && Placing(a, order, p, k, disp, tried) && k < |order|
    requires a.Keys(order[k]) != [] && a.FirstFit(order[k], d, p.occ)
    ensures Placing(a, order, Placed(a, p, order[k], d), k + 1, disp[order[k] := d], tried + d + 1)
  {
    SearchAccepts(a, order, p, d);
    TriesStep(a, order, k, disp, d);
  }

  ghost predicate AllUpTo(disp: seq<nat>, most: nat) {
    forall b :: 0 <= b < |disp| ==> disp[b] <= most
  }

  // The next bucket of the order: an empty one is passed over, another takes its first fit.
  method PlaceNext(
    a: Attempt, order: seq<nat>, k: nat, sizes: seq<u32>, starts: seq<u32>, flat: seq<u32>, occupied: array<u64>,
    displacements: array<u32>, ghost p: Progress, ghost tried: nat, profile: ChdBuildProfile, flag: Option<Flag>)
    returns (ok: bool, ghost q: Progress, ghost more: nat)
    requires a.Valid() && ListsBuckets(a, order) && k < |order| && displacements.Length == a.r
    requires |sizes| == a.r && forall b :: 0 <= b < a.r ==> sizes[b] == |a.Keys(b)|
    requires |starts| == a.r + 1 && forall b :: 0 <= b <= a.r ==> starts[b] == StartOf(a, b)
    requires |flat| == |a.hashes| && Scattered(a, flat, |a.hashes|)
    requires profile.displacementAttempts + MAX_DISPLACEMENT + 1 < WORD
    requires Placing(a, order, p, k, displacements[..], tried) && Represents(occupied[..], a.m, p.occ)
    requires AllUpTo(displacements[..], profile.maxDisplacementUsed)
    modifies occupied, displacements, profile`displacementAttempts, profile`maxDisplacementUsed
    ensures profile.displacementAttempts == old(profile.displacementAttempts) + more <=
        old(profile.displacementAttempts) + MAX_DISPLACEMENT + 1
    ensures ok ==> Placing(a, order, q, k + 1, displacements[..], tried + more)
    ensures ok ==> Represents(occupied[..], a.m, q.occ)
    ensures ok ==> AllUpTo(displacements[..], profile.maxDisplacementUsed)
    ensures !ok ==> MayCancel(flag) || Outcome(a, order).None?
  {
    var b := order[k];
    if sizes[b] == 0 {
      EmptyStep(a, order, p, k, displacements[..], tried);
      return true, p.(k := k + 1), 0;
    }
    var keys := KeysInBucket(a, starts, flat, b);
    var placed := PlaceBucket(a, k, b, keys, occupied, p.occ, flag, profile);
    more := profile.displacementAttempts - old(profile.displacementAttempts);
    if placed.None? {
      if !MayCancel(flag) { SearchGivesUp(a, order, p); }
      return false, p, more;
    }
    PlacedStep(a, order, p, k, displacements[..], placed.value, tried);
    displacements[b] := placed.value;
    return true, Placed(a, p, b, placed.value), more;
  }

  // Phase 4: every bucket in size order.
  method PlaceBuckets(
    a: Attempt, order: seq<nat>, sizes: seq<u32>, starts: seq<u32>, flat: seq<u32>,
    profile: ChdBuildProfile, flag: Option<Flag>)
    returns (r: Result<seq<u32>, BuildError>)
    requires a.Valid() && ListsBuckets(a, order) && |order| <= a.r
    requires |sizes| == a.r && forall b :: 0 <= b < a.r ==> sizes[b] == |a.Keys(b)|
    requires |starts| == a.r + 1 && forall b :: 0 <= b <= a.r ==> starts[b] == StartOf(a, b)
    requires |flat| == |a.hashes| && Scattered(a, flat, |a.hashes|)
    requires profile.displacementAttempts + a.r * (MAX_DISPLACEMENT + 1) < WORD
    modifies profile`displacementAttempts, profile`maxDisplacementUsed
    ensures profile.displacementAttempts <= old(profile.displacementAttempts) + a.r * (MAX_DISPLACEMENT + 1)
    ensures r.Ok? ==> Outcome(a, order) == Some(r.value) && |r.value| == a.r
    ensures r.Ok? ==>
      profile.displacementAttempts == old(profile.displacementAttempts) + Tries(a, order, |order|, r.value)
    ensures r.Ok? ==> forall b :: 0 <= b < |r.value| ==> r.value[b] <= profile.maxDisplacementUsed
    ensures r.Err? ==> r.error == Exhausted && (MayCancel(flag) || Outcome(a, order).None?)
  {
    var occupied := new u64[Words(a.m)](_ => 0);
    var displacements := new u32[a.r](_ => 0);
    ghost var p := Start(a.r);
    ghost var tried: nat := 0;
    EmptyBitset(a.m);
    assert occupied[..] == seq(Words(a.m), _ => 0);
    for k := 0 to |order|
      invariant fresh(occupied) && fresh(displacements)
      invariant Placing(a, order, p, k, displacements[..], tried)
      invariant Represents(occupied[..], a.m, p.occ)
      invariant AllUpTo(displacements[..], profile.maxDisplacementUsed)
      invariant profile.displacementAttempts == old(profile.displacementAttempts) + tried
      invariant tried <= k * (MAX_DISPLACEMENT + 1)
    {
      AttemptBudget(k, a.r);
      ghost var more: nat;
      var ok;
      ok, p, more := PlaceNext(a, order, k, sizes, starts, flat, occupied, displacements, p, tried, profile, flag);
      if !ok {
        return Err(Exhausted);
      }
      tried := tried + more;
    }
    AttemptBudget(|order|, a.r + 1);
    return Ok(displacements[..]);
  }

  lemma {:induction false} AttemptBudget(k: nat, r: nat)
    requires k < r
    ensures (k + 1) * (MAX_DISPLACEMENT + 1) <= r * (MAX_DISPLACEMENT + 1)
    ensures (k + 1) * (MAX_DISPLACEMENT + 1) == k * (MAX_DISPLACEMENT + 1) + MAX_DISPLACEMENT + 1
  {
  }
}
