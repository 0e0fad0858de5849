// ChdPhf: the seed-retry build and the lookup (src/perfect/chd.rs, src/perfect/util.rs, src/perfect/phf.rs).
module ChdBuild {
  import opened Wrappers
  import opened Hashing
  import opened Placement
  import opened ChdAttempt

  const DEFAULT_LAMBDA: nat := 5
  const MAX_SEED_RETRIES: nat := 32
  const SEED_BASE: u64 := 0xD6E8FEB86659FD93

  // seed, one displacement per bucket, table size.
  datatype ChdPhf = ChdPhf(seed: u64, displacements: seq<u32>, m: u32) {
    // With m > 0 and no displacements the program divides by zero.
    function Index(family: HashFamily, hash: u64): (slot: nat)
      requires family.Ranged() && (m == 0 || displacements != [])
      ensures if m == 0 then slot == 0 else slot < m
    {
      if m == 0 then 0
      else
        var bucket := family.bucket(hash, seed, |displacements|);
        family.slot(hash, seed, displacements[bucket], m)
    }
  }

  // What PerfectHashFunction promises of a function built over hashes.
  ghost predicate IsPerfect(family: HashFamily, phf: ChdPhf, hashes: seq<u64>)
    requires family.Ranged()
  {
    && 0 < phf.m && phf.displacements != []
    && (forall h: u64 :: phf.Index(family, h) < phf.m)
    && (forall i, j :: 0 <= i < j < |hashes| ==> phf.Index(family, hashes[i]) != phf.Index(family, hashes[j]))
  }

  ghost predicate HasEqualPair(hashes: seq<u64>) {
    exists i, j :: 0 <= i < j < |hashes| && hashes[i] == hashes[j]
  }

  // ---- the duplicate gate ----

  function InsertSorted(x: u64, s: seq<u64>): seq<u64> {
    if s == [] || x <= s[0] then [x] + s else [s[0]] + InsertSorted(x, s[1..])
  }

  // Stand-in for the library's unstable sort of plain integers.
  function Sort(s: seq<u64>): seq<u64> {
    if s == [] then [] else InsertSorted(s[0], Sort(s[1..]))
  }

  ghost predicate Ascending(s: seq<u64>) {
    forall i, j :: 0 <= i < j < |s| ==> s[i] <= s[j]
  }

  lemma {:induction false} InsertSortedKeeps(x: u64, s: seq<u64>)
    ensures multiset(InsertSorted(x, s)) == multiset(s) + multiset{x}
  {
    if s != [] && x > s[0] {
      InsertSortedKeeps(x, s[1..]);
      assert s == [s[0]] + s[1..];
    }
  }

  lemma {:induction false} InsertSortedSorts(x: u64, s: seq<u64>)
    requires Ascending(s)
    ensures Ascending(InsertSorted(x, s))
  {
    if s != [] && x > s[0] {
      InsertSortedSorts(x, s[1..]);
      InsertSortedKeeps(x, s[1..]);
      var rest := InsertSorted(x, s[1..]);
      forall i | 0 <= i < |rest| ensures s[0] <= rest[i] {
        assert rest[i] in multiset(rest);
        assert rest[i] == x || rest[i] in s[1..];
      }
    }
  }

  lemma {:induction false} SortSorts(s: seq<u64>)
    ensures Ascending(Sort(s)) && multiset(Sort(s)) == multiset(s)
  {
    if s != [] {
      SortSorts(s[1..]);
      InsertSortedSorts(s[0], Sort(s[1..]));
      InsertSortedKeeps(s[0], Sort(s[1..]));
      assert s == [s[0]] + s[1..];
    }
  }

  lemma {:induction false} PairOccursTwice(s: seq<u64>, i: nat, j: nat)
    requires i < j < |s| && s[i] == s[j]
    ensures multiset(s)[s[i]] >= 2
  {
    assert s == s[..i] + [s[i]] + s[i + 1..j] + [s[j]] + s[j + 1..];
  }

  lemma {:induction false} TwiceIsPair(s: seq<u64>, x: u64)
    requires multiset(s)[x] >= 2
    ensures HasEqualPair(s)
  {
    var t := s[1..];
    assert s == [s[0]] + t;
    if x == s[0] {
      assert x in multiset(t);
      var j :| 0 <= j < |t| && t[j] == x;
      assert s[0] == s[j + 1];
    } else {
      TwiceIsPair(t, x);
      var i, j :| 0 <= i < j < |t| && t[i] == t[j];
      assert s[i + 1] == s[j + 1];
    }
  }

  // Permuting a sequence neither makes nor hides an equal pair.
  lemma {:induction false} PairsSurvive(s: seq<u64>, t: seq<u64>)
    requires multiset(s) == multiset(t) && HasEqualPair(s)
    ensures HasEqualPair(t)
  {
    var i, j :| 0 <= i < j < |s| && s[i] == s[j];
    PairOccursTwice(s, i, j);
    TwiceIsPair(t, s[i]);
  }

  // True exactly when two positions hold the same hash.
  method HasDuplicate(hashes: seq<u64>) returns (dup: bool)
    ensures dup <==> HasEqualPair(hashes)
  {
    var sorted := Sort(hashes);
    SortSorts(hashes);
    if HasEqualPair(hashes) { PairsSurvive(hashes, sorted); }
    if HasEqualPair(sorted) { PairsSurvive(sorted, hashes); }
    var i := 0;
    while i + 1 < |sorted|
      invariant 0 <= i <= |sorted|
      invariant forall j :: 0 <= j < i && j + 1 < |sorted| ==> sorted[j] < sorted[j + 1]
    {
      if sorted[i] == sorted[i + 1] {
        return true;
      }
      i := i + 1;
    }
    forall i, j | 0 <= i < j < |sorted| ensures sorted[i] != sorted[j] {
      assert sorted[i] < sorted[i + 1] <= sorted[j];
    }
    return false;
  }

  // ---- the seed loop ----

  function BucketCount(n: nat): nat {
    var r := (n + DEFAULT_LAMBDA - 1) / DEFAULT_LAMBDA;
    if r < 1 then 1 else r
  }

  // The attempt the seed loop makes on its t-th try.
  function AttemptFor(family: HashFamily, hashes: seq<u64>, m: pos, t: nat): (a: Attempt)
    requires family.Ranged() && 0 < |hashes| <= m < 0x1_0000_0000
    ensures a.Valid()
  {
    Attempt(family, hashes, m, BucketCount(|hashes|), (SEED_BASE + t) % WORD)
  }

  // What try t yields when it runs alone.
  ghost function SeedOutcome(family: HashFamily, sort: seq<nat> -> seq<nat>, hashes: seq<u64>, m: pos,
                             t: nat): Option<seq<nat>>
    requires family.Ranged() && SortsBySize(sort) && 0 < |hashes| <= m < 0x1_0000_0000
  {
    var a := AttemptFor(family, hashes, m, t);
    OrderListsBuckets(a, sort);
    Outcome(a, OrderOf(a, sort))
  }

  lemma {:induction false} OrderListsBuckets(a: Attempt, sort: seq<nat> -> seq<nat>)
    requires SortsBySize(sort)
    ensures ListsBuckets(a, OrderOf(a, sort))
  {
    assert SortedBySize(BucketSizes(a), sort(BucketSizes(a)));
  }

  // A successful attempt is a perfect hash function for its hashes.
  lemma {:induction false} OutcomeIsPerfect(
    family: HashFamily, sort: seq<nat> -> seq<nat>, hashes: seq<u64>, m: pos, t: nat, disp: seq<u32>)
    requires family.Ranged() && SortsBySize(sort) && 0 < |hashes| <= m < 0x1_0000_0000
    requires SeedOutcome(family, sort, hashes, m, t) == Some(disp)
    ensures IsPerfect(family, ChdPhf((SEED_BASE + t) % WORD, disp, m), hashes)
  {
    var a := AttemptFor(family, hashes, m, t);
    var order := OrderOf(a, sort);
    var phf := ChdPhf((SEED_BASE + t) % WORD, disp, m);
    OrderListsBuckets(a, sort);
    OutcomeIsFirstFit(a, order);
    assert FirstFitUpTo(a, order, |order|, disp);
    forall i, j | 0 <= i < j < |hashes| ensures phf.Index(family, hashes[i]) != phf.Index(family, hashes[j]) {
      PlacementIsPerfect(a, order, disp, i, j);
    }
  }

  // Two equal hashes defeat every attempt.
  lemma {:induction false} DuplicatesNeverPlace(family: HashFamily, sort: seq<nat> -> seq<nat>, hashes: seq<u64>,
                                                m: pos, t: nat)
    requires family.Ranged() && SortsBySize(sort) && 0 < |hashes| <= m < 0x1_0000_0000
    requires HasEqualPair(hashes)
    ensures SeedOutcome(family, sort, hashes, m, t).None?
  {
    var a := AttemptFor(family, hashes, m, t);
    var order := OrderOf(a, sort);
    var i, j :| 0 <= i < j < |hashes| && hashes[i] == hashes[j];
    OrderListsBuckets(a, sort);
    OutcomeIsFirstFit(a, order);
    if disp :| Outcome(a, order) == Some(disp) {
      PlacementIsPerfect(a, order, disp, i, j);
    }
  }

  // build_with_profile without the parallel feature: the first seed that works alone wins.
  method Build(family: HashFamily, sort: seq<nat> -> seq<nat>, hashes: seq<u64>, m: u32)
    returns (r: Result<ChdPhf, BuildError>, profile: ChdBuildProfile)
    requires family.Ranged() && SortsBySize(sort) && |hashes| <= m
    ensures fresh(profile)
    ensures |hashes| == 0 ==> r == Ok(ChdPhf(0, [], m))
    ensures r == Err(DuplicateHash) <==> HasEqualPair(hashes)
    ensures r.Ok? && |hashes| > 0 ==> IsPerfect(family, r.value, hashes) && r.value.m == m
    ensures r.Ok? && |hashes| > 0 ==>
      var t := profile.seedRetries - 1;
      && 0 <= t < 32
      && r.value.seed == (0xD6E8FEB86659FD93 + t) % 0x1_0000_0000_0000_0000
      && SeedOutcome(family, sort, hashes, m, t) == Some(r.value.displacements)
      && forall t' :: 0 <= t' < t ==> SeedOutcome(family, sort, hashes, m, t').None?
    ensures r == Err(Exhausted) ==>
      |hashes| > 0 && forall t :: 0 <= t < 32 ==> SeedOutcome(family, sort, hashes, m, t).None?
    ensures r == Err(Exhausted) ==> profile.seedRetries == 32
    ensures r.Ok? ==> profile.bucketCount == |r.value.displacements| == (|hashes| + 4) / 5
    ensures profile.displacementAttempts <= MAX_SEED_RETRIES * (BucketCount(|hashes|) * (MAX_DISPLACEMENT + 1))
  {
    var n := |hashes|;
    profile := new ChdBuildProfile();
    if n == 0 {
      return Ok(ChdPhf(0, [], m)), profile;
    }
    var dup := HasDuplicate(hashes);
    if dup {
      return Err(DuplicateHash), profile;
    }
    profile.bucketCount := BucketCount(n);
    r := TrySeeds(family, sort, hashes, m, profile);
    if r.Ok? {
      OutcomeIsPerfect(family, sort, hashes, m, profile.seedRetries - 1, r.value.displacements);
    }
  }

  method TrySeed(
    family: HashFamily, sort: seq<nat> -> seq<nat>, hashes: seq<u64>, m: pos, t: nat, profile: ChdBuildProfile)
    returns (r: Result<ChdPhf, BuildError>)
    requires family.Ranged() && SortsBySize(sort) && 0 < |hashes| <= m < 0x1_0000_0000
    requires profile.displacementAttempts + BucketCount(|hashes|) * (MAX_DISPLACEMENT + 1) < WORD
    modifies profile`maxBucketSize, profile`displacementAttempts, profile`maxDisplacementUsed
    ensures profile.displacementAttempts
         <= old(profile.displacementAttempts) + BucketCount(|hashes|) * (MAX_DISPLACEMENT + 1)
    ensures match SeedOutcome(family, sort, hashes, m, t)
      case Some(disp) => r.Ok? && r.value.seed == (SEED_BASE + t) % WORD && r.value.displacements == disp &&
          r.value.m == m
      case None => r == Err(Exhausted)
    ensures r.Ok? ==> |r.value.displacements| == BucketCount(|hashes|)
  {
    var a := AttemptFor(family, hashes, m, t);
    var attempt := TryBuildSeed(a, sort, profile, None);
    match attempt {
      case Ok(disp) => return Ok(ChdPhf(a.seed, disp, m));
      case Err(_) => return Err(Exhausted);
    }
  }

  // The retry loop over seed families.
  method TrySeeds(
    family: HashFamily, sort: seq<nat> -> seq<nat>, hashes: seq<u64>, m: pos, profile: ChdBuildProfile)
    returns (r: Result<ChdPhf, BuildError>)
    requires family.Ranged() && SortsBySize(sort) && 0 < |hashes| <= m < 0x1_0000_0000
    requires profile.displacementAttempts == 0
    modifies profile`seedRetries, profile`maxBucketSize, profile`displacementAttempts, profile`maxDisplacementUsed
    ensures r.Ok? ==>
      var t := profile.seedRetries - 1;
      && 0 <= t < MAX_SEED_RETRIES
      && SeedOutcome(family, sort, hashes, m, t) == Some(r.value.displacements)
      && r.value == ChdPhf((SEED_BASE + t) % WORD, r.value.displacements, m)
      && |r.value.displacements| == BucketCount(|hashes|)
      && forall t' :: 0 <= t' < t ==> SeedOutcome(family, sort, hashes, m, t').None?
    ensures r.Err? ==>
      r.error == Exhausted && forall t :: 0 <= t < MAX_SEED_RETRIES ==> SeedOutcome(family, sort, hashes, m, t).None?
    ensures r.Err? ==> profile.seedRetries == MAX_SEED_RETRIES
    ensures profile.displacementAttempts <= MAX_SEED_RETRIES * (BucketCount(|hashes|) * (MAX_DISPLACEMENT + 1))
  {
    ghost var budget := BucketCount(|hashes|) * (MAX_DISPLACEMENT + 1);
    for t := 0 to MAX_SEED_RETRIES
      invariant profile.displacementAttempts <= t * budget
      invariant profile.seedRetries == t || t == 0
      invariant forall t' :: 0 <= t' < t ==> SeedOutcome(family, sort, hashes, m, t').None?
    {
      profile.seedRetries := t + 1;
      RetryBudget(t, BucketCount(|hashes|));
      r := TrySeed(family, sort, hashes, m, t, profile);
      if r.Ok? {
        return;
      }
    }
    return Err(Exhausted);
  }

  // The attempt counter stays far below 2^64.
  lemma {:induction false} RetryBudget(t: nat, r: nat)
    requires t < MAX_SEED_RETRIES && r < 0x1_0000_0000
    ensures (t + 1) * (r * (MAX_DISPLACEMENT + 1)) == t * (r * (MAX_DISPLACEMENT + 1)) + r * (MAX_DISPLACEMENT + 1)
    ensures (t + 1) * (r * (MAX_DISPLACEMENT + 1)) <= MAX_SEED_RETRIES * (r * (MAX_DISPLACEMENT + 1)) < WORD
  {
  }
}
