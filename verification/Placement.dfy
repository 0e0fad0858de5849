// What one CHD construction attempt computes (src/perfect/chd.rs), over sets of slots:
// buckets in a fixed order, each taking its least displacement that collides with nothing placed so far.
// The hash functions are a parameter, so nothing here depends on how good they are.
module Placement {
  import opened Seqs
  import opened Wrappers
  import opened Hashing

  const MAX_DISPLACEMENT: nat := 0x100_0000

  datatype HashFamily = HashFamily(bucket: (u64, u64, pos) -> nat, slot: (u64, u64, u32, pos) -> nat) {
    ghost predicate Ranged() {
      && (forall h: u64, seed: u64, r: pos :: bucket(h, seed, r) < r)
      && (forall h: u64, seed: u64, d: u32, m: pos :: slot(h, seed, d, m) < m)
    }
  }

  // One attempt: n hashes into m slots through r buckets under one seed.
  datatype Attempt = Attempt(family: HashFamily, hashes: seq<u64>, m: pos, r: pos, seed: u64) {
    ghost predicate Valid() {
      && r <= |hashes| <= m < 0x1_0000_0000
      && (forall i: nat :: i < |hashes| ==> Bucket(i) < r)
      && (forall i: nat, d: u32 :: i < |hashes| ==> Slot(i, d) < m)
    }

    function Bucket(i: nat): nat
      requires i < |hashes|
    {
      family.bucket(hashes[i], seed, r)
    }

    function Slot(i: nat, d: u32): nat
      requires i < |hashes|
    {
      family.slot(hashes[i], seed, d, m)
    }

    // Key indices below n that fall in bucket b, ascending.
    function KeysBelow(b: nat, n: nat): (keys: seq<nat>)
      requires n <= |hashes|
      ensures forall j :: 0 <= j < |keys| ==> keys[j] < n
    {
      if n == 0 then []
      else if Bucket(n - 1) == b then KeysBelow(b, n - 1) + [n - 1]
      else KeysBelow(b, n - 1)
    }

    // Exactly the keys of bucket b, each once, in ascending order.
    lemma {:induction false} KeysAreTheBucket(b: nat, n: nat)
      requires n <= |hashes|
      ensures forall j :: 0 <= j < |KeysBelow(b, n)| ==> Bucket(KeysBelow(b, n)[j]) == b
      ensures forall i: nat :: i < n && Bucket(i) == b ==> i in KeysBelow(b, n)
      ensures forall j, j' :: 0 <= j < j' < |KeysBelow(b, n)| ==> KeysBelow(b, n)[j] < KeysBelow(b, n)[j']
    {
      if n > 0 {
        KeysAreTheBucket(b, n - 1);
        var before, keys := KeysBelow(b, n - 1), KeysBelow(b, n);
        forall i: nat | i < n && Bucket(i) == b ensures i in keys {
          if i == n - 1 { assert keys[|before|] == i; } else { assert i in before; }
        }
      }
    }

    function Keys(b: nat): (keys: seq<nat>)
      ensures forall j :: 0 <= j < |keys| ==> keys[j] < |hashes|
    {
      KeysBelow(b, |hashes|)
    }

    function SlotsAt(b: nat, d: u32): (slots: seq<nat>) {
      var keys := Keys(b);
      seq(|keys|, j requires 0 <= j < |keys| => Slot(keys[j], d))
    }

    // Displacement d puts the keys of bucket b on distinct slots outside occ.
    ghost predicate Fits(b: nat, d: u32, occ: set<nat>) {
      && (forall j :: 0 <= j < |Keys(b)| ==> SlotsAt(b, d)[j] !in occ)
      && (forall j, j' :: 0 <= j < j' < |Keys(b)| ==> SlotsAt(b, d)[j] != SlotsAt(b, d)[j'])
    }

    ghost predicate FirstFit(b: nat, d: nat, occ: set<nat>) {
      && d <= MAX_DISPLACEMENT
      && Fits(b, d, occ)
      && (forall d': nat :: d' < d ==> !Fits(b, d', occ))
    }
  }

  ghost predicate InRange(a: Attempt, order: seq<nat>, disp: seq<nat>) {
    && |disp| == a.r
    && (forall k :: 0 <= k < |order| ==> order[k] < a.r)
    && (forall b :: 0 <= b < |disp| ==> disp[b] <= MAX_DISPLACEMENT)
  }

  // order lists every bucket once.
  ghost predicate ListsBuckets(a: Attempt, order: seq<nat>) {
    && (forall k :: 0 <= k < |order| ==> order[k] < a.r)
    && (forall k, k' :: 0 <= k < k' < |order| ==> order[k] != order[k'])
    && (forall b: nat :: b < a.r ==> b in order)
  }

  // Slots taken by the first k buckets of order.
  ghost function Taken(a: Attempt, order: seq<nat>, k: nat, disp: seq<nat>): set<nat>
    requires k <= |order| && InRange(a, order, disp)
  {
    if k == 0 then {}
    else Taken(a, order, k - 1, disp) + Members(a.SlotsAt(order[k - 1], disp[order[k - 1]]))
  }

  // The k-th bucket of order holds the least displacement that fits after the buckets before it.
  ghost predicate PlacedFirstFit(a: Attempt, order: seq<nat>, k: nat, disp: seq<nat>)
    requires k < |order| && InRange(a, order, disp)
  {
    var b := order[k];
    if a.Keys(b) == [] then disp[b] == 0
    else a.FirstFit(b, disp[b], Taken(a, order, k, disp))
  }

  // disp is the greedy first-fit placement of the first k buckets of order.
  ghost predicate FirstFitUpTo(a: Attempt, order: seq<nat>, k: nat, disp: seq<nat>) {
    && k <= |order|
    && InRange(a, order, disp)
    && forall k' :: 0 <= k' < k ==> PlacedFirstFit(a, order, k', disp)
  }

  // The whole attempt is stuck at the k-th bucket: no admissible displacement fits.
  ghost predicate StuckAt(a: Attempt, order: seq<nat>, k: nat, disp: seq<nat>) {
    && k < |order|
    && FirstFitUpTo(a, order, k, disp)
    && a.Keys(order[k]) != []
    && forall d: nat :: d <= MAX_DISPLACEMENT ==> !a.Fits(order[k], d, Taken(a, order, k, disp))
  }

  // How far an attempt has got: k buckets placed, displacement d about to be tried on the next.
  datatype Progress = Progress(k: nat, d: nat, occ: set<nat>, disp: seq<nat>)

  ghost predicate Fitting(a: Attempt, order: seq<nat>, p: Progress) {
    p.k <= |order| && p.d <= MAX_DISPLACEMENT + 1 && InRange(a, order, p.disp)
  }

  predicate GivesUp(a: Attempt, order: seq<nat>, p: Progress)
    requires p.k < |order|
  {
    a.Keys(order[p.k]) != [] && p.d > MAX_DISPLACEMENT
  }

  // One iteration: skip an empty bucket, accept a displacement that fits, or try the next one.
  ghost function Advance(a: Attempt, order: seq<nat>, p: Progress): (q: Progress)
    requires Fitting(a, order, p) && p.k < |order| && !GivesUp(a, order, p)
    ensures Fitting(a, order, q)
  {
    var b := order[p.k];
    if a.Keys(b) == [] then p.(k := p.k + 1, d := 0)
    else if a.Fits(b, p.d, p.occ) then
      Progress(p.k + 1, 0, p.occ + Members(a.SlotsAt(b, p.d)), p.disp[b := p.d])
    else p.(d := p.d + 1)
  }

  // What an attempt returns if it runs on from p undisturbed.
  ghost function Finish(a: Attempt, order: seq<nat>, p: Progress): (r: Option<seq<nat>>)
    requires Fitting(a, order, p)
    ensures r.Some? ==> InRange(a, order, r.value)
    decreases |order| - p.k, MAX_DISPLACEMENT + 1 - p.d
  {
    if p.k == |order| then Some(p.disp)
    else if GivesUp(a, order, p) then None
    else Finish(a, order, Advance(a, order, p))
  }

  ghost function Start(r: nat): (p: Progress)
    ensures |p.disp| == r && forall b :: 0 <= b < r ==> p.disp[b] == 0
  {
    Progress(0, 0, {}, seq(r, _ => 0))
  }

  // The outcome of the attempt when it runs to completion.
  ghost function Outcome(a: Attempt, order: seq<nat>): (r: Option<seq<nat>>)
    requires forall k :: 0 <= k < |order| ==> order[k] < a.r
    ensures r.Some? ==> InRange(a, order, r.value)
  {
    Finish(a, order, Start(a.r))
  }

  // ---- the search is first fit ----

  lemma {:induction false} TakenFrame(a: Attempt, order: seq<nat>, k: nat, disp: seq<nat>, disp': seq<nat>)
    requires k <= |order| && InRange(a, order, disp) && InRange(a, order, disp')
    requires forall j :: 0 <= j < k ==> disp[order[j]] == disp'[order[j]]
    ensures Taken(a, order, k, disp) == Taken(a, order, k, disp')
  {
    if k > 0 { TakenFrame(a, order, k - 1, disp, disp'); }
  }

  lemma {:induction false} FirstFitFrame(a: Attempt, order: seq<nat>, k: nat, disp: seq<nat>, disp': seq<nat>)
    requires FirstFitUpTo(a, order, k, disp) && InRange(a, order, disp')
    requires forall j :: 0 <= j < k ==> disp[order[j]] == disp'[order[j]]
    ensures FirstFitUpTo(a, order, k, disp')
  {
    forall k' | 0 <= k' < k ensures PlacedFirstFit(a, order, k', disp') {
      assert PlacedFirstFit(a, order, k', disp);
      TakenFrame(a, order, k', disp, disp');
    }
  }

  // The first k buckets are placed first fit, the rest untouched, and nothing below d fits the next.
  ghost predicate Standing(a: Attempt, order: seq<nat>, p: Progress) {
    && Fitting(a, order, p)
    && FirstFitUpTo(a, order, p.k, p.disp)
    && p.occ == Taken(a, order, p.k, p.disp)
    && (forall j :: p.k <= j < |order| ==> p.disp[order[j]] == 0)
    && (p.k < |order| ==> NoneBelow(a, order[p.k], p.d, p.occ))
  }

  ghost predicate NoneBelow(a: Attempt, b: nat, d: nat, occ: set<nat>)
    requires d <= MAX_DISPLACEMENT + 1
  {
    forall d': nat :: d' < d ==> !a.Fits(b, d', occ)
  }

  lemma {:induction false} StandsAfterEmpty(a: Attempt, order: seq<nat>, p: Progress)
    requires ListsBuckets(a, order) && Standing(a, order, p) && p.k < |order| && a.Keys(order[p.k]) == []
    ensures Standing(a, order, p.(k := p.k + 1, d := 0))
  {
    assert a.SlotsAt(order[p.k], p.disp[order[p.k]]) == [];
    assert PlacedFirstFit(a, order, p.k, p.disp);
  }

  lemma {:induction false} ExtendFirstFit(a: Attempt, order: seq<nat>, k: nat, d: nat, disp: seq<nat>)
    requires ListsBuckets(a, order) && k < |order| && FirstFitUpTo(a, order, k, disp)
    requires a.Keys(order[k]) != [] && a.FirstFit(order[k], d, Taken(a, order, k, disp))
    ensures FirstFitUpTo(a, order, k + 1, disp[order[k] := d])
    ensures Taken(a, order, k + 1, disp[order[k] := d]) == Taken(a, order, k, disp) + Members(a.SlotsAt(order[k], d))
  {
    var disp' := disp[order[k] := d];
    FirstFitFrame(a, order, k, disp, disp');
    TakenFrame(a, order, k, disp, disp');
    assert PlacedFirstFit(a, order, k, disp');
  }

  lemma {:induction false} StandsAfterFit(a: Attempt, order: seq<nat>, p: Progress)
    requires ListsBuckets(a, order) && Standing(a, order, p) && p.k < |order| && a.Keys(order[p.k]) != []
    requires p.d <= MAX_DISPLACEMENT && a.Fits(order[p.k], p.d, p.occ)
    ensures Standing(a, order, Advance(a, order, p))
  {
    ExtendFirstFit(a, order, p.k, p.d, p.disp);
  }

  lemma {:induction false} AdvanceStands(a: Attempt, order: seq<nat>, p: Progress)
    requires ListsBuckets(a, order) && Standing(a, order, p) && p.k < |order| && !GivesUp(a, order, p)
    ensures Standing(a, order, Advance(a, order, p))
  {
    if a.Keys(order[p.k]) == [] {
      StandsAfterEmpty(a, order, p);
    } else if a.Fits(order[p.k], p.d, p.occ) {
      StandsAfterFit(a, order, p);
    }
  }

  // Where an attempt ends, from wherever it stands.
  lemma {:induction false} FinishEnds(a: Attempt, order: seq<nat>, p: Progress)
    requires ListsBuckets(a, order) && Standing(a, order, p)
    ensures Finish(a, order, p).Some? ==> FirstFitUpTo(a, order, |order|, Finish(a, order, p).value)
    ensures Finish(a, order, p).None? ==> exists k, disp :: StuckAt(a, order, k, disp)
    decreases |order| - p.k, MAX_DISPLACEMENT + 1 - p.d
  {
    if p.k < |order| {
      if GivesUp(a, order, p) {
        assert StuckAt(a, order, p.k, p.disp);
      } else {
        AdvanceStands(a, order, p);
        FinishEnds(a, order, Advance(a, order, p));
      }
    }
  }

  // Advancing agrees with every first-fit placement that agrees so far.
  lemma {:induction false} AdvanceAgrees(a: Attempt, order: seq<nat>, p: Progress, goal: seq<nat>)
    requires ListsBuckets(a, order) && Standing(a, order, p) && p.k < |order|
    requires FirstFitUpTo(a, order, |order|, goal)
    requires forall j :: 0 <= j < p.k ==> p.disp[order[j]] == goal[order[j]]
    ensures !GivesUp(a, order, p)
    ensures var q := Advance(a, order, p); forall j :: 0 <= j < q.k ==> q.disp[order[j]] == goal[order[j]]
  {
    assert PlacedFirstFit(a, order, p.k, goal);
    TakenFrame(a, order, p.k, p.disp, goal);
  }

  // A first-fit placement that agrees with the buckets placed so far is the one returned.
  lemma {:induction false} FinishFinds(a: Attempt, order: seq<nat>, p: Progress, goal: seq<nat>)
    requires ListsBuckets(a, order) && Standing(a, order, p)
    requires FirstFitUpTo(a, order, |order|, goal)
    requires forall j :: 0 <= j < p.k ==> p.disp[order[j]] == goal[order[j]]
    ensures Finish(a, order, p) == Some(goal)
    decreases |order| - p.k, MAX_DISPLACEMENT + 1 - p.d
  {
    if p.k == |order| {
      forall b | 0 <= b < a.r ensures p.disp[b] == goal[b] {
        assert b in order;
      }
      assert p.disp == goal;
    } else {
      AdvanceAgrees(a, order, p, goal);
      AdvanceStands(a, order, p);
      FinishFinds(a, order, Advance(a, order, p), goal);
    }
  }

  // An attempt that has stopped at a stuck bucket has no first-fit placement at all.
  lemma {:induction false} StuckForever(a: Attempt, order: seq<nat>, k: nat, disp: seq<nat>, goal: seq<nat>, j: nat)
    requires StuckAt(a, order, k, disp) && FirstFitUpTo(a, order, |order|, goal) && j <= k
    requires ListsBuckets(a, order)
    requires forall i :: 0 <= i < j ==> disp[order[i]] == goal[order[i]]
    ensures false
    decreases k - j
  {
    TakenFrame(a, order, j, disp, goal);
    assert PlacedFirstFit(a, order, j, goal);
    if j < k {
      assert PlacedFirstFit(a, order, j, disp);
      StuckForever(a, order, k, disp, goal, j + 1);
    }
  }

  // An uninterrupted attempt returns disp exactly when disp is the first-fit placement of all buckets,
  // and gives up exactly when some bucket, after first-fit placement of those before it, fits nowhere.
  lemma {:induction false} OutcomeIsFirstFit(a: Attempt, order: seq<nat>)
    requires ListsBuckets(a, order)
    ensures forall disp :: Outcome(a, order) == Some(disp) <==> FirstFitUpTo(a, order, |order|, disp)
    ensures Outcome(a, order).None? <==> exists k, disp :: StuckAt(a, order, k, disp)
  {
    var p := Start(a.r);
    assert Standing(a, order, p);
    FinishEnds(a, order, p);
    forall disp | FirstFitUpTo(a, order, |order|, disp) ensures Outcome(a, order) == Some(disp) {
      FinishFinds(a, order, p, disp);
    }
    forall k, disp, goal | StuckAt(a, order, k, disp) && FirstFitUpTo(a, order, |order|, goal) ensures false {
      StuckForever(a, order, k, disp, goal, 0);
    }
  }

  // ---- a first-fit placement is perfect ----

  // The slot a key ends in.
  function FinalSlot(a: Attempt, disp: seq<nat>, i: nat): nat
    requires a.Valid() && |disp| == a.r && i < |a.hashes|
    requires forall b :: 0 <= b < |disp| ==> disp[b] <= MAX_DISPLACEMENT
  {
    a.Slot(i, disp[a.Bucket(i)])
  }

  lemma {:induction false} TakenHolds(a: Attempt, order: seq<nat>, k: nat, disp: seq<nat>, p: nat, s: nat)
    requires k <= |order| && InRange(a, order, disp) && p < k
    requires s in a.SlotsAt(order[p], disp[order[p]])
    ensures s in Taken(a, order, k, disp)
  {
    if p < k - 1 { TakenHolds(a, order, k - 1, disp, p, s); }
  }

  lemma {:induction false} KeySlot(a: Attempt, disp: seq<nat>, i: nat) returns (j: nat)
    requires a.Valid() && |disp| == a.r && i < |a.hashes|
    requires forall b :: 0 <= b < |disp| ==> disp[b] <= MAX_DISPLACEMENT
    ensures var b := a.Bucket(i);
            && j < |a.Keys(b)| && a.Keys(b)[j] == i
            && a.SlotsAt(b, disp[b])[j] == FinalSlot(a, disp, i)
  {
    var b := a.Bucket(i);
    a.KeysAreTheBucket(b, |a.hashes|);
    assert i in a.Keys(b);
    j :| 0 <= j < |a.Keys(b)| && a.Keys(b)[j] == i;
  }

  // No two keys share a slot.
  lemma {:induction false} PlacementIsPerfect(a: Attempt, order: seq<nat>, disp: seq<nat>, i: nat, i': nat)
    requires a.Valid() && ListsBuckets(a, order) && FirstFitUpTo(a, order, |order|, disp)
    requires i < |a.hashes| && i' < |a.hashes| && i != i'
    ensures FinalSlot(a, disp, i) != FinalSlot(a, disp, i')
  {
    var b, b' := a.Bucket(i), a.Bucket(i');
    var j := KeySlot(a, disp, i);
    var j' := KeySlot(a, disp, i');
    assert b in order && b' in order;
    var p :| 0 <= p < |order| && order[p] == b;
    var p' :| 0 <= p' < |order| && order[p'] == b';
    assert PlacedFirstFit(a, order, p, disp) && PlacedFirstFit(a, order, p', disp);
    if p < p' {
      TakenHolds(a, order, p', disp, p, FinalSlot(a, disp, i));
    } else if p' < p {
      TakenHolds(a, order, p, disp, p', FinalSlot(a, disp, i'));
    }
  }
}
