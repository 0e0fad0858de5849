// The unbounded probe loop of src/raw/mod.rs does not always return: a run of inserts and removals,
// every one of which returns, after which looking up an absent key probes for ever.
module ProbeTrap {
  import opened Wrappers
  import opened Bits
  import opened Hashing
  import opened Probing
  import opened GroupOps
  import opened TableLayout
  import opened RawTable

  // A table with its counters.
  datatype Store = Store(table: Table<u64>, len: nat, maxLoad: nat)

  // An insert of an absent key, or the removal of a key from where it is stored.
  datatype Op = Ins(key: u64) | Del(key: u64, g: nat, slot: nat)

  // The load limit after removing a key with hash h.
  function Drifted(t: Table<u64>, h: u64, maxLoad: nat): nat
    requires t.Shaped()
  {
    if t.Marked(t.GroupIndex(h), h) && maxLoad > 0 then maxLoad - 1 else maxLoad
  }

  // What insert and remove do below the load limit (FlatSet.UnorderedFlatSet.InsertFused, RawTable.RemoveAt).
  // An insert of an absent key all of whose groups are marked would never return: it is not a step.
  ghost predicate Does(s: Store, op: Op, s': Store)
    requires s.table.Wf()
  {
    var h := HashOf(s.table.hash, op.key);
    match op
    case Ins(key) =>
      s.len < s.maxLoad && !s.table.Has(key) && !AllMarked(s.table, h) &&
          s' == Store(Put(s.table, key), s.len + 1, s.maxLoad)
    case Del(key, g, slot) =>
      s.len > 0 && s.table.At(key, g, slot)
      && s' == Store(s.table.Erase(g, slot), s.len - 1, Drifted(s.table, h, s.maxLoad))
  }

  // s' comes of s by some operations.
  ghost predicate LeadsTo(s: Store, ops: seq<Op>, s': Store)
    decreases |ops|
  {
    s.table.Wf() &&
    if ops == [] then s == s'
    else exists mid :: Does(s, ops[0], mid) && LeadsTo(mid, ops[1..], s')
  }

  lemma {:induction false} LeadsOn(s: Store, ops: seq<Op>, s': Store, op: Op, s'': Store)
    requires LeadsTo(s, ops, s') && s'.table.Wf() && Does(s', op, s'') && s''.table.Wf()
    ensures LeadsTo(s, ops + [op], s'')
    decreases |ops|
  {
    if ops == [] {
      assert LeadsTo(s'', [], s'');
      assert ([] + [op])[1..] == [];
    } else {
      var mid :| Does(s, ops[0], mid) && LeadsTo(mid, ops[1..], s');
      LeadsOn(mid, ops[1..], s', op, s'');
      assert (ops + [op])[1..] == ops[1..] + [op];
    }
  }

  // Keys that are their own hashes, two groups: the top bit is the home group, the low three the overflow bit.
  ghost predicate TwoGroups(t: Table<u64>) {
    t.Wf() && t.log == 1 && t.Groups() == 2 && forall key: u64 :: HashOf(t.hash, key) == key
  }

  const HIGH: u64 := 0x8000_0000_0000_0000

  lemma {:induction false} Homes(t: Table<u64>, h: u64)
    requires TwoGroups(t)
    ensures t.GroupIndex(h) == if h < HIGH then 0 else 1
    ensures t.ProbeAt(h, 0) == t.GroupIndex(h) && t.ProbeAt(h, 1) == 1 - t.GroupIndex(h)
  {
    WordSizes();
    assert Pow2(64) == 2 * Pow2(63);
    TopBit(h, 63);
    assert t.Groups() == 2;
    assert (64 - t.log) % 64 == 63;
  }

  lemma {:induction false} TopBit(x: nat, k: nat)
    requires x < 2 * Pow2(k)
    ensures Shr(x, k) == if x < Pow2(k) then 0 else 1
  {
    if k > 0 { TopBit(x / 2, k - 1); }
  }

  // No key has ever passed group g.
  ghost predicate Clean(t: Table<u64>, g: nat)
    requires t.Shaped() && g < t.Groups()
  {
    forall h: u64 :: !t.Marked(g, h)
  }

  lemma {:induction false} CleanGroupStops(t: Table<u64>, g: nat, h: u64)
    requires t.Shaped() && g < t.Groups() && Clean(t, g)
    ensures !AllMarked(t, h)
  {
    assert !t.Marked(g, h);
  }

  // Exactly the slots below n of group g are occupied.
  ghost predicate Filled(t: Table<u64>, g: nat, n: nat)
    requires t.Shaped() && g < t.Groups()
  {
    forall s: nat :: s < 15 ==> (t.Tag(g, s) != EMPTY <==> s < n)
  }

  lemma {:induction false} FilledFree(t: Table<u64>, g: nat, n: nat)
    requires t.Shaped() && g < t.Groups() && Filled(t, g, n) && n <= 15
    ensures FreeSlot(t, g) == if n < 15 then Some(n) else None
  {
    FreeSlotIsLowest(t, g);
    if n < 15 { assert t.Tag(g, n) == EMPTY; }
  }

  // t' is t with key added at slot s of group g; overflow bits may have been set.
  ghost predicate Added(t: Table<u64>, t': Table<u64>, key: u64, g: nat, s: nat)
    requires TwoGroups(t)
  {
    && TwoGroups(t') && t'.At(key, g, s) && Adds(t, t', key)
    && (forall k, g', s' :: t.At(k, g', s') ==> t'.At(k, g', s'))
  }

  ghost predicate SameMarks(t: Table<u64>, t': Table<u64>)
    requires TwoGroups(t) && TwoGroups(t')
  {
    forall g: nat, h: u64 :: g < 2 ==> (t'.Marked(g, h) <==> t.Marked(g, h))
  }

  ghost predicate SameTags(t: Table<u64>, t': Table<u64>, g: nat)
    requires TwoGroups(t) && TwoGroups(t') && g < 2
  {
    forall s: nat :: s < 15 ==> t'.Tag(g, s) == t.Tag(g, s)
  }

  // Writing an absent key its probe gets to into the next slot of group g.
  lemma {:induction false} WriteNext(t: Table<u64>, key: u64, g: nat, n: nat)
    requires TwoGroups(t) && !t.Has(key) && g < 2 && n < 15 && Filled(t, g, n) && t.Reaches(key, g)
    ensures var t' := t.Write(g, n, HashTag(t.feature, key), key);
      Added(t, t', key, g, n) && Filled(t', g, n + 1) && SameTags(t, t', 1 - g) && SameMarks(t, t')
  {
    var tag := HashTag(t.feature, key);
    assert t.Tag(g, n) == EMPTY && HashOf(t.hash, key) == key;
    WriteEffect(t, g, n, tag, key);
    TagIsNeverEmpty(t.feature, key);
    WriteKeepsWf(t, g, n, key);
    WriteAdds(t, g, n, key);
  }

  // An absent key whose home group has room goes to the next slot there.
  lemma {:induction false} InsertHome(t: Table<u64>, key: u64, n: nat)
    requires TwoGroups(t) && !t.Has(key) && n < 15 && Filled(t, t.GroupIndex(key), n)
    ensures var t' := Put(t, key); var g := t.GroupIndex(key);
      g < 2 && Added(t, t', key, g, n) && Filled(t', g, n + 1) && SameTags(t, t', 1 - g) && SameMarks(t, t')
  {
    Homes(t, key);
    FilledFree(t, t.GroupIndex(key), n);
    assert t.Trail(key, 0);
    WriteNext(t, key, t.GroupIndex(key), n);
  }

  // A full home group is marked before the probe goes on.
  lemma {:induction false} FullHomeIsMarked(t: Table<u64>, key: u64)
    requires TwoGroups(t) && t.GroupIndex(key) < 2 && Filled(t, t.GroupIndex(key), 15)
    ensures var t1 := t.Mark(t.GroupIndex(key), key); var g := t.GroupIndex(key);
      && TwoGroups(t1) && SameTags(t, t1, g) && SameTags(t, t1, 1 - g)
      && (forall k, g', s' :: t1.At(k, g', s') <==> t.At(k, g', s'))
      && (forall k :: t1.Has(k) <==> t.Has(k))
      && (forall g': nat, h: u64 :: g' < 2 ==> (t1.Marked(g', h) <==> t.Marked(g', h) || (g' == g && h % 8 == key % 8)))
      && Put(t, key) == PutFrom(t1, key, 1)
  {
    var g := t.GroupIndex(key);
    Homes(t, key);
    FilledFree(t, g, 15);
    MarkEffect(t, g, key);
    MarkKeepsWf(t, g, key);
    MarkKeepsHas(t, g, key);
  }

  // An absent key whose home group is full marks it and goes to the next slot of the other group.
  lemma {:induction false} InsertSpills(t: Table<u64>, key: u64, n: nat)
    requires TwoGroups(t) && !t.Has(key) && n < 15 && t.GroupIndex(key) < 2
    requires Filled(t, t.GroupIndex(key), 15) && Filled(t, 1 - t.GroupIndex(key), n)
    ensures var t' := Put(t, key); var g := t.GroupIndex(key);
      && Added(t, t', key, 1 - g, n)
      && (forall g': nat, h: u64 :: g' < 2 ==> (t'.Marked(g', h) <==> t.Marked(g', h) || (g' == g && h % 8 == key % 8)))
      && Filled(t', g, 15) && Filled(t', 1 - g, n + 1)
  {
    var g := t.GroupIndex(key);
    var t1 := t.Mark(g, key);
    FullHomeIsMarked(t, key);
    Homes(t1, key);
    FilledFree(t1, 1 - g, n);
    assert t1.Trail(key, 1);
    WriteNext(t1, key, 1 - g, n);
    assert PutFrom(t1, key, 1) == t1.Write(1 - g, n, HashTag(t.feature, key), key);
  }

  // Removing the key in the last filled slot of a group.
  lemma {:induction false} RemoveLast(t: Table<u64>, key: u64, g: nat, n: nat)
    requires TwoGroups(t) && g < 2 && n < 15 && t.At(key, g, n) && Filled(t, g, n + 1)
    ensures var t' := t.Erase(g, n);
      && TwoGroups(t') && Filled(t', g, n) && SameTags(t, t', 1 - g) && SameMarks(t, t')
      && (forall k, g', s' :: t.At(k, g', s') && !(g' == g && s' == n) ==> t'.At(k, g', s'))
      && (forall k :: t'.Has(k) ==> t.Has(k) && k != key)
  {
    EraseKeepsWf(t, g, n);
    EraseForgets(t, g, n, key);
    var t' := t.Erase(g, n);
    assert t'.Groups() == 2;
    assert forall s: nat :: s < 15 ==> t'.Tag(g, s) == if s == n then EMPTY else t.Tag(g, s);
  }

  // ---- the run ----

  function Low(i: nat): u64
    requires i < 15
  {
    8 * i + 1
  }

  // Group 0 holds the first n low keys; after the spill, group 1 holds key 0 and group 0 its mark.
  ghost predicate LowPhase(s: Store, n: nat, spilled: bool) {
    var t := s.table;
    && n <= 15 && TwoGroups(t) && s.len == n + (if spilled then 1 else 0) && s.maxLoad == 26
    && Filled(t, 0, n) && Filled(t, 1, if spilled then 1 else 0)
    && (forall i: nat :: i < n ==> t.At(Low(i), 0, i))
    && (forall k: u64 :: t.Has(k) ==> (spilled && k == 0) || (k % 8 == 1 && k < 8 * n))
    && Clean(t, 1) && (if spilled then !t.Marked(0, 1) && t.Marked(0, 0) else Clean(t, 0))
  }

  lemma {:induction false} LowInsert(s: Store, n: nat) returns (s': Store)
    requires n < 15 && LowPhase(s, n, false)
    ensures LowPhase(s', n + 1, false) && Does(s, Ins(Low(n)), s')
  {
    Homes(s.table, Low(n));
    InsertHome(s.table, Low(n), n);
    CleanGroupStops(s.table, 1, Low(n));
    s' := Store(Put(s.table, Low(n)), s.len + 1, s.maxLoad);
  }

  lemma {:induction false} LowSpill(s: Store) returns (s': Store)
    requires LowPhase(s, 15, false)
    ensures LowPhase(s', 15, true) && Does(s, Ins(0), s')
  {
    Homes(s.table, 0);
    InsertSpills(s.table, 0, 0);
    CleanGroupStops(s.table, 1, 0);
    s' := Store(Put(s.table, 0), s.len + 1, s.maxLoad);
    assert s'.table.Marked(0, 0) && !s'.table.Marked(0, 1);
  }

  lemma {:induction false} LowRemove(s: Store, n: nat) returns (s': Store)
    requires n < 15 && LowPhase(s, n + 1, true)
    ensures LowPhase(s', n, true) && Does(s, Del(Low(n), 0, n), s')
  {
    Homes(s.table, Low(n));
    RemoveLast(s.table, Low(n), 0, n);
    s' := Store(s.table.Erase(0, n), s.len - 1, s.maxLoad);
    assert s'.table.Marked(0, 0) && !s'.table.Marked(0, 1);
    assert !s.table.Marked(0, Low(n));
    assert s.table.At(Low(n), 0, n);
  }

  // Group 0 is empty but marked; group 1 holds key 0 and the first n high keys.
  ghost predicate HighPhase(s: Store, n: nat) {
    var t := s.table;
    && n <= 14 && TwoGroups(t) && s.len == n + 1 && s.maxLoad == 26
    && Filled(t, 0, 0) && Filled(t, 1, n + 1)
    && (forall k: u64 :: t.Has(k) ==> k == 0 || (k >= HIGH && k % 8 == 1 && k < HIGH + 8 * n))
    && t.Marked(0, 0) && Clean(t, 1)
  }

  function High(i: nat): u64
    requires i < 15
  {
    HIGH + 8 * i + 1
  }

  lemma {:induction false} HighInsert(s: Store, n: nat) returns (s': Store)
    requires n < 14 && HighPhase(s, n)
    ensures HighPhase(s', n + 1) && Does(s, Ins(High(n)), s')
  {
    Homes(s.table, High(n));
    InsertHome(s.table, High(n), n + 1);
    CleanGroupStops(s.table, 1, High(n));
    s' := Store(Put(s.table, High(n)), s.len + 1, s.maxLoad);
    assert s'.table.Marked(0, 0) == s.table.Marked(0, 0);
  }

  lemma {:induction false} HighSpill(s: Store) returns (s': Store)
    requires HighPhase(s, 14)
    ensures TwoGroups(s'.table) && Does(s, Ins(HIGH), s')
    ensures AllMarked(s'.table, 8) && !s'.table.Has(8)
  {
    Homes(s.table, HIGH);
    InsertSpills(s.table, HIGH, 0);
    CleanGroupStops(s.table, 1, HIGH);
    s' := Store(Put(s.table, HIGH), s.len + 1, s.maxLoad);
    assert s'.table.Marked(0, 0) && s'.table.Marked(1, 0);
    assert forall g: nat :: g < 2 ==> s'.table.Marked(g, 8) == s'.table.Marked(g, 0);
  }

  lemma {:induction false} LowInserts(s0: Store, n: nat) returns (ops: seq<Op>, s: Store)
    requires LowPhase(s0, 0, false) && n <= 15
    ensures LowPhase(s, n, false) && LeadsTo(s0, ops, s)
  {
    if n == 0 {
      ops, s := [], s0;
    } else {
      var mid;
      ops, mid := LowInserts(s0, n - 1);
      s := LowInsert(mid, n - 1);
      LeadsOn(s0, ops, mid, Ins(Low(n - 1)), s);
      ops := ops + [Ins(Low(n - 1))];
    }
  }

  lemma {:induction false} LowRemoves(s0: Store, ops0: seq<Op>, s1: Store, n: nat) returns (ops: seq<Op>, s: Store)
    requires LowPhase(s1, n, true) && LeadsTo(s0, ops0, s1)
    ensures LowPhase(s, 0, true) && LeadsTo(s0, ops, s)
    decreases n
  {
    if n == 0 {
      ops, s := ops0, s1;
    } else {
      var mid := LowRemove(s1, n - 1);
      LeadsOn(s0, ops0, s1, Del(Low(n - 1), 0, n - 1), mid);
      var ops1 := ops0 + [Del(Low(n - 1), 0, n - 1)];
      ops, s := LowRemoves(s0, ops1, mid, n - 1);
    }
  }

  lemma {:induction false} HighInserts(s0: Store, ops0: seq<Op>, s1: Store, n: nat) returns (ops: seq<Op>, s: Store)
    requires HighPhase(s1, n) && LeadsTo(s0, ops0, s1)
    ensures HighPhase(s, 14) && LeadsTo(s0, ops, s)
    decreases 14 - n
  {
    if n == 14 {
      ops, s := ops0, s1;
    } else {
      var mid := HighInsert(s1, n);
      LeadsOn(s0, ops0, s1, Ins(High(n)), mid);
      ops, s := HighInserts(s0, ops0 + [Ins(High(n))], mid, n + 1);
    }
  }

  // From an empty two-group table, inserts and removals that all return reach a state in which
  // looking up the absent key 8 never returns.
  lemma {:induction false} LookupTrapIsReachable(s0: Store) returns (ops: seq<Op>, s: Store)
    requires TwoGroups(s0.table) && s0.len == 0 && s0.maxLoad == MaxLoad(2)
    requires forall i :: 0 <= i < |s0.table.meta| ==> s0.table.meta[i] == EMPTY
    ensures LeadsTo(s0, ops, s) && s.table.Wf() && !s.table.Has(8)
    ensures forall p: nat :: !StopsAt(s.table, 8, p)
  {
    EmptyTableWf(s0.table);
    forall g: nat, h: u64 | g < 2 ensures !s0.table.Marked(g, h) { ZeroBit(h % 8); }
    assert LowPhase(s0, 0, false);
    var s1;
    ops, s1 := LowInserts(s0, 15);
    var s2 := LowSpill(s1);
    LeadsOn(s0, ops, s1, Ins(0), s2);
    ops, s1 := LowRemoves(s0, ops + [Ins(0)], s2, 15);
    assert HighPhase(s1, 0);
    ops, s1 := HighInserts(s0, ops, s1, 0);
    s := HighSpill(s1);
    LeadsOn(s0, ops, s1, Ins(HIGH), s);
    ops := ops + [Ins(HIGH)];
    LookupLoops(s.table, 8);
  }
}
