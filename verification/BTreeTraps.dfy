// Runs of a FlatBTree that go wrong, and some that only just do not.  After a
// retain has left a leaf empty, a split leaves behind what it should move, and
// appends lead searches past keys that are there.  The last run needs nothing
// but a split by surgery.

module BTreeTraps {
  import opened Wrappers
  import opened Seqs
  import opened LeafChain
  import opened SortedEntries
  import opened Interior
  import opened Descent
  import opened Guides
  import Raw = RawBTree
  import Retain
  import Graft
  import opened Map = FlatBTree
  import opened BulkLoad
  import opened LeafBuild
  import opened Surgery
  import SplitOff

  type E = Entry<int, int>

  function At(r: int): E {
    Slot(Key(r, 0), 0)
  }

  function Without(r: int): Retain.Judge<int, int> {
    (i: nat, k: Key<int>, v: int) => (k.rank != r, v)
  }

  // With room for one entry a leaf, every leaf holds exactly its own entry.
  lemma {:induction false} OneEach<T, V>(arena: seq<LeafOf<T, V>>, chain: seq<nat>)
    requires forall c :: c in chain ==> |HeldAt(arena, c)| == 1
    ensures |Items(arena, chain)| == |chain|
    ensures forall p :: 0 <= p < |chain| ==> HeldAt(arena, chain[p]) == [Items(arena, chain)[p]]
  {
    if chain != [] {
      OneEach(arena, chain[1..]);
    }
  }

  lemma {:induction false} SingletonLeaves(tree: Raw.RawBTree<int, int>)
    requires tree.Valid() && tree.NoEmptyLeaf() && tree.leafCap == 1
    ensures |tree.Contents()| == |tree.chain|
    ensures forall p :: 0 <= p < |tree.chain| ==> HeldAt(tree.arena, tree.chain[p]) == [tree.Contents()[p]]
  {
    Raw.LeavesFitHolds(tree.arena, tree.chain, tree.leafCap);
    OneEach(tree.arena, tree.chain);
  }

  // Keys 1, 3 and 5; 3 is retained away; splitting at 2 moves nothing, though 5 should go.
  method SplitLeavesGreaterKeyBehind() returns (m: FlatBTree<int, int>, right: FlatBTree<int, int>)
    ensures m.Contents() == [At(1), At(5)] && right.Contents() == []
  {
    m := FlatBTree<int, int>.Load([At(1), At(3), At(5)], 1, 2);
    SingletonLeaves(m.tree);
    ghost var was, chain, seps := m.tree.arena, m.tree.chain, m.tree.Seps();
    assert HeldAt(was, chain[0]) == [At(1)] && HeldAt(was, chain[1]) == [At(3)];
    m.RetainAll(Without(3));
    ThreeMinusOne();
    assert Retain.Compacted(Without(3), was, m.tree.arena, chain, 2);
    FirstLeaves(Without(3), was, m.tree.arena, chain);
    GapIsOverlooked(m.tree.arena, chain, seps);
    right := m.SplitOffDrain(2);
  }

  lemma {:induction false} ThreeMinusOne()
    ensures Retain.Retained(Without(3), 0, [At(1), At(3), At(5)]) == [At(1), At(5)]
  {
    var s := [At(1), At(3), At(5)];
    assert s[1..] == [At(3), At(5)] && s[1..][1..] == [At(5)];
    assert Retain.Retained(Without(3), 2, [At(5)]) == [At(5)];
    assert Retain.Retained(Without(3), 1, [At(3), At(5)]) == [At(5)];
  }

  lemma {:induction false} FirstLeaves(f: Retain.Judge<int, int>, was: seq<LeafOf<int, int>>,
                                       a: seq<LeafOf<int, int>>, chain: seq<nat>)
    requires |chain| >= 2 && Retain.Compacted(f, was, a, chain, 2)
    ensures HeldAt(a, chain[0]) == Retain.Retained(f, 0, HeldAt(was, chain[0]))
    ensures HeldAt(a, chain[1]) == Retain.Retained(f, |HeldAt(was, chain[0])|, HeldAt(was, chain[1]))
  {
    assert chain[..0] == [] && chain[..1] == [chain[0]];
    ItemsOfOne(was, chain[0]);
  }

  lemma {:induction false} GapIsOverlooked(a: seq<LeafOf<int, int>>, chain: seq<nat>, seps: seq<Key<int>>)
    requires |chain| == 3 && |seps| == 2 && seps[0].rank == 3
    requires HeldAt(a, chain[0]) == [At(1)] && HeldAt(a, chain[1]) == [] && Items(a, chain) == [At(1), At(5)]
    ensures Raw.Overlooks(a, chain, seps, 2)
  {
    ItemsAround(a, chain, 0);
    assert RankIn<int, int>([At(1)], 2) == 1 + RankIn<int, int>([], 2);
  }

  // Maps with one entry a leaf and at most three children a node.
  method LoadMap(pairs: seq<E>) returns (m: FlatBTree<int, int>)
    requires Ascending(pairs) && pairs != []
    ensures fresh(m) && fresh(m.tree) && m.Searchable() && m.Contents() == pairs && m.leafCap == 1 && m.innerCap == 2
    ensures m.tree.NoEmptyLeaf() && m.tree.IsBuilt() && m.tree.SplitByFirstKeys()
  {
    var tree := LoadRun(pairs);
    m := new FlatBTree.FromTree(tree);
  }

  // Keys 10 and 90, with 90 retained away, and then 60 appended: the separator
  // 90 still stands in front of the new one, and the search for 60 ends in the
  // leaf of 10.
  method AppendLosesKey() returns (m: FlatBTree<int, int>, found: Option<(nat, nat)>)
    ensures m.Contents() == [At(10), At(60)] && Lookup(m.Contents(), 60) == Some(At(60))
    ensures m.tree.Found(60) == None && found == None
  {
    m := ShortMap();
    var other := LoneMap(60);
    StaleSeparator(m.tree, other.tree, 60);
    OneBehindOther();
    m.Append(other);
    assert !m.tree.Finds(60);
    FoundIsRightOrNothing(m.tree, 60);
    found := m.tree.Search(60);
  }

  // Keys 10 and 90 without 90.
  method ShortMap() returns (m: FlatBTree<int, int>)
    ensures fresh(m) && fresh(m.tree) && m.Searchable() && m.Contents() == [At(10)] && m.leafCap == 1 && m.innerCap == 2
    ensures m.tree.root.Some? && m.tree.root.value.Inner? && m.tree.height == 1
    ensures |m.tree.root.value.rest| == 1 && m.tree.root.value.rest[0].key.rank == 90
  {
    m := LoadMap([At(10), At(90)]);
    TwoReady(m.tree);
    m.RetainAll(Without(90));
    TwoMinusOne();
  }

  method LoneMap(r: int) returns (m: FlatBTree<int, int>)
    ensures fresh(m) && fresh(m.tree) && m.Searchable() && m.Contents() == [At(r)] && m.leafCap == 1 && m.innerCap == 2
    ensures m.tree.height == 0
  {
    m := LoadMap([At(r)]);
    OneReady(m.tree);
  }

  lemma {:induction false} TwoMinusOne()
    ensures Retain.Retained(Without(90), 0, [At(10), At(90)]) == [At(10)]
  {
    var s := [At(10), At(90)];
    assert s[1..] == [At(90)];
    assert Retain.Retained(Without(90), 1, [At(90)]) == [];
  }

  lemma {:induction false} OneBehindOther()
    ensures Ascending([At(10), At(60)]) && Lookup([At(10), At(60)], 60) == Some(At(60))
    ensures Merged([At(10)], [At(60)]) == [At(10), At(60)]
    ensures RouteOf([At(10)], [At(60)]) == Forward
  {
    assert Merged([], [At(60)]) == [At(60)];
    assert [At(10)][1..] == [];
    assert [At(10), At(60)][1..] == [At(60)];
  }

  lemma {:induction false} TwoLeaves(keys: seq<Key<int>>)
    requires |keys| == 2
    ensures Built(LeafLevel(Ids(2), keys), 2) == Inner(LeafAt(0), [Branch(keys[1], LeafAt(1))])
    ensures Levels(LeafLevel(Ids(2), keys), 2) == 1
  {
    var level := LeafLevel(Ids(2), keys);
    LevelOf(Ids(2), keys);
    var top := Grouped(level, 2);
    assert level[..2] == level && level[2..] == [];
    assert Grouped(level, 2) == [Parent(level)] + [];
    assert level[1..] == [level[1]];
    assert Built(level, 2) == Built(top, 2) == top[0].child;
  }

  lemma {:induction false} TwoReady(tree: Raw.RawBTree<int, int>)
    requires tree.Valid() && tree.NoEmptyLeaf() && tree.leafCap == 1 && tree.innerCap == 2 && tree.IsBuilt()
    requires |tree.Contents()| == 2
    ensures tree.root.value.Inner? && |tree.root.value.rest| == 1 && tree.height == 1
    ensures tree.root.value.rest[0].key == tree.Contents()[1].key
  {
    SingletonLeaves(tree);
    TwoLeaves(FirstSlots(tree.arena));
    assert HeldAt(tree.arena, tree.chain[1]) == [tree.Contents()[1]];
  }

  lemma {:induction false} OneReady(tree: Raw.RawBTree<int, int>)
    requires tree.Valid() && tree.NoEmptyLeaf() && tree.leafCap == 1 && tree.innerCap == 2 && tree.IsBuilt()
    requires |tree.Contents()| == 1
    ensures tree.height == 0
  {
    SingletonLeaves(tree);
    tree.OneLeafIsRoot();
  }

  lemma {:induction false} StaleSeparator(a: Raw.RawBTree<int, int>, b: Raw.RawBTree<int, int>, r: int)
    requires a.Valid() && b.Valid() && a.len > 0 && b.len > 0 && a.height == 1 && b.height == 0 && a.innerCap == 2
    requires a.root.Some? && a.root.value.Inner? && |a.root.value.rest| == 1 && a.root.value.rest[0].key.rank == 90
    requires b.Contents() == [At(r)] && r < 90
    ensures !GraftFinds(a, b, r)
  {
    var rest := a.root.value.rest;
    assert NodeKeys(rest)[0].rank == 90;
    assert !TallAfter(a.root.value, 1, 0, 2);
    if b.root.Some? && Graft.FirstSlotReady(b) {
      assert (NodeKeys(rest) + [Graft.FirstSlot(b)])[0] == NodeKeys(rest)[0];
    }
    LookupAt([At(r)], 0);
  }

  // The same two maps met the other way round: the map that 10 and 90 came from
  // is appended to one of 11, the two change places, and 11 is lost.
  method ReverseAppendLosesKey() returns (m: FlatBTree<int, int>, found: Option<(nat, nat)>)
    ensures m.Contents() == [At(10), At(11)] && Lookup(m.Contents(), 11) == Some(At(11))
    ensures m.tree.Found(11) == None && found == None
  {
    m := LoneMap(11);
    var other := ShortMap();
    StaleSeparator(other.tree, m.tree, 11);
    TenBeforeEleven();
    m.Append(other);
    assert !m.tree.Finds(11);
    FoundIsRightOrNothing(m.tree, 11);
    found := m.tree.Search(11);
  }

  lemma {:induction false} TenBeforeEleven()
    ensures Ascending([At(10), At(11)]) && Lookup([At(10), At(11)], 11) == Some(At(11))
    ensures Merged([At(11)], [At(10)]) == [At(10), At(11)]
    ensures RouteOf([At(11)], [At(10)]) == Reverse
  {
    DisjointRuns([At(10)], [At(11)]);
    assert [At(10)] + [At(11)] == [At(10), At(11)];
    assert [At(10), At(11)][1..] == [At(11)];
  }

  // --- Tall trees ------------------------------------------------------------

  lemma {:induction false} WithoutAbsent(r: int, i: nat, s: seq<E>)
    requires forall e :: e in s ==> e.key.rank != r
    ensures Retain.Retained(Without(r), i, s) == s
    decreases |s|
  {
    if s != [] {
      WithoutAbsent(r, i + 1, s[1..]);
      assert s == [s[0]] + s[1..];
    }
  }

  // Ten leaves under three-child nodes: a root with one key, in front of the last leaf.
  lemma {:induction false} TenLeaves(keys: seq<Key<int>>)
    requires |keys| == 10
    ensures var root := Built(LeafLevel(Ids(10), keys), 2);
            root.Inner? && |root.rest| == 1 && root.rest[0].key == keys[9]
    ensures Levels(LeafLevel(Ids(10), keys), 2) == 3
  {
    var level := LeafLevel(Ids(10), keys);
    LevelOf(Ids(10), keys);
    var g1, g2, g3, g4 := level[..3], level[3..][..3], level[6..][..3], level[9..];
    ThreeOf(level);
    ThreeOf(level[3..]);
    ThreeOf(level[6..]);
    assert level[3..][3..] == level[6..] && level[6..][3..] == level[9..];
    FewOf(g4);
    var up := Grouped(level, 2);
    assert up == [Parent(g1), Parent(g2), Parent(g3), Parent(g4)];
    FourNodes(up);
    assert Parent(g4).key == keys[9];
    assert Built(level, 2) == Built(up, 2) && Levels(level, 2) == 1 + Levels(up, 2);
  }

  // Four subtrees come under a root with one key.
  lemma {:induction false} FourNodes(up: seq<Branch<int>>)
    requires |up| == 4
    ensures Built(up, 2).Inner? && |Built(up, 2).rest| == 1 && Built(up, 2).rest[0].key == up[3].key
    ensures Levels(up, 2) == 2
  {
    ThreeOf(up);
    FewOf(up[3..]);
    var top := Grouped(up, 2);
    assert top == [Parent(up[..3]), Parent(up[3..])];
    FewOf(top);
    var root := Grouped(top, 2);
    assert root == [Parent(top)];
    assert Built(up, 2) == Built(top, 2) == Built(root, 2) == root[0].child;
    assert Levels(up, 2) == 1 + Levels(top, 2) && Levels(top, 2) == 1 + Levels(root, 2);
    assert Parent(top).child == Inner(top[0].child, top[1..]) && top[1..] == [top[1]];
  }

  lemma {:induction false} ThreeOf(level: seq<Branch<int>>)
    requires |level| > 3
    ensures Grouped(level, 2) == [Parent(level[..3])] + Grouped(level[3..], 2)
  {
  }

  lemma {:induction false} FewOf(level: seq<Branch<int>>)
    requires 1 <= |level| <= 3
    ensures Grouped(level, 2) == [Parent(level)]
  {
    assert level[..|level|] == level && level[|level|..] == [];
    assert Grouped(level, 2) == [Parent(level)] + [];
  }

  function Tens(n: nat): seq<E> {
    if n == 0 then [] else Tens(n - 1) + [At(10 * n)]
  }

  lemma {:induction false} TensAscend(n: nat)
    ensures |Tens(n)| == n && forall i :: 0 <= i < n ==> Tens(n)[i] == At(10 * (i + 1))
    ensures Ascending(Tens(n))
  {
    if n > 0 {
      TensAscend(n - 1);
    }
  }

  // What is known of the ten leaves.
  lemma {:induction false} TenReady(tree: Raw.RawBTree<int, int>)
    requires tree.Valid() && tree.NoEmptyLeaf() && tree.leafCap == 1 && tree.innerCap == 2 && tree.IsBuilt()
    requires tree.Contents() == Tens(10)
    ensures tree.root.value.Inner? && |tree.root.value.rest| == 1 && tree.root.value.rest[0].key.rank == 100 &&
        tree.height == 3
  {
    TensAscend(10);
    SingletonLeaves(tree);
    TenLeaves(FirstSlots(tree.arena));
    assert HeldAt(tree.arena, tree.chain[9]) == [At(100)];
  }

  lemma {:induction false} FourReady(tree: Raw.RawBTree<int, int>)
    requires tree.Valid() && tree.NoEmptyLeaf() && tree.leafCap == 1 && tree.innerCap == 2 && tree.IsBuilt()
    requires |tree.Contents()| == 4
    ensures tree.height == 2 && |tree.chain| == 4 && HeldAt(tree.arena, tree.chain[0]) == [tree.Contents()[0]]
    ensures tree.root.value.Inner? && |tree.root.value.rest| == 1
    ensures tree.root.value.rest[0].key == tree.Contents()[3].key
  {
    SingletonLeaves(tree);
    var keys := FirstSlots(tree.arena);
    LevelOf(Ids(4), keys);
    FourNodes(LeafLevel(Ids(4), keys));
    assert HeldAt(tree.arena, tree.chain[3]) == [tree.Contents()[3]];
  }

  lemma {:induction false} ThreeReady(tree: Raw.RawBTree<int, int>)
    requires tree.Valid() && tree.NoEmptyLeaf() && tree.leafCap == 1 && tree.innerCap == 2 && tree.IsBuilt()
    requires |tree.Contents()| == 3
    ensures tree.height == 1 && |tree.chain| == 3 && HeldAt(tree.arena, tree.chain[0]) == [tree.Contents()[0]]
  {
    SingletonLeaves(tree);
    var level := LeafLevel(Ids(3), FirstSlots(tree.arena));
    LevelOf(Ids(3), FirstSlots(tree.arena));
    FewOf(level);
    assert Levels(level, 2) == 1 + Levels(Grouped(level, 2), 2);
  }

  // Bisecting the two keys [100, sep] looks at the second one only.
  lemma {:induction false} BisectTwo(rest: seq<Branch<int>>, sep: Key<int>, r: int)
    requires |rest| == 1
    ensures SeamPassed(rest, sep, 2, r, true) <==> sep.rank < r
  {
    var keys := NodeKeys(rest) + [sep];
    assert keys[1] == sep;
    assert BisectFrom(keys, 1, 1, r) == if sep.rank < r then 2 else 1;
    assert Bisect(keys, r) == BisectFrom(keys, 0, 2, r);
  }
  // Behind such a tree of ten leaves, a descent enters a graft of height 2 when
  // its rank is above the new separator, whatever the last key is.
  lemma {:induction false} TallSeam(a: Raw.RawBTree<int, int>, b: Raw.RawBTree<int, int>, r: int)
    requires a.Valid() && b.Valid() && a.len > 0 && b.len > 0 && a.height == 3 && b.height == 2 && a.innerCap == 2
    requires a.root.Some? && a.root.value.Inner? && |a.root.value.rest| == 1
    requires Graft.FirstSlotReady(b)
    ensures GraftFinds(a, b, r) <==> RightlyLed(a.Contents(), b.Contents(), r, Graft.FirstSlot(b).rank <= r)
  {
    BisectTwo(a.root.value.rest, Graft.FirstSlot(b), r + 1);
    assert TallAfter(a.root.value, 3, 2, 2);
  }

  // Keys 10 to 100 without 100: the separator 100 stays behind.
  method TallMap() returns (m: FlatBTree<int, int>)
    ensures fresh(m) && fresh(m.tree) && m.Searchable() && m.Contents() == Tens(9) && m.leafCap == 1 && m.innerCap == 2
    ensures m.tree.root.Some? && m.tree.root.value.Inner? && m.tree.height == 3
    ensures |m.tree.root.value.rest| == 1 && m.tree.root.value.rest[0].key.rank == 100
  {
    TensAscend(10);
    m := LoadMap(Tens(10));
    TenReady(m.tree);
    m.RetainAll(Without(100));
    TensWithoutLast();
  }

  lemma {:induction false} TensWithoutLast()
    ensures Retain.Retained(Without(100), 0, Tens(10)) == Tens(9) && |Tens(9)| == 9
  {
    TensAscend(9);
    Retain.RetainedConcat(Without(100), 0, Tens(9), [At(100)], 9);
    WithoutAbsent(100, 0, Tens(9));
    assert Retain.Retained(Without(100), 9, [At(100)]) == [];
    NothingBehind(Tens(9));
  }

  // Keys 85, 101, 102 and 103 without 85, which stays in a dead slot.
  method LateMap() returns (m: FlatBTree<int, int>)
    ensures fresh(m) && fresh(m.tree) && m.Searchable() && m.Contents() == [At(101), At(102), At(103)]
    ensures m.leafCap == 1 && m.innerCap == 2 && m.tree.height == 2
    ensures Graft.FirstSlotReady(m.tree) && Graft.FirstSlot(m.tree).rank == 85
  {
    m := LoadMap([At(85), At(101), At(102), At(103)]);
    FourReady(m.tree);
    ghost var was, chain := m.tree.arena, m.tree.chain;
    m.RetainAll(Without(85));
    LateWithoutFirst();
    NonEmptyHasRoot(m.tree);
    Graft.FirstSlotExists(m.tree);
    EmptiedFirst(was, m.tree.arena, chain, 85);
  }

  lemma {:induction false} LateWithoutFirst()
    ensures Retain.Retained(Without(85), 0, [At(85), At(101), At(102), At(103)]) == [At(101), At(102), At(103)]
    ensures Retain.Retained(Without(85), 0, [At(85)]) == []
  {
    var late := [At(101), At(102), At(103)];
    Retain.RetainedConcat(Without(85), 0, [At(85)], late, 1);
    WithoutAbsent(85, 1, late);
    assert [At(85)] + late == [At(85), At(101), At(102), At(103)];
  }

  lemma {:induction false} EmptiedFirst(was: seq<LeafOf<int, int>>, a: seq<LeafOf<int, int>>, chain: seq<nat>, r: int)
    requires 2 <= |chain| <= 4 && HeldAt(was, chain[0]) == [At(r)]
    requires Retain.Compacted(Without(r), was, a, chain, |chain|) && Retain.ShowLast(was, a, chain, |chain|)
    ensures chain[0] < |a| && a[chain[0]].slots != [] && a[chain[0]].slots[0].key.rank == r
  {
    Retain.ShowLastAt(was, a, chain, |chain|, 0);
    if |chain| == 4 {
      assert Retain.Compacted(Without(r), was, a, chain, 3);
    }
    assert Retain.Compacted(Without(r), was, a, chain, 2);
    FirstLeaves(Without(r), was, a, chain);
    assert Retain.Retained(Without(r), 0, [At(r)]) == [];
  }

  // Those two maps: the separator 85 comes to stand behind 100.  Every key that
  // was there before and lies at or above 85 is led past its leaf, 90 among them.
  method BisectionLosesKey() returns (m: FlatBTree<int, int>, found: Option<(nat, nat)>)
    ensures m.Contents() == Tens(9) + [At(101), At(102), At(103)] && Lookup(m.Contents(), 90) == Some(At(90))
    ensures m.tree.Found(90) == None && found == None
  {
    m := TallMap();
    var other := LateMap();
    TallSeam(m.tree, other.tree, 90);
    TensBelow([At(101), At(102), At(103)], 90);
    m.Append(other);
    assert !m.tree.Finds(90);
    FoundIsRightOrNothing(m.tree, 90);
    found := m.tree.Search(90);
  }

  // A run behind the first nine tens.
  lemma {:induction false} TensBelow(y: seq<E>, r: int)
    requires Ascending(y) && y != [] && y[0].key.rank > 90
    ensures RouteOf(Tens(9), y) == Forward && Merged(Tens(9), y) == Tens(9) + y && Ascending(Tens(9) + y)
    ensures Lookup(Tens(9), 90) == Some(At(90)) && Lookup(Tens(9) + y, 90) == Some(At(90))
    ensures r > 90 ==> Lookup(Tens(9), r) == None
  {
    TensAscend(9);
    DisjointRuns(Tens(9), y);
    AscendingConcat(Tens(9), y);
    LookupAt(Tens(9), 8);
    LookupInConcat(Tens(9), y, 90);
    LookupFindsRank(Tens(9), r);
    BelowAllMissing(y, 90);
  }

  // Keys 95 to 98.
  method EarlyMap() returns (m: FlatBTree<int, int>)
    ensures fresh(m) && fresh(m.tree) && m.Searchable() && m.Contents() == [At(95), At(96), At(97), At(98)]
    ensures m.leafCap == 1 && m.innerCap == 2 && m.tree.height == 2
    ensures Graft.FirstSlotReady(m.tree) && Graft.FirstSlot(m.tree).rank == 95
  {
    m := LoadMap([At(95), At(96), At(97), At(98)]);
    FourReady(m.tree);
    Graft.DeadSlotWhenEmptied(m.tree);
  }

  // With them instead the separator 95 comes to stand behind 100, and yet 95 is
  // found: the bisection never looks at 100.
  method BisectionFindsKey() returns (m: FlatBTree<int, int>, found: Option<(nat, nat)>)
    ensures m.Contents() == Tens(9) + [At(95), At(96), At(97), At(98)]
    ensures m.tree.Found(95) == Some(At(95)) && found.Some?
  {
    m := TallMap();
    var other := EarlyMap();
    TallSeam(m.tree, other.tree, 95);
    TensBelow([At(95), At(96), At(97), At(98)], 95);
    LookupBehindTens([At(95), At(96), At(97), At(98)]);
    m.Append(other);
    assert m.tree.Finds(95);
    found := m.tree.Search(95);
  }

  lemma {:induction false} LookupBehindTens(y: seq<E>)
    requires Ascending(y) && y != [] && y[0] == At(95)
    ensures Lookup(Tens(9) + y, 95) == Some(At(95))
  {
    TensBelow(y, 95);
    LookupAt(y, 0);
    LookupInConcat(Tens(9), y, 95);
  }

  // --- The last height that is scanned ---------------------------------------

  // Keys 10 to 40 without 40: height 2, and the separator 40 stays behind.
  method MiddleMap() returns (m: FlatBTree<int, int>)
    ensures fresh(m) && fresh(m.tree) && m.Searchable() && m.Contents() == Tens(3) && m.leafCap == 1 && m.innerCap == 2
    ensures m.tree.root.Some? && m.tree.root.value.Inner? && m.tree.height == 2
    ensures |m.tree.root.value.rest| == 1 && m.tree.root.value.rest[0].key.rank == 40
  {
    TensAscend(4);
    m := LoadMap(Tens(4));
    FourReady(m.tree);
    m.RetainAll(Without(40));
    ThreeTens();
  }

  lemma {:induction false} ThreeTens()
    ensures Retain.Retained(Without(40), 0, Tens(4)) == Tens(3) && |Tens(3)| == 3
  {
    TensAscend(3);
    Retain.RetainedConcat(Without(40), 0, Tens(3), [At(40)], 3);
    WithoutAbsent(40, 0, Tens(3));
    assert Retain.Retained(Without(40), 3, [At(40)]) == [];
    NothingBehind(Tens(3));
  }

  // Keys 25, 41 and 42 without 25, which stays in a dead slot.
  method BehindMap() returns (m: FlatBTree<int, int>)
    ensures fresh(m) && fresh(m.tree) && m.Searchable() && m.Contents() == [At(41), At(42)]
    ensures m.leafCap == 1 && m.innerCap == 2 && m.tree.height == 1
    ensures Graft.FirstSlotReady(m.tree) && Graft.FirstSlot(m.tree).rank == 25
  {
    m := LoadMap([At(25), At(41), At(42)]);
    ThreeReady(m.tree);
    ghost var was, chain := m.tree.arena, m.tree.chain;
    m.RetainAll(Without(25));
    BehindWithoutFirst();
    NonEmptyHasRoot(m.tree);
    Graft.FirstSlotExists(m.tree);
    EmptiedFirst(was, m.tree.arena, chain, 25);
  }

  lemma {:induction false} BehindWithoutFirst()
    ensures Retain.Retained(Without(25), 0, [At(25), At(41), At(42)]) == [At(41), At(42)]
  {
    var late := [At(41), At(42)];
    Retain.RetainedConcat(Without(25), 0, [At(25)], late, 1);
    WithoutAbsent(25, 1, late);
    assert [At(25)] + late == [At(25), At(41), At(42)];
    assert Retain.Retained(Without(25), 0, [At(25)]) == [];
  }

  // The scan of a node stops at 40, whatever stands behind it.
  lemma {:induction false} MiddleSeam(a: Raw.RawBTree<int, int>, b: Raw.RawBTree<int, int>, r: int)
    requires a.Valid() && b.Valid() && a.len > 0 && b.len > 0 && a.height == 2 && b.height == 1 && a.innerCap == 2
    requires a.root.Some? && a.root.value.Inner? && |a.root.value.rest| == 1 && a.root.value.rest[0].key.rank == 40
    requires r < 40 && Lookup(b.Contents(), r) == None && Graft.FirstSlotReady(b)
    ensures GraftFinds(a, b, r)
  {
    var rest := a.root.value.rest;
    assert NodeKeys(rest)[0].rank == 40;
    assert !TallAfter(a.root.value, 2, 1, 2);
    assert (NodeKeys(rest) + [Graft.FirstSlot(b)])[0] == NodeKeys(rest)[0];
  }

  // At height 2 the keys 40 and 25 of the root are scanned and 30 is found; a
  // bisection would look at 25 and go past it.
  method ScanFindsKey() returns (m: FlatBTree<int, int>, found: Option<(nat, nat)>)
    ensures m.Contents() == Tens(3) + [At(41), At(42)]
    ensures m.tree.Found(30) == Some(At(30)) && found.Some?
  {
    m := MiddleMap();
    var other := BehindMap();
    ThirtyIsThere([At(41), At(42)]);
    MiddleSeam(m.tree, other.tree, 30);
    m.Append(other);
    assert m.tree.Finds(30);
    found := m.tree.Search(30);
  }

  lemma {:induction false} ThirtyIsThere(y: seq<E>)
    requires Ascending(y) && y != [] && y[0].key.rank > 30
    ensures RouteOf(Tens(3), y) == Forward && Merged(Tens(3), y) == Tens(3) + y && Ascending(Tens(3) + y)
    ensures Lookup(y, 30) == None && Lookup(Tens(3) + y, 30) == Some(At(30))
  {
    var x := Tens(3);
    TensAscend(3);
    AscendingConcat(x, y);
    DisjointRuns(x, y);
    LookupAt(x, 2);
    LookupInConcat(x, y, 30);
    BelowAllMissing(y, 30);
  }

  // --- Equal heights ---------------------------------------------------------

  // Two trees of one height come under a new root, whose only key is the separator.
  lemma {:induction false} RootSeam(a: Raw.RawBTree<int, int>, b: Raw.RawBTree<int, int>, r: int)
    requires a.Valid() && b.Valid() && a.len > 0 && b.len > 0 && a.height == b.height && a.root.Some?
    requires Graft.FirstSlotReady(b)
    ensures GraftFinds(a, b, r) <==> RightlyLed(a.Contents(), b.Contents(), r, Graft.FirstSlot(b).rank <= r)
  {
  }

  // Keys 10 and 30, and then 25, 41 and 42 without 25 appended: both trees have
  // height 1, the root holds 25, and the search for 30 goes past it.
  method EqualHeightsLoseKey() returns (m: FlatBTree<int, int>, found: Option<(nat, nat)>)
    ensures m.Contents() == [At(10), At(30)] + [At(41), At(42)] && Lookup(m.Contents(), 30) == Some(At(30))
    ensures m.tree.Found(30) == None && found == None
  {
    TenAndThirty();
    m := LoadMap([At(10), At(30)]);
    TwoReady(m.tree);
    var other := BehindMap();
    RootSeam(m.tree, other.tree, 30);
    m.Append(other);
    assert !m.tree.Finds(30);
    FoundIsRightOrNothing(m.tree, 30);
    found := m.tree.Search(30);
  }

  lemma {:induction false} TenAndThirty()
    ensures var x, y := [At(10), At(30)], [At(41), At(42)];
      && Ascending(x) && Ascending(x + y) && RouteOf(x, y) == Forward && Merged(x, y) == x + y
      && Lookup(x, 30) == Some(At(30)) && Lookup(x + y, 30) == Some(At(30))
  {
    var x, y := [At(10), At(30)], [At(41), At(42)];
    DisjointRuns(x, y);
    AscendingConcat(x, y);
    LookupAt(x, 1);
    LookupInConcat(x, y, 30);
    BelowAllMissing(y, 30);
  }

  // What a search comes upon is either right or nothing.
  lemma {:induction false} FoundIsRightOrNothing(tree: Raw.RawBTree<int, int>, r: int)
    requires tree.Valid() && Ascending(tree.Contents())
    ensures tree.Found(r) == None || tree.Finds(r)
  {
    if tree.root.Some? {
      RouteByIsLeaf(tree.root.value, r + 1, IsTall(tree.height));
      var c := RouteBy(tree.root.value, r + 1, IsTall(tree.height));
      var p :| 0 <= p < |tree.chain| && tree.chain[p] == c;
      var held := HeldAt(tree.arena, c);
      LookupFindsRank(held, r);
      if Lookup(held, r).Some? {
        var i :| 0 <= i < |held| && held[i] == Lookup(held, r).value;
        ItemAt(tree.arena, tree.chain, p, i);
        LookupAt(tree.Contents(), Offset(tree.arena, tree.chain, p) + i);
      }
    }
  }

  // Five leaves under three-child nodes: three under the one, two under the other.
  lemma {:induction false} FiveLeaves(keys: seq<Key<int>>)
    requires |keys| == 5
    ensures Built(LeafLevel(Ids(5), keys), 2)
         == Inner(Inner(LeafAt(0), [Branch(keys[1], LeafAt(1)), Branch(keys[2], LeafAt(2))]),
                  [Branch(keys[3], Inner(LeafAt(3), [Branch(keys[4], LeafAt(4))]))])
  {
    var level := LeafLevel(Ids(5), keys);
    LevelOf(Ids(5), keys);
    var first, second := level[..3], level[3..];
    assert second[..2] == second && second[2..] == [];
    assert Grouped(second, 2) == [Parent(second)] + [];
    var upper := Grouped(level, 2);
    assert upper == [Parent(first), Parent(second)];
    assert upper[..2] == upper && upper[2..] == [];
    assert Grouped(upper, 2) == [Parent(upper)] + [];
    assert first[1..] == [level[1], level[2]] && second[1..] == [level[4]] && upper[1..] == [Parent(second)];
    var top := [Parent(upper)];
    assert Built(level, 2) == Built(upper, 2) == Built(top, 2) == top[0].child;
    assert upper[0].child == Inner(level[0].child, first[1..]) &&
        Parent(second).child == Inner(level[3].child, second[1..]);
  }

  lemma {:induction false} LevelOf(leaves: seq<nat>, keys: seq<Key<int>>)
    requires |leaves| == |keys|
    ensures |LeafLevel(leaves, keys)| == |leaves|
    ensures forall i :: 0 <= i < |leaves| ==> LeafLevel(leaves, keys)[i] == Branch(keys[i], LeafAt(leaves[i]))
  {
    if leaves != [] {
      LevelOf(leaves[1..], keys[1..]);
    }
  }

  // The way to leaf number 3 takes the last child and then a first one.
  lemma {:induction false} WayToFourth(root: Node<int>, keys: seq<Key<int>>)
    requires |keys| == 5 && root == Built(LeafLevel(Ids(5), keys), 2)
    ensures !FirstsComeFirst(Path(root, 3))
  {
    FiveLeaves(keys);
    var left := Inner(LeafAt(0), [Branch(keys[1], LeafAt(1)), Branch(keys[2], LeafAt(2))]);
    var right := Inner(LeafAt(3), [Branch(keys[4], LeafAt(4))]);
    assert root == Inner(left, [Branch(keys[3], right)]);
    assert BranchLeaves([Branch(keys[2], LeafAt(2))]) == [2] + [];
    assert BranchLeaves([Branch(keys[1], LeafAt(1)), Branch(keys[2], LeafAt(2))]) == [1] + [2];
    assert |Leaves(left)| == 3;
    assert ForkAt(right, [], 0) == Fork(0, right, 0);
    assert ForkAt(left, [Branch(keys[3], right)], 3) == Fork(1, right, 0);
    assert ForkAt(LeafAt(3), [Branch(keys[4], LeafAt(4))], 0) == Fork(0, LeafAt(3), 0);
    assert Path(right, 0) == [Step(0, 1)] + [];
    assert Path(root, 3) == [Step(1, 1)] + Path(right, 0);
    assert Path(root, 3)[1..] == [Step(0, 1)];
  }

  // With no empty leaf the cut is found, and with one entry a leaf it lies in front of leaf 4.
  lemma {:induction false} CutBeforeLast(tree: Raw.RawBTree<int, int>)
    requires tree.Valid() && tree.NoEmptyLeaf() && tree.leafCap == 1
    requires tree.Contents() == [At(1), At(2), At(3), At(4), At(5)]
    ensures !tree.Misses(5) && RankIn(tree.Contents(), 5) == 4
    ensures forall p: nat, i: nat :: p < |tree.chain| && tree.BoundAt(tree.chain[p], i, p, 5) ==> p == 4 && i == 0
  {
    SingletonLeaves(tree);
    var s := tree.Contents();
    RankInBound(s, 5);
    forall p: nat, i: nat | p < |tree.chain| && tree.BoundAt(tree.chain[p], i, p, 5) ensures p == 4 && i == 0 {
      OneEach(tree.arena, tree.chain[..p]);
    }
  }

  // What is known of the five leaves before the split.
  lemma {:induction false} FiveReady(tree: Raw.RawBTree<int, int>)
    requires tree.Searchable() && tree.NoEmptyLeaf() && tree.leafCap == 1 && tree.innerCap == 2 && tree.IsBuilt()
    requires tree.Contents() == [At(1), At(2), At(3), At(4), At(5)] && tree.SplitByFirstKeys()
    ensures !tree.Misses(5) && RankIn(tree.Contents(), 5) == 4
    ensures forall p: nat, i: nat :: p < |tree.chain| && tree.BoundAt(tree.chain[p], i, p, 5) ==> p == 4 && i == 0
    ensures !FirstsComeFirst(Path(tree.root.value, 3))
    ensures |tree.Seps()| == 4 && forall k :: k in tree.Seps()[..3] ==> k.rank < 5
  {
    SingletonLeaves(tree);
    CutBeforeLast(tree);
    WayToFourth(tree.root.value, FirstSlots(tree.arena));
    forall q | 0 <= q < 4 ensures tree.Seps()[q].rank == q + 2 {
      assert HeldAt(tree.arena, tree.chain[q + 1]) == [tree.Contents()[q + 1]];
      assert tree.Seps()[(q + 1) - 1] == HeldAt(tree.arena, tree.chain[q + 1])[0].key;
    }
  }

  lemma {:induction false} FourIsLost(tree: Raw.RawBTree<int, int>)
    requires SplitOff.Half(tree) && !tree.Searchable() && forall k :: k in tree.Seps() ==> k.rank < 5
    ensures Descend(tree.root.value, tree.height, 5, IsTall(tree.height)) == None
  {
    SplitOff.HalfWorks(tree);
    HighDescent(tree.root.value, tree.height, 5, IsTall(tree.height));
  }

  // Keys 1 to 5, one a leaf: splitting at 5 leaves the leaf of 4 one level
  // higher than the tree is measured, and the search for 4 goes past it.
  method SplitStrandsLeaf(leftIsSmaller: bool) returns (tree: Raw.RawBTree<int, int>, right: Raw.RawBTree<int, int>)
    ensures tree.Contents() == [At(1), At(2), At(3), At(4)] && right.Contents() == [At(5)]
    ensures tree.root.Some? && Descend(tree.root.value, tree.height, 4 + 1, IsTall(tree.height)) == None
  {
    tree := LoadRun([At(1), At(2), At(3), At(4), At(5)]);
    FiveReady(tree);
    right := SplitAtFive(tree, leftIsSmaller);
  }

  // One entry a leaf, and at most three children a node.
  method LoadRun(pairs: seq<E>) returns (tree: Raw.RawBTree<int, int>)
    requires Ascending(pairs) && pairs != []
    ensures fresh(tree) && tree.Searchable() && tree.Contents() == pairs
    ensures tree.NoEmptyLeaf() && tree.leafCap == 1 && tree.innerCap == 2 && tree.IsBuilt() && tree.SplitByFirstKeys()
  {
    tree := Raw.RawBTree<int, int>.LoadLeaves(pairs, 1, 2);
  }

  method SplitAtFive(tree: Raw.RawBTree<int, int>, leftIsSmaller: bool) returns (right: Raw.RawBTree<int, int>)
    requires tree.Searchable() && tree.root.Some? && tree.Contents() == [At(1), At(2), At(3), At(4), At(5)]
    requires !tree.Misses(5) && RankIn(tree.Contents(), 5) == 4
    requires forall p: nat, i: nat :: p < |tree.chain| && tree.BoundAt(tree.chain[p], i, p, 5) ==> p == 4 && i == 0
    requires !FirstsComeFirst(Path(tree.root.value, 3))
    requires |tree.Seps()| == 4 && forall k :: k in tree.Seps()[..3] ==> k.rank < 5
    modifies tree
    ensures tree.Contents() == [At(1), At(2), At(3), At(4)] && right.Contents() == [At(5)]
    ensures tree.root.Some? && Descend(tree.root.value, tree.height, 5, IsTall(tree.height)) == None
  {
    ghost var all := tree.Contents();
    ghost var cut;
    assert all[..4] == [At(1), At(2), At(3), At(4)] && all[4..] == [At(5)];
    right, cut := SplitOff.SplitOff(tree, 5, leftIsSmaller);
    assert cut.Some?;
    assert cut == Some((4, 0));
    assert !tree.Searchable() && tree.Seps() == old(tree.Seps())[..3];
    FourIsLost(tree);
  }
}
