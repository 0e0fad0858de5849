// Packing an ordered run of entries into a fresh chain of full leaves.

module LeafBuild {
  import opened Wrappers
  import opened Seqs
  import opened LeafChain
  import opened SortedEntries
  import opened Interior
  import opened Guides

  // The chain of a fresh arena: its leaves in the order they were allocated.
  function Ids(n: nat): (ids: seq<nat>)
    ensures |ids| == n && forall i :: 0 <= i < n ==> ids[i] == i
  {
    if n == 0 then [] else Ids(n - 1) + [n - 1]
  }

  lemma {:induction false} IdsDistinct(n: nat)
    ensures Distinct(Ids(n))
  {
    DistinctHolds(Ids(n));
  }

  ghost predicate Packed<T, V>(leaves: seq<LeafOf<T, V>>, cap: nat) {
    forall i :: 0 <= i < |leaves| ==> 1 <= leaves[i].len == |leaves[i].slots| <= cap
  }

  // Every leaf but the last is full.
  ghost predicate FullLeaves<T, V>(leaves: seq<LeafOf<T, V>>, cap: nat) {
    forall i :: 0 <= i < |leaves| - 1 ==> leaves[i].len == cap
  }

  lemma {:induction false} AddLeaf<T, V>(leaves: seq<LeafOf<T, V>>, leaf: LeafOf<T, V>)
    requires leaf.len == |leaf.slots|
    ensures Items(leaves + [leaf], Ids(|leaves| + 1)) == Items(leaves, Ids(|leaves|)) + leaf.slots
  {
    var n, more := |leaves|, leaves + [leaf];
    ItemsOfConcat(more, Ids(n), [n]);
    ItemsOfOne(more, n);
    SameItems(more, leaves, Ids(n));
  }

  // Fills one leaf after the other; the links are set afterwards.
  method PackLeaves<T, V>(pairs: seq<Entry<T, V>>, cap: nat) returns (leaves: seq<LeafOf<T, V>>)
    requires cap >= 1
    ensures Packed(leaves, cap) && FullLeaves(leaves, cap)
    ensures Items(leaves, Ids(|leaves|)) == pairs
    ensures pairs != [] ==> leaves != []
  {
    leaves := [];
    var rest := pairs;
    while rest != []
      invariant Packed(leaves, cap)
      invariant forall i :: 0 <= i < |leaves| && (rest != [] || i < |leaves| - 1) ==> leaves[i].len == cap
      invariant Items(leaves, Ids(|leaves|)) + rest == pairs
      invariant leaves == [] ==> rest == pairs
      decreases |rest|
    {
      var count := if |rest| < cap then |rest| else cap;
      var leaf := Leaf(count, rest[..count], NO_NODE, NO_NODE);
      AddLeaf(leaves, leaf);
      Assoc(Items(leaves, Ids(|leaves|)), rest[..count], rest[count..]);
      assert rest == rest[..count] + rest[count..];
      leaves := leaves + [leaf];
      rest := rest[count..];
    }
  }

  // Sets the links of every leaf to its neighbours.
  method WireLeaves<T, V>(leaves: seq<LeafOf<T, V>>) returns (arena: seq<LeafOf<T, V>>)
    requires forall i :: 0 <= i < |leaves| ==> leaves[i].len <= |leaves[i].slots|
    ensures |arena| == |leaves|
    ensures forall i :: 0 <= i < |leaves| ==> arena[i].slots == leaves[i].slots && arena[i].len == leaves[i].len
    ensures Linked(arena, Ids(|arena|), NodeAt(Ids(|arena|), 0), NodeAt(Ids(|arena|), |arena| - 1))
    ensures Items(arena, Ids(|arena|)) == Items(leaves, Ids(|leaves|))
  {
    arena := leaves;
    ghost var ids := Ids(|leaves|);
    for i := 0 to |leaves|
      invariant |arena| == |leaves| && ids == Ids(|leaves|)
      invariant forall j :: 0 <= j < |leaves| ==> arena[j].slots == leaves[j].slots && arena[j].len == leaves[j].len
      invariant forall j :: 0 <= j < i ==> LinkedAt(arena, ids, j)
    {
      var prev := if i > 0 then i - 1 else NO_NODE;
      var next := if i + 1 < |leaves| then i + 1 else NO_NODE;
      ghost var was := arena;
      arena := arena[i := arena[i].(prev := prev, next := next)];
      forall j | 0 <= j <= i ensures LinkedAt(arena, ids, j) {
        assert j < i ==> LinkedAt(was, ids, j);
      }
    }
    IdsDistinct(|arena|);
    LinksHold(arena, Ids(|arena|), |arena|);
    SameItems(arena, leaves, Ids(|arena|));
  }

  // The key in slot 0 of every leaf.
  function FirstSlots<T, V>(arena: seq<LeafOf<T, V>>): (keys: seq<Key<T>>)
    requires forall i :: 0 <= i < |arena| ==> arena[i].slots != []
    ensures |keys| == |arena|
  {
    seq(|arena|, i requires 0 <= i < |arena| => arena[i].slots[0].key)
  }

  method MinKeys<T, V>(arena: seq<LeafOf<T, V>>) returns (keys: seq<Key<T>>)
    requires forall i :: 0 <= i < |arena| ==> 1 <= arena[i].len <= |arena[i].slots|
    ensures keys == FirstSlots(arena)
  {
    keys := [];
    for i := 0 to |arena|
      invariant |keys| == i
      invariant forall j :: 0 <= j < i ==> keys[j] == arena[j].slots[0].key
    {
      keys := keys + [arena[i].slots[0].key];
    }
  }

  // The first key of each leaf after the first separates it from the one before.
  lemma {:induction false} FirstKeysGuide<T, V>(arena: seq<LeafOf<T, V>>, keys: seq<Key<T>>)
    requires |keys| == |arena| > 0
    requires forall i :: 0 <= i < |arena| ==> 1 <= arena[i].len <= |arena[i].slots|
    requires forall i :: 0 <= i < |arena| ==> keys[i] == arena[i].slots[0].key
    requires Ascending(Items(arena, Ids(|arena|)))
    ensures Guided(arena, Ids(|arena|), keys[1..])
  {
    var chain, seps := Ids(|arena|), keys[1..];
    forall i, j | 0 <= i < j < |arena| ensures keys[i].rank < keys[j].rank {
      LeavesAscend(arena, i, 0, j, 0);
    }
    OrderedIsNonDecreasing(seps);
    forall p | 0 <= p < |chain| ensures GuidedAt(arena, chain, seps, p) {
      var held := HeldAt(arena, chain[p]);
      forall e | e in held
        ensures p > 0 ==> seps[p - 1].rank <= e.key.rank
        ensures p < |seps| ==> e.key.rank < seps[p].rank
      {
        var i :| 0 <= i < |held| && held[i] == e;
        if p > 0 && i > 0 {
          LeavesAscend(arena, p, 0, p, i);
        }
        if p < |seps| {
          LeavesAscend(arena, p, i, p + 1, 0);
        }
      }
    }
    LeavesGuidedHolds(arena, chain, seps, |chain|);
  }

  // Of two slots, the one in the later leaf, or further on in the same leaf, has the greater key.
  lemma {:induction false} LeavesAscend<T, V>(arena: seq<LeafOf<T, V>>, p: nat, i: nat, q: nat, j: nat)
    requires Ascending(Items(arena, Ids(|arena|)))
    requires p < |arena| && i < arena[p].len <= |arena[p].slots|
    requires q < |arena| && j < arena[q].len <= |arena[q].slots|
    requires p < q || (p == q && i < j)
    ensures arena[p].slots[i].key.rank < arena[q].slots[j].key.rank
  {
    var chain := Ids(|arena|);
    ItemAt(arena, chain, p, i);
    ItemAt(arena, chain, q, j);
    OffsetStep(arena, chain, p);
    OffsetsGrow(arena, chain, if p < q then p + 1 else p, q);
  }

  lemma {:induction false} OffsetsGrow<T, V>(arena: seq<LeafOf<T, V>>, chain: seq<nat>, p: nat, q: nat)
    requires p <= q <= |chain|
    ensures Offset(arena, chain, p) <= Offset(arena, chain, q)
    decreases q
  {
    if p < q {
      OffsetStep(arena, chain, q - 1);
      OffsetsGrow(arena, chain, p, q - 1);
    }
  }
}
