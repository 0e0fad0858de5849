// The tree under a FlatBTree: an arena of leaves chained in key order, and an
// interior that leads to them.

module RawBTree {
  import opened Wrappers
  import opened Seqs
  import opened LeafChain
  import opened SortedEntries
  import opened Interior
  import opened Descent
  import opened BulkLoad
  import opened Guides
  import opened LeafBuild

  // Every leaf of the chain has had an entry, and none has more than cap slots.
  ghost predicate LeavesFit<T, V>(arena: seq<LeafOf<T, V>>, chain: seq<nat>, cap: nat) {
    chain == [] || (chain[0] < |arena| && 0 < |arena[chain[0]].slots| <= cap && LeavesFit(arena, chain[1..], cap))
  }

  lemma {:induction false} LeavesFitHolds<T, V>(arena: seq<LeafOf<T, V>>, chain: seq<nat>, cap: nat)
    ensures LeavesFit(arena, chain, cap) <==> forall c :: c in chain ==> c < |arena| && 0 < |arena[c].slots| <= cap
  {
    if chain != [] {
      LeavesFitHolds(arena, chain[1..], cap);
      assert chain == [chain[0]] + chain[1..];
      if LeavesFit(arena, chain, cap) {
        forall c | c in chain ensures c < |arena| && 0 < |arena[c].slots| <= cap {
          assert c == chain[0] || c in chain[1..];
        }
      } else {
        assert chain[0] in chain;
        assert forall c :: c in chain[1..] ==> c in chain;
      }
    }
  }

  lemma {:induction false} EditedFits<T, V>(a: seq<LeafOf<T, V>>, chain: seq<nat>, cap: nat, c: nat, leaf: LeafOf<T, V>)
    requires LeavesFit(a, chain, cap) && c < |a| && 0 < |leaf.slots| <= cap
    ensures LeavesFit(a[c := leaf], chain, cap)
  {
    LeavesFitHolds(a, chain, cap);
    LeavesFitHolds(a[c := leaf], chain, cap);
  }

  lemma {:induction false} EditedIsValid<T, V>(a: seq<LeafOf<T, V>>, chain: seq<nat>, cap: nat, p: nat,
                                               leaf: LeafOf<T, V>)
    requires p < |chain| && Distinct(chain) && Links(a, chain, |chain|) && LeavesFit(a, chain, cap) && chain[p] < |a|
    requires leaf.len <= |leaf.slots| && 0 < |leaf.slots| <= cap
    requires leaf.next == a[chain[p]].next && leaf.prev == a[chain[p]].prev
    ensures var b := a[chain[p] := leaf];
            && Links(b, chain, |chain|) && LeavesFit(b, chain, cap)
            && |Items(b, chain)| == |Items(a, chain)| - |HeldAt(a, chain[p])| + leaf.len
  {
    LeafEdited(a, chain, p, leaf);
    EditedLength(a, chain, p, leaf);
    EditedFits(a, chain, cap, chain[p], leaf);
  }

  // The interior leads to exactly the leaves of the chain, in order.
  ghost predicate Rooted<T>(root: Option<Node<T>>, height: nat, chain: seq<nat>, cap: nat) {
    match root
    case None => chain == []
    case Some(n) => Leaves(n) == chain && Shaped(n, height, cap)
  }

  // Walks down as many levels as the tree is high; the scan of a node's keys
  // stops at the first that is not below r.
  method FindLeaf<T>(root: Node<T>, height: nat, ghost cap: nat, r: int) returns (leaf: nat)
    requires Shaped(root, height, cap)
    ensures leaf == Route(root, r)
  {
    var node := root;
    for level := 0 to height
      invariant Shaped(node, height - level, cap) && Route(node, r) == Route(root, r)
    {
      var child, rest := node.first, node.rest;
      while rest != [] && rest[0].key.rank < r
        invariant ChildFor(child, rest, r) == ChildFor(node.first, node.rest, r)
        invariant Shaped(child, height - level - 1, cap) && BranchesShaped(rest, height - level - 1, cap)
        decreases |rest|
      {
        child, rest := rest[0].child, rest[1..];
      }
      node := child;
    }
    leaf := node.index;
  }

  // The descent of tall trees, which bisects the keys of every node.
  method FindLeafTall<T>(root: Node<T>, height: nat, ghost cap: nat, r: int) returns (leaf: nat)
    requires Shaped(root, height, cap)
    ensures leaf == RouteBy(root, r, true)
  {
    var node := root;
    for level := 0 to height
      invariant Shaped(node, height - level, cap) && RouteBy(node, r, true) == RouteBy(root, r, true)
    {
      var first, rest, i := node.first, node.rest, Bisect(NodeKeys(node.rest), r);
      ghost var below := height - level - 1;
      ChosenIsShaped(first, rest, below, cap, i);
      node := ChildAt(first, rest, i);
      assert Shaped(node, below, cap);
    }
    leaf := node.index;
  }

  method FindLeafBy<T>(root: Node<T>, height: nat, ghost cap: nat, r: int) returns (leaf: nat)
    requires Shaped(root, height, cap)
    ensures height < 3 ==> leaf == Route(root, r)
    ensures height >= 3 ==> leaf == RouteBy(root, r, true)
    ensures leaf == RouteBy(root, r, IsTall(height))
  {
    if height < 3 {
      leaf := FindLeaf(root, height, cap, r);
      ShortRoute(root, r);
    } else {
      leaf := FindLeafTall(root, height, cap, r);
    }
  }

  // Scans a leaf for its first key that is not below r.
  method ScanLeaf<T, V>(leaf: LeafOf<T, V>, r: int) returns (pos: nat)
    requires leaf.len <= |leaf.slots|
    ensures pos == RankIn(Held(leaf), r) <= leaf.len
  {
    pos := 0;
    ghost var held := Held(leaf);
    while pos < leaf.len && leaf.slots[pos].key.rank < r
      invariant pos <= leaf.len
      invariant RankIn(held, r) == pos + RankIn(held[pos..], r)
    {
      pos := pos + 1;
    }
  }

  function LeafKeys<T, V>(leaf: LeafOf<T, V>): (keys: seq<Key<T>>)
    requires leaf.len <= |leaf.slots|
    ensures |keys| == leaf.len
  {
    seq(leaf.len, i requires 0 <= i < leaf.len => leaf.slots[i].key)
  }

  lemma {:induction false} RankIsBelow<T, V>(held: seq<Entry<T, V>>, keys: seq<Key<T>>, r: int)
    requires |keys| == |held| && forall i :: 0 <= i < |held| ==> keys[i] == held[i].key
    ensures RankIn(held, r) == Below(keys, r)
  {
    if held != [] {
      RankIsBelow(held[1..], keys[1..], r);
    }
  }

  // The slot where the keys below r end, scanned for or bisected for.  The keys
  // of a leaf are in strict order, so that both come to the same slot.
  method SlotFor<T, V>(leaf: LeafOf<T, V>, height: nat, r: int) returns (pos: nat)
    requires leaf.len <= |leaf.slots| && Ascending(Held(leaf))
    ensures pos == RankIn(Held(leaf), r) <= leaf.len
  {
    if height < 3 {
      pos := ScanLeaf(leaf, r);
    } else {
      pos := Bisect(LeafKeys(leaf), r);
      RankIsBelow(Held(leaf), LeafKeys(leaf), r);
      ScanOfSorted(LeafKeys(leaf), r, true);
    }
  }

  // The three ways a lower-bound search can end, and the one in which it ends
  // wrongly: the leaf it reaches holds nothing at or above r, the next leaf is
  // empty, and an entry lies further on.
  ghost predicate Overlooks<T, V>(arena: seq<LeafOf<T, V>>, chain: seq<nat>, seps: seq<Key<T>>, r: int) {
    var p := Below(seps, r);
    && p + 1 < |chain|
    && RankIn(HeldAt(arena, chain[p]), r) == |HeldAt(arena, chain[p])|
    && HeldAt(arena, chain[p + 1]) == []
    && Items(arena, chain[p + 1..]) != []
  }

  // When the leaf reached holds nothing at or above r, the entries below r end
  // with it, and whether any entry follows is up to the leaves behind it.
  lemma {:induction false} BoundIsBehind<T, V>(arena: seq<LeafOf<T, V>>, chain: seq<nat>, seps: seq<Key<T>>, r: int)
    requires Guided(arena, chain, seps)
    requires Below(seps, r) < |chain|
    requires RankIn(HeldAt(arena, chain[Below(seps, r)]), r) == |HeldAt(arena, chain[Below(seps, r)])|
    ensures RankIn(Items(arena, chain), r) == Offset(arena, chain, Below(seps, r) + 1)
    ensures RankIn(Items(arena, chain), r) == |Items(arena, chain)| <==> Items(arena, chain[Below(seps, r) + 1..]) == []
    ensures Below(seps, r) + 1 == |chain| ==> Items(arena, chain[Below(seps, r) + 1..]) == []
  {
    var p := Below(seps, r);
    DescentFindsRank(arena, chain, seps, r);
    ItemsAround(arena, chain, p);
    OffsetStep(arena, chain, p);
    assert p + 1 == |chain| ==> chain[p + 1..] == [];
  }

  lemma {:induction false} NoneIsRight<T, V>(arena: seq<LeafOf<T, V>>, chain: seq<nat>, seps: seq<Key<T>>, r: int)
    requires Guided(arena, chain, seps)
    requires Below(seps, r) < |chain|
    requires RankIn(HeldAt(arena, chain[Below(seps, r)]), r) == |HeldAt(arena, chain[Below(seps, r)])|
    requires Below(seps, r) + 1 == |chain| || HeldAt(arena, chain[Below(seps, r) + 1]) == []
    ensures RankIn(Items(arena, chain), r) == |Items(arena, chain)| <==> !Overlooks(arena, chain, seps, r)
  {
    BoundIsBehind(arena, chain, seps, r);
  }

  lemma {:induction false} FirstKeysSplit<T, V>(arena: seq<LeafOf<T, V>>, keys: seq<Key<T>>, root: Node<T>)
    requires |keys| == |arena| > 0 && Interior.Seps(root) == keys[1..]
    requires forall i :: 0 <= i < |arena| ==> 1 <= arena[i].len <= |arena[i].slots| && keys[i] == arena[i].slots[0].key
    ensures var seps, chain := Interior.Seps(root), Ids(|arena|);
            && |seps| + 1 == |chain|
            && forall p :: 0 < p < |chain| ==>
                 HeldAt(arena, chain[p]) != [] && seps[p - 1] == HeldAt(arena, chain[p])[0].key
  {
    var seps, chain := Interior.Seps(root), Ids(|arena|);
    forall p | 0 < p < |chain|
      ensures HeldAt(arena, chain[p]) != [] && seps[p - 1] == HeldAt(arena, chain[p])[0].key
    {
      assert chain[p] == p && seps[p - 1] == keys[p];
      assert HeldAt(arena, p)[0] == arena[p].slots[0];
    }
  }

  // Packs the entries into linked leaves and builds an interior of their first keys.
  method Assemble<T, V>(pairs: seq<Entry<T, V>>, leafCap: nat, innerCap: nat)
    returns (arena: seq<LeafOf<T, V>>, root: Node<T>, height: nat)
    requires leafCap >= 1 && innerCap >= 2 && pairs != []
    ensures arena != [] && Packed(arena, leafCap) && FullLeaves(arena, leafCap)
    ensures Linked(arena, Ids(|arena|), 0, |arena| - 1)
    ensures Items(arena, Ids(|arena|)) == pairs
    ensures root == Built(LeafLevel(Ids(|arena|), FirstSlots(arena)), innerCap)
    ensures height == Levels(LeafLevel(Ids(|arena|), FirstSlots(arena)), innerCap)
    ensures Leaves(root) == Ids(|arena|) && Seps(root) == FirstSlots(arena)[1..] && Shaped(root, height, innerCap)
    ensures Ascending(pairs) ==> Guided(arena, Ids(|arena|), Seps(root))
  {
    var leaves := PackLeaves(pairs, leafCap);
    arena := WireLeaves(leaves);
    assert Packed(arena, leafCap) && FullLeaves(arena, leafCap);
    var keys := MinKeys(arena);
    root, height := BuildInterior(Ids(|arena|), keys, innerCap);
    if Ascending(pairs) {
      FirstKeysGuide(arena, keys);
    }
  }

  class RawBTree<T(!new), V(!new)> {
    const leafCap: nat
    const innerCap: nat
    var arena: seq<LeafOf<T, V>>
    var root: Option<Node<T>>
    var firstLeaf: int
    var lastLeaf: int
    var len: nat
    var height: nat
    ghost var chain: seq<nat>

    ghost predicate Valid()
      reads this
    {
      && leafCap >= 1 && innerCap >= 2
      && Linked(arena, chain, firstLeaf, lastLeaf)
      && LeavesFit(arena, chain, leafCap)
      && len == |Items(arena, chain)|
      && Rooted(root, height, chain, innerCap)
    }

    ghost function Contents(): seq<Entry<T, V>>
      reads this
    {
      Items(arena, chain)
    }

    constructor (leafCap: nat, innerCap: nat)
      requires leafCap >= 1 && innerCap >= 2
      ensures Valid() && Contents() == [] && arena == [] && chain == [] && root == None && height == 0
      ensures this.leafCap == leafCap && this.innerCap == innerCap
    {
      this.leafCap, this.innerCap := leafCap, innerCap;
      arena, root, firstLeaf, lastLeaf, len, height := [], None, NO_NODE, NO_NODE, 0, 0;
      chain := [];
    }

    // A tree over a fresh arena whose leaves are linked in the order of their indices.
    constructor FromLeaves(arena: seq<LeafOf<T, V>>, root: Node<T>, height: nat, len: nat, leafCap: nat, innerCap: nat)
      requires leafCap >= 1 && innerCap >= 2 && arena != []
      requires Linked(arena, Ids(|arena|), 0, |arena| - 1)
      requires Packed(arena, leafCap) && len == |Items(arena, Ids(|arena|))|
      requires Leaves(root) == Ids(|arena|) && Shaped(root, height, innerCap)
      ensures Valid() && this.arena == arena && this.root == Some(root) && this.height == height &&
          chain == Ids(|arena|)
      ensures this.leafCap == leafCap && this.innerCap == innerCap
      ensures NoEmptyLeaf()
    {
      this.leafCap, this.innerCap := leafCap, innerCap;
      this.arena, this.root, this.height, this.len := arena, Some(root), height, len;
      firstLeaf, lastLeaf := 0, |arena| - 1;
      chain := Ids(|arena|);
      LeavesFitHolds(arena, Ids(|arena|), leafCap);
    }

    // A tree with all that another one has.
    constructor Taking(other: RawBTree<T, V>)
      requires other.Searchable()
      ensures Searchable() && Contents() == other.Contents()
      ensures leafCap == other.leafCap && innerCap == other.innerCap
    {
      leafCap, innerCap, len, height := other.leafCap, other.innerCap, other.len, other.height;
      arena, root, chain := other.arena, other.root, other.chain;
      firstLeaf, lastLeaf := other.firstLeaf, other.lastLeaf;
    }

    // A tree over the given entries: full leaves, none empty, and an interior of their first keys.
    static method BulkLoad(pairs: seq<Entry<T, V>>, leafCap: nat, innerCap: nat) returns (tree: RawBTree<T, V>)
      requires leafCap >= 1 && innerCap >= 2
      ensures fresh(tree) && tree.Valid() && tree.Contents() == pairs
      ensures tree.leafCap == leafCap && tree.innerCap == innerCap
      ensures Ascending(pairs) ==> tree.Searchable()
      ensures tree.NoEmptyLeaf() && (tree.root.Some? ==> tree.SplitByFirstKeys())
      ensures forall i :: 0 <= i < |tree.arena| - 1 ==> tree.arena[i].len == leafCap
      ensures |tree.chain| == 1 ==> tree.height == 0
    {
      if pairs == [] {
        tree := new RawBTree(leafCap, innerCap);
      } else {
        tree := LoadLeaves(pairs, leafCap, innerCap);
        tree.OneLeafIsRoot();
      }
    }

    static method LoadLeaves(pairs: seq<Entry<T, V>>, leafCap: nat, innerCap: nat) returns (tree: RawBTree<T, V>)
      requires leafCap >= 1 && innerCap >= 2 && pairs != []
      ensures fresh(tree) && tree.Valid() && tree.Contents() == pairs
      ensures tree.leafCap == leafCap && tree.innerCap == innerCap
      ensures Ascending(pairs) ==> tree.Searchable()
      ensures tree.NoEmptyLeaf() && tree.IsBuilt() && tree.SplitByFirstKeys()
      ensures FullLeaves(tree.arena, leafCap)
    {
      var arena, root, height := Assemble(pairs, leafCap, innerCap);
      FirstKeysSplit(arena, FirstSlots(arena), root);
      tree := new RawBTree.FromLeaves(arena, root, height, |pairs|, leafCap, innerCap);
    }

    lemma {:induction false} OneLeafIsRoot()
      requires innerCap >= 1 && IsBuilt()
      ensures |chain| == 1 ==> height == 0
    {
      if |chain| == 1 {
        LeafLevelIsFlat(chain, FirstSlots(arena), innerCap);
      }
    }

    // The interior is the one that grouping the leaves from left to right gives.
    ghost predicate IsBuilt()
      reads this
      requires innerCap >= 1
    {
      && arena != [] && chain == Ids(|arena|)
      && (forall i :: 0 <= i < |arena| ==> arena[i].slots != [])
      && root == Some(Built(LeafLevel(chain, FirstSlots(arena)), innerCap))
      && height == Levels(LeafLevel(chain, FirstSlots(arena)), innerCap)
    }

    // Each separator is the first key of the leaf behind it.
    ghost predicate SplitByFirstKeys()
      reads this
    {
      && |Seps()| + 1 == |chain|
      && forall p :: 0 < p < |chain| ==>
           HeldAt(arena, chain[p]) != [] && Seps()[p - 1] == HeldAt(arena, chain[p])[0].key
    }

    ghost predicate NoEmptyLeaf()
      reads this
    {
      forall c :: c in chain ==> HeldAt(arena, c) != []
    }

    // Forgets every node.  The arena's memory is kept by the program; here the
    // nodes are simply gone.
    method Clear()
      requires leafCap >= 1 && innerCap >= 2
      modifies this
      ensures Valid() && Contents() == [] && arena == [] && chain == [] && root == None && height == 0
    {
      arena, root, firstLeaf, lastLeaf, len, height := [], None, NO_NODE, NO_NODE, 0, 0;
      chain := [];
    }

    // The position of the first leaf that holds anything, found by walking the chain.
    method FirstNonemptyLeaf() returns (leaf: Option<nat>)
      requires Valid()
      ensures match leaf
              case None => Contents() == []
              case Some(c) => c < |arena| && 0 < arena[c].len <= |arena[c].slots| && |Contents()| > 0
                              && Contents()[0] == arena[c].slots[0]
    {
      var idx := firstLeaf;
      ghost var p := 0;
      assert chain[..0] == [];
      while idx != NO_NODE
        invariant 0 <= p <= |chain| && idx == NodeAt(chain, p)
        invariant Items(arena, chain[..p]) == []
        decreases |chain| - p
      {
        LinksAt(arena, chain, p);
        ItemsAround(arena, chain, p);
        if arena[idx].len > 0 {
          ItemAt(arena, chain, p, 0);
          return Some(idx);
        }
        idx := arena[idx].next;
        p := p + 1;
      }
      assert chain[..p] == chain;
      leaf := None;
    }

    lemma {:induction false} LastEntry(p: nat)
      requires Valid() && p < |chain| && Items(arena, chain[p + 1..]) == [] && HeldAt(arena, chain[p]) != []
      ensures var held := HeldAt(arena, chain[p]);
              |Contents()| > 0 && Contents()[|Contents()| - 1] == held[|held| - 1]
    {
      ItemsAround(arena, chain, p);
    }

    method LastNonemptyLeaf() returns (leaf: Option<nat>)
      requires Valid()
      ensures match leaf
              case None => Contents() == []
              case Some(c) => c < |arena| && 0 < arena[c].len <= |arena[c].slots| && |Contents()| > 0
                              && Contents()[|Contents()| - 1] == arena[c].slots[arena[c].len - 1]
    {
      var idx := lastLeaf;
      ghost var p := |chain|;
      assert chain[|chain|..] == [];
      while idx != NO_NODE
        invariant 0 <= p <= |chain| && idx == NodeAt(chain, p - 1)
        invariant Items(arena, chain[p..]) == []
        decreases p
      {
        p := p - 1;
        LinksAt(arena, chain, p);
        ItemsAround(arena, chain, p);
        if arena[idx].len > 0 {
          LastEntry(p);
          return Some(idx);
        }
        idx := arena[idx].prev;
      }
      assert chain[p..] == chain;
      leaf := None;
    }

    ghost function Seps(): seq<Key<T>>
      reads this
    {
      if root.Some? then Interior.Seps(root.value) else []
    }

    // Keys are in order and every separator stands between its neighbours.
    ghost predicate Searchable()
      reads this
    {
      && Valid()
      && Ascending(Contents())
      && (root.Some? ==> Guided(arena, chain, Seps()))
    }

    // What the search for rank r comes upon: the descent ends in one leaf, and
    // only that leaf is looked at.
    ghost function Found(r: int): Option<Entry<T, V>>
      reads this
    {
      if root.Some? then Lookup(HeldAt(arena, RouteBy(root.value, r + 1, IsTall(height))), r) else None
    }

    // Trees of height 2 and less are scanned on the way down, higher ones bisected.
    lemma {:induction false} FoundByHeight(r: int)
      requires root.Some?
      ensures height < 3 ==> Found(r) == Lookup(HeldAt(arena, Route(root.value, r + 1)), r)
      ensures height >= 3 ==> Found(r) == Lookup(HeldAt(arena, RouteBy(root.value, r + 1, true)), r)
    {
      ShortRoute(root.value, r + 1);
    }

    // The search for rank r answers as the contents do.
    ghost predicate Finds(r: int)
      reads this
    {
      Found(r) == Lookup(Contents(), r)
    }

    // In a searchable tree every search answers right.
    lemma {:induction false} SearchableFinds(r: int)
      requires Searchable()
      ensures Finds(r)
    {
      if root.Some? {
        RoutesAgree(root.value, r + 1, IsTall(height));
        DescentCountsSeparators(root.value, r + 1);
        SearchReachesLeaf(arena, chain, Seps(), r, Below(Seps(), r + 1));
      }
    }

    method Search(r: int) returns (at: Option<(nat, nat)>)
      requires Valid() && Ascending(Contents())
      ensures match at
              case Some((c, i)) => c < |arena| && i < arena[c].len <= |arena[c].slots|
                                   && Found(r) == Some(arena[c].slots[i])
              case None => Found(r) == None
    {
      if root == None {
        return None;
      }
      var c := FindLeafBy(root.value, height, innerCap, r + 1);
      ReachedLeaf(r + 1);
      var i := SlotFor(arena[c], height, r);
      LookupAtRank(Held(arena[c]), r);
      if i < arena[c].len && arena[c].slots[i].key.rank == r {
        at := Some((c, i));
      } else {
        at := None;
      }
    }

    // Wherever a descent ends, there is a leaf of the chain, in order.
    lemma {:induction false} ReachedLeaf(r: int)
      requires Valid() && Ascending(Contents()) && root.Some?
      ensures var c := RouteBy(root.value, r, IsTall(height));
              c < |arena| && arena[c].len <= |arena[c].slots| && Ascending(HeldAt(arena, c))
    {
      RouteByIsLeaf(root.value, r, IsTall(height));
      var p :| 0 <= p < |chain| && chain[p] == RouteBy(root.value, r, IsTall(height));
      LinksAt(arena, chain, p);
      PartAscends(p);
    }

    lemma {:induction false} PartAscends(p: nat)
      requires Ascending(Contents()) && p < |chain|
      ensures Ascending(HeldAt(arena, chain[p]))
    {
      ItemsAround(arena, chain, p);
      var before, held, after := Items(arena, chain[..p]), HeldAt(arena, chain[p]), Items(arena, chain[p + 1..]);
      AscendingConcat(before, held + after);
      AscendingConcat(held, after);
    }

    // Slot i of leaf c, which stands at position p, is where the entries below rank r end.
    ghost predicate BoundAt(c: nat, i: nat, p: nat, r: int)
      reads this
    {
      && p < |chain| && c == chain[p]
      && i < |HeldAt(arena, c)|
      && Offset(arena, chain, p) + i == RankIn(Contents(), r)
    }

    // The lower-bound search for r comes back empty-handed although an entry at
    // or above r is there.
    ghost predicate Misses(r: int)
      reads this
    {
      root.Some? && Overlooks(arena, chain, Seps(), r)
    }

    // Where the entries below rank r end, as a leaf and a slot.  Only one leaf
    // behind the one reached is looked at, so the answer None is wrong exactly
    // when that leaf is empty and entries lie further on.
    method LowerBound(r: int) returns (at: Option<(nat, nat)>, ghost p: nat)
      requires Searchable()
      ensures at.Some? ==> BoundAt(at.value.0, at.value.1, p, r) && !Misses(r)
      ensures at.None? ==> (RankIn(Contents(), r) == |Contents()| <==> !Misses(r))
    {
      if root == None {
        return None, 0;
      }
      var c := FindLeafBy(root.value, height, innerCap, r);
      RoutesAgree(root.value, r, IsTall(height));
      DescentCountsSeparators(root.value, r);
      p := Below(Seps(), r);
      LinksAt(arena, chain, p);
      DescentFindsRank(arena, chain, Seps(), r);
      PartAscends(p);
      var i := SlotFor(arena[c], height, r);
      if i < arena[c].len {
        assert |HeldAt(arena, c)| == arena[c].len;
        at := Some((c, i));
      } else {
        at, p := LookBehind(c, r);
      }
    }

    // The leaf reached holds nothing at or above r: look at the one behind it.
    method LookBehind(c: nat, r: int) returns (at: Option<(nat, nat)>, ghost p: nat)
      requires Searchable() && root.Some?
      requires Below(Seps(), r) < |chain| && c == chain[Below(Seps(), r)]
      requires RankIn(HeldAt(arena, c), r) == |HeldAt(arena, c)|
      ensures at.Some? ==> BoundAt(at.value.0, at.value.1, p, r) && !Misses(r)
      ensures at.None? ==> (RankIn(Contents(), r) == |Contents()| <==> !Misses(r))
    {
      p := Below(Seps(), r);
      LinksAt(arena, chain, p);
      BoundIsBehind(arena, chain, Seps(), r);
      var next := arena[c].next;
      if next != NO_NODE {
        LinksAt(arena, chain, p + 1);
        if arena[next].len > 0 {
          return Some((next, 0)), p + 1;
        }
      }
      NoneIsRight(arena, chain, Seps(), r);
      at := None;
    }
  }
}
