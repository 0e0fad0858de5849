// Inserting into a FlatBTree: find the leaf, put the entry in or replace the
// value, split the leaf and its ancestors when they are full.

module TreeInsert {
  import opened Wrappers
  import opened Seqs
  import opened LeafChain
  import opened SortedEntries
  import opened Interior
  import opened Guides
  import opened LeafSplit
  import opened RawBTree

  // Slot pos of the leaf at position p is where rank r belongs: everything in
  // front is below it and everything from there on above, and the separators
  // around the leaf lead to it.
  ghost predicate Gap<T, V>(arena: seq<LeafOf<T, V>>, chain: seq<nat>, seps: seq<Key<T>>, p: nat, pos: nat, r: int) {
    && p < |chain| && pos <= |HeldAt(arena, chain[p])|
    && (forall e :: e in Items(arena, chain[..p]) ==> e.key.rank < r)
    && (forall e :: e in HeldAt(arena, chain[p])[..pos] ==> e.key.rank < r)
    && (forall e :: e in HeldAt(arena, chain[p])[pos..] ==> r < e.key.rank)
    && (forall e :: e in Items(arena, chain[p + 1..]) ==> r < e.key.rank)
    && (LowerGuide(seps, p).Some? ==> LowerGuide(seps, p).value <= r)
    && (UpperGuide(seps, p).Some? ==> r < UpperGuide(seps, p).value)
  }

  lemma {:induction false} InsertIsSplice<T, V>(held: seq<Entry<T, V>>, pos: nat, e: Entry<T, V>)
    requires pos <= |held|
    requires forall x :: x in held[..pos] ==> x.key.rank < e.key.rank
    requires forall x :: x in held[pos..] ==> e.key.rank < x.key.rank
    ensures SortedEntries.Insert(held, e) == Spliced(held, pos, [e])
  {
    assert held == held[..pos] + held[pos..];
    InsertSplits(held[..pos], held[pos..], e);
    SplicedIsInsertion(held, pos, [e]);
    assert held[pos..] != [] ==> held[pos..][0] in held[pos..];
  }

  // An insert whose rank is above `before` and below `after` happens in the middle.
  lemma {:induction false} InsertInside<T, V>(before: seq<Entry<T, V>>, held: seq<Entry<T, V>>,
                                              after: seq<Entry<T, V>>, e: Entry<T, V>)
    requires forall x :: x in before ==> x.key.rank < e.key.rank
    requires forall x :: x in after ==> e.key.rank < x.key.rank
    ensures SortedEntries.Insert(before + (held + after), e) == before + (SortedEntries.Insert(held, e) + after)
  {
    InsertSplits(before, held + after, e);
    InsertBefore(held, after, e);
  }

  lemma {:induction false} InsertBefore<T, V>(held: seq<Entry<T, V>>, after: seq<Entry<T, V>>, e: Entry<T, V>)
    requires forall x :: x in after ==> e.key.rank < x.key.rank
    ensures SortedEntries.Insert(held + after, e) == SortedEntries.Insert(held, e) + after
  {
    if held == [] {
      NothingBefore(held, after);
      assert after != [] ==> after[0] in after;
      assert [e] + held == [e];
    } else {
      TailOfConcat(held, after);
      if held[0].key.rank < e.key.rank {
        InsertBefore(held[1..], after, e);
        Assoc([held[0]], SortedEntries.Insert(held[1..], e), after);
      } else if held[0].key.rank == e.key.rank {
        Assoc([Slot(held[0].key, e.val)], held[1..], after);
      } else {
        Assoc([e], held, after);
      }
    }
  }

  // The whole contents after an insert, told by the leaf it happens in.
  lemma {:induction false} InsertInLeaf<T, V>(arena: seq<LeafOf<T, V>>, chain: seq<nat>, p: nat, e: Entry<T, V>)
    requires p < |chain|
    requires forall x :: x in Items(arena, chain[..p]) ==> x.key.rank < e.key.rank
    requires forall x :: x in Items(arena, chain[p + 1..]) ==> e.key.rank < x.key.rank
    ensures SortedEntries.Insert(Items(arena, chain), e)
         == Items(arena, chain[..p]) + (SortedEntries.Insert(HeldAt(arena, chain[p]), e) + Items(arena, chain[p + 1..]))
  {
    ItemsAround(arena, chain, p);
    InsertInside(Items(arena, chain[..p]), HeldAt(arena, chain[p]), Items(arena, chain[p + 1..]), e);
  }

  // --- A leaf with room ------------------------------------------------------

  lemma {:induction false} StoredLeaf<T, V>(a: seq<LeafOf<T, V>>, chain: seq<nat>, p: nat, leaf: LeafOf<T, V>,
                                            e: Entry<T, V>)
    requires p < |chain| && Distinct(chain) && Links(a, chain, |chain|) && chain[p] < |a|
    requires leaf.len <= |leaf.slots| && leaf.next == a[chain[p]].next && leaf.prev == a[chain[p]].prev
    requires Held(leaf) == SortedEntries.Insert(HeldAt(a, chain[p]), e)
    requires forall x :: x in Items(a, chain[..p]) ==> x.key.rank < e.key.rank
    requires forall x :: x in Items(a, chain[p + 1..]) ==> e.key.rank < x.key.rank
    ensures Links(a[chain[p] := leaf], chain, |chain|)
    ensures Items(a[chain[p] := leaf], chain) == SortedEntries.Insert(Items(a, chain), e)
    ensures |Items(a[chain[p] := leaf], chain)| == |Items(a, chain)| - |HeldAt(a, chain[p])| + |Held(leaf)|
  {
    var b := a[chain[p] := leaf];
    InsertInLeaf(a, chain, p, e);
    LeafEdited(a, chain, p, leaf);
    ItemsAround(a, chain, p);
    ItemsAround(b, chain, p);
  }

  // Storing a leaf whose entries are those of an insert is an insert into the map.
  method StoreLeaf<T(!new), V(!new)>(tree: RawBTree<T, V>, c: nat, ghost p: nat, leaf: LeafOf<T, V>,
                     ghost e: Entry<T, V>)
    requires tree.Searchable() && p < |tree.chain| && c == tree.chain[p] < |tree.arena|
    requires leaf.len <= |leaf.slots| <= tree.leafCap && leaf.slots != []
    requires leaf.next == tree.arena[c].next && leaf.prev == tree.arena[c].prev
    requires Held(leaf) == SortedEntries.Insert(HeldAt(tree.arena, c), e)
    requires forall x :: x in Items(tree.arena, tree.chain[..p]) ==> x.key.rank < e.key.rank
    requires forall x :: x in Items(tree.arena, tree.chain[p + 1..]) ==> e.key.rank < x.key.rank
    requires Within(Held(leaf), LowerGuide(tree.Seps(), p), UpperGuide(tree.Seps(), p))
    modifies tree`arena, tree`len
    ensures tree.Searchable() && tree.Contents() == SortedEntries.Insert(old(tree.Contents()), e)
  {
    ghost var chain, seps := tree.chain, tree.Seps();
    LinksAt(tree.arena, chain, p);
    StoredLeaf(tree.arena, chain, p, leaf, e);
    EditedFits(tree.arena, chain, tree.leafCap, c, leaf);
    EditedStaysGuided(tree.arena, chain, seps, p, leaf);
    InsertKeepsOrder(tree.Contents(), e);
    tree.arena, tree.len := tree.arena[c := leaf], tree.len + leaf.len - tree.arena[c].len;
  }

  // --- A full leaf -----------------------------------------------------------

  lemma {:induction false} SplitContents<T, V>(a: seq<LeafOf<T, V>>, chain: seq<nat>, p: nat, left: LeafOf<T, V>,
                                              right: LeafOf<T, V>, e: Entry<T, V>)
    requires p < |chain| && Distinct(chain) && Links(a, chain, |chain|) && chain[p] < |a| && |a| !in chain
    requires left.len <= |left.slots| && right.len <= |right.slots|
    requires Held(left) + Held(right) == SortedEntries.Insert(HeldAt(a, chain[p]), e)
    requires forall x :: x in Items(a, chain[..p]) ==> x.key.rank < e.key.rank
    requires forall x :: x in Items(a, chain[p + 1..]) ==> e.key.rank < x.key.rank
    ensures Items(SplitArena(a, chain[p], left, right), ChainAfter(chain, p, |a|)) ==
        SortedEntries.Insert(Items(a, chain), e)
  {
    var n: nat := |a|;
    var c, before, after := chain[p], chain[..p], chain[p + 1..];
    var b := SplitArena(a, c, left, right);
    SplitStaysLinked(a, chain, p, left, right);
    SplitKeepsEntries(a, c, left, right);
    InsertInLeaf(a, chain, p, e);
    DistinctHolds(chain);
    SameItems(a, b, before);
    SameItems(a, b, after);
    Assoc(Held(left), Held(right), Items(a, after));
    ItemsOfSplit(b, chain, p, n);
  }

  lemma {:induction false} ItemsOfSplit<T, V>(b: seq<LeafOf<T, V>>, chain: seq<nat>, p: nat, n: nat)
    requires p < |chain|
    ensures Items(b, ChainAfter(chain, p, n))
         == Items(b, chain[..p]) + (HeldAt(b, chain[p]) + (HeldAt(b, n) + Items(b, chain[p + 1..])))
  {
    var c, before, after := chain[p], chain[..p], chain[p + 1..];
    SplicedIsInsertion(chain, p + 1, [n]);
    assert ChainAfter(chain, p, n) == before + ([c] + ([n] + after));
    ItemsOfConcat(b, before, [c] + ([n] + after));
    ItemsOfConcat(b, [c], [n] + after);
    ItemsOfConcat(b, [n], after);
    ItemsOfOne(b, c);
    ItemsOfOne(b, n);
  }

  lemma {:induction false} SepsSpliced<T>(seps: seq<Key<T>>, p: nat, key: Key<T>)
    requires p <= |seps|
    ensures var more := Spliced(seps, p, [key]);
            && |more| == |seps| + 1 && more[p] == key
            && (forall q :: 0 <= q < p ==> more[q] == seps[q])
            && (forall q :: p < q < |more| ==> more[q] == seps[q - 1])
  {
    SplicedIsInsertion(seps, p, [key]);
  }

  lemma {:induction false} SplicedStaysOrdered<T>(seps: seq<Key<T>>, p: nat, key: Key<T>)
    requires NonDecreasing(seps) && p <= |seps|
    requires LowerGuide(seps, p).Some? ==> LowerGuide(seps, p).value <= key.rank
    requires UpperGuide(seps, p).Some? ==> key.rank <= UpperGuide(seps, p).value
    ensures NonDecreasing(Spliced(seps, p, [key]))
  {
    SepsSpliced(seps, p, key);
    NonDecreasingOrdered(seps);
    OrderedIsNonDecreasing(Spliced(seps, p, [key]));
  }

  lemma {:induction false} SplitStaysGuided<T, V>(a: seq<LeafOf<T, V>>, b: seq<LeafOf<T, V>>, chain: seq<nat>,
                                                  seps: seq<Key<T>>,
                                                 p: nat, n: nat, key: Key<T>)
    requires Guided(a, chain, seps) && Distinct(chain) && p < |chain| && n !in chain
    requires forall c :: c in chain && c != chain[p] ==> HeldAt(b, c) == HeldAt(a, c)
    requires Within(HeldAt(b, chain[p]), LowerGuide(seps, p), Some(key.rank))
    requires Within(HeldAt(b, n), Some(key.rank), UpperGuide(seps, p))
    requires LowerGuide(seps, p).Some? ==> LowerGuide(seps, p).value <= key.rank
    requires UpperGuide(seps, p).Some? ==> key.rank <= UpperGuide(seps, p).value
    ensures Guided(b, ChainAfter(chain, p, n), Spliced(seps, p, [key]))
  {
    var more, keys := ChainAfter(chain, p, n), Spliced(seps, p, [key]);
    SplicedOne(chain, p, n);
    SepsSpliced(seps, p, key);
    SplicedStaysOrdered(seps, p, key);
    LeavesGuidedHolds(a, chain, seps, |chain|);
    DistinctHolds(chain);
    forall q | 0 <= q < |more| ensures GuidedAt(b, more, keys, q) {
      if q < p {
        assert GuidedAt(a, chain, seps, q);
      } else if q > p + 1 {
        assert GuidedAt(a, chain, seps, q - 1);
      }
    }
    LeavesGuidedHolds(b, more, keys, |more|);
  }

  // The interior after a leaf split, with a new root when the split reached the top.
  function Regrown<T>(g: Grown<T>): Node<T> {
    match g
    case Whole(n) => n
    case Halves(l, k, r) => Inner(l, [Branch(k, r)])
  }

  lemma {:induction false} RegrownIsFlat<T>(g: Grown<T>, h: nat, cap: nat)
    requires GrownShaped(g, h, cap) && cap >= 1
    ensures Leaves(Regrown(g)) == GrownLeaves(g) && Seps(Regrown(g)) == GrownSeps(g)
    ensures Shaped(Regrown(g), if g.Whole? then h else h + 1, cap)
  {
    match g
    case Whole(_) =>
    case Halves(l, k, r) =>
      BranchHead(k, r, []);
      BranchInFront(k, r, [], h, cap);
      assert [Branch(k, r)] + [] == [Branch(k, r)];
      Assoc(Seps(l), [k], Seps(r));
      assert Leaves(r) + [] == Leaves(r) && Seps(r) + [] == Seps(r);
  }

  lemma {:induction false} InsertWithin<T, V>(s: seq<Entry<T, V>>, e: Entry<T, V>, lo: Option<int>, hi: Option<int>)
    requires Within(s, lo, hi) && Within([e], lo, hi)
    ensures Within(SortedEntries.Insert(s, e), lo, hi)
  {
    if s != [] {
      assert s[0] in s;
      assert e in [e];
      if s[0].key.rank < e.key.rank {
        InsertWithin(s[1..], e, lo, hi);
      }
    }
  }

  // The first key of the right half separates the halves and lies between the old separators.
  lemma {:induction false} HalvesAreSeparated<T, V>(l: seq<Entry<T, V>>, r: seq<Entry<T, V>>, lo: Option<int>,
                                                    hi: Option<int>)
    requires r != [] && Ascending(l + r) && Within(l + r, lo, hi)
    ensures Within(l, lo, Some(r[0].key.rank)) && Within(r, Some(r[0].key.rank), hi)
    ensures lo.Some? ==> lo.value <= r[0].key.rank
    ensures hi.Some? ==> r[0].key.rank <= hi.value
  {
    AscendingConcat(l, r);
    assert r[0] in l + r;
    forall e | e in l ensures e in l + r && e.key.rank < r[0].key.rank {
      var i :| 0 <= i < |l| && l[i] == e;
    }
    forall e | e in r ensures e in l + r && r[0].key.rank <= e.key.rank {
      var i :| 0 <= i < |r| && r[i] == e;
    }
  }

  // Everything that splitting leaf c for a new entry does to the leaves and separators.
  lemma {:induction false} SplitState<T, V>(a: seq<LeafOf<T, V>>, chain: seq<nat>, seps: seq<Key<T>>, p: nat, pos: nat,
                                           left: LeafOf<T, V>, right: LeafOf<T, V>, e: Entry<T, V>)
    requires Distinct(chain) && Links(a, chain, |chain|) && Guided(a, chain, seps)
    requires Ascending(Items(a, chain)) && Gap(a, chain, seps, p, pos, e.key.rank)
    requires chain[p] < |a| && |a| !in chain
    requires left.len <= |left.slots| && 1 <= right.len <= |right.slots|
    requires Held(left) + Held(right) == Spliced(HeldAt(a, chain[p]), pos, [e])
    ensures var b, more := SplitArena(a, chain[p], left, right), ChainAfter(chain, p, |a|);
            && Distinct(more) && Links(b, more, |more|)
            && Items(b, more) == SortedEntries.Insert(Items(a, chain), e)
            && Guided(b, more, Spliced(seps, p, [right.slots[0].key]))
  {
    var b, more := SplitArena(a, chain[p], left, right), ChainAfter(chain, p, |a|);
    var lo, hi, held := LowerGuide(seps, p), UpperGuide(seps, p), HeldAt(a, chain[p]);
    InsertIsSplice(held, pos, e);
    SplitContents(a, chain, p, left, right, e);
    SplitStaysDistinct(chain, p, |a|);
    SplicedOne(chain, p, |a|);
    SplitStaysLinked(a, chain, p, left, right);
    SplitKeepsEntries(a, chain[p], left, right);
    LeafAscends(a, chain, p);
    InsertKeepsOrder(held, e);
    LeavesGuidedHolds(a, chain, seps, |chain|);
    assert GuidedAt(a, chain, seps, p);
    InsertWithin(held, e, lo, hi);
    HalvesAreSeparated(Held(left), Held(right), lo, hi);
    assert Held(right)[0] == right.slots[0];
    SplitStaysGuided(a, b, chain, seps, p, |a|, right.slots[0].key);
  }

  lemma {:induction false} LeafAscends<T, V>(a: seq<LeafOf<T, V>>, chain: seq<nat>, p: nat)
    requires p < |chain| && Ascending(Items(a, chain))
    ensures Ascending(HeldAt(a, chain[p]))
  {
    ItemsAround(a, chain, p);
    var before, held, after := Items(a, chain[..p]), HeldAt(a, chain[p]), Items(a, chain[p + 1..]);
    AscendingConcat(before, held + after);
    AscendingConcat(held, after);
  }

  // Where a leaf stands among the leaves of the interior: what the recorded or
  // reconstructed path to it says.
  function PositionOf(leaves: seq<nat>, c: nat): (p: nat)
    requires c in leaves
    ensures p < |leaves| && leaves[p] == c
  {
    if leaves[0] == c then 0 else 1 + PositionOf(leaves[1..], c)
  }

  // Splits the full leaf c around the new entry and leads the interior to the new leaf.
  method SplitAndStore<T(!new), V(!new)>(tree: RawBTree<T, V>, c: nat, ghost p: nat, pos: nat, e: Entry<T, V>)
    requires tree.Searchable() && tree.root.Some?
    requires Gap(tree.arena, tree.chain, tree.Seps(), p, pos, e.key.rank) && c == tree.chain[p]
    requires c < |tree.arena| && tree.arena[c].len == tree.leafCap
    modifies tree
    ensures tree.Searchable() && tree.Contents() == SortedEntries.Insert(old(tree.Contents()), e)
  {
    ghost var a, chain, seps := tree.arena, tree.chain, tree.Seps();
    FitsBounds(a, chain, tree.leafCap);
    LinksAt(a, chain, p);
    var n, next := |tree.arena|, tree.arena[c].next;
    var left, right := LeafSplitAndInsert(tree.arena[c], pos, e, tree.leafCap);
    var grown := GrownRoot(tree, c, p, right.slots[0].key, n);
    SplitState(a, chain, seps, p, pos, left, right, e);
    SplitFits(a, chain, p, left, right, tree.leafCap);
    InsertKeepsOrder(tree.Contents(), e);
    InsertNewLength(a, chain, p, pos, e);
    SplitEnds(a, chain, p, n);
    var arena, last := SplitArena(tree.arena, c, left, right), if next == NO_NODE then n else tree.lastLeaf;
    var height := if grown.Whole? then tree.height else tree.height + 1;
    ghost var more := ChainAfter(chain, p, n);
    assert Linked(arena, more, tree.firstLeaf, last);
    Install(tree, arena, more, Regrown(grown), height, tree.firstLeaf, last, tree.len + 1);
  }

  lemma {:induction false} SplitEnds<T, V>(a: seq<LeafOf<T, V>>, chain: seq<nat>, p: nat, n: nat)
    requires p < |chain| && LinkedAt(a, chain, p)
    ensures var more := ChainAfter(chain, p, n);
            && |more| == |chain| + 1 && NodeAt(more, 0) == NodeAt(chain, 0)
            && NodeAt(more, |chain|) == if a[chain[p]].next == NO_NODE then n else NodeAt(chain, |chain| - 1)
  {
    SplicedOne(chain, p, n);
  }

  // A rank that belongs in a gap is new.
  lemma {:induction false} InsertNewLength<T, V>(a: seq<LeafOf<T, V>>, chain: seq<nat>, p: nat, pos: nat,
                                                 e: Entry<T, V>)
    requires p < |chain| && pos <= |HeldAt(a, chain[p])|
    requires forall x :: x in Items(a, chain[..p]) ==> x.key.rank < e.key.rank
    requires forall x :: x in HeldAt(a, chain[p])[..pos] ==> x.key.rank < e.key.rank
    requires forall x :: x in HeldAt(a, chain[p])[pos..] ==> e.key.rank < x.key.rank
    requires forall x :: x in Items(a, chain[p + 1..]) ==> e.key.rank < x.key.rank
    ensures |SortedEntries.Insert(Items(a, chain), e)| == |Items(a, chain)| + 1
  {
    InsertInLeaf(a, chain, p, e);
    ItemsAround(a, chain, p);
    InsertIsSplice(HeldAt(a, chain[p]), pos, e);
    SplicedIsInsertion(HeldAt(a, chain[p]), pos, [e]);
  }

  // Writes a new state of the leaves and the interior into the tree.
  method Adopt<T(!new), V(!new)>(tree: RawBTree<T, V>, arena: seq<LeafOf<T, V>>, ghost chain: seq<nat>, root: Node<T>,
                                 height: nat, first: int, last: int, len: nat)
    requires tree.leafCap >= 1 && tree.innerCap >= 2
    requires Linked(arena, chain, first, last) && LeavesFit(arena, chain, tree.leafCap)
    requires len == |Items(arena, chain)| && Leaves(root) == chain && Shaped(root, height, tree.innerCap)
    modifies tree
    ensures tree.Valid() && tree.arena == arena && tree.chain == chain && tree.root == Some(root) &&
        tree.height == height
  {
    tree.arena, tree.chain, tree.root, tree.height := arena, chain, Some(root), height;
    tree.firstLeaf, tree.lastLeaf, tree.len := first, last, len;
  }

  method Install<T(!new), V(!new)>(tree: RawBTree<T, V>, arena: seq<LeafOf<T, V>>, ghost chain: seq<nat>, root: Node<T>,
                                   height: nat, first: int, last: int, len: nat)
    requires tree.leafCap >= 1 && tree.innerCap >= 2
    requires Linked(arena, chain, first, last) && LeavesFit(arena, chain, tree.leafCap)
    requires len == |Items(arena, chain)| && Leaves(root) == chain && Shaped(root, height, tree.innerCap)
    requires Ascending(Items(arena, chain)) && Guided(arena, chain, Seps(root))
    modifies tree
    ensures tree.Searchable() && tree.Contents() == Items(arena, chain)
  {
    Adopt(tree, arena, chain, root, height, first, last, len);
  }

  method GrownRoot<T(!new), V(!new)>(tree: RawBTree<T, V>, c: nat, ghost p: nat, key: Key<T>,
                     n: nat) returns (g: Grown<T>)
    requires tree.Valid() && tree.root.Some? && p < |tree.chain| && c == tree.chain[p]
    ensures Leaves(Regrown(g)) == ChainAfter(tree.chain, p, n)
    ensures p <= |tree.Seps()| && Seps(Regrown(g)) == Spliced(tree.Seps(), p, [key])
    ensures Shaped(Regrown(g), if g.Whole? then tree.height else tree.height + 1, tree.innerCap)
  {
    var root := tree.root.value;
    var at := PositionOf(Leaves(root), c);
    DistinctAt(tree.chain, at, p);
    g := GrowAt(root, tree.height, at, 0, key, LeafAt(n), tree.innerCap);
    GrowIsSplice(root, tree.height, at, 0, key, LeafAt(n), tree.innerCap);
    RegrownIsFlat(g, tree.height, tree.innerCap);
    assert [key] + Seps(LeafAt(n)) == [key];
  }

  lemma {:induction false} FitsBounds<T, V>(a: seq<LeafOf<T, V>>, chain: seq<nat>, cap: nat)
    requires LeavesFit(a, chain, cap)
    ensures |a| !in chain && forall c :: c in chain ==> c < |a| && 0 < |a[c].slots| <= cap
  {
    LeavesFitHolds(a, chain, cap);
  }

  lemma {:induction false} SplitFits<T, V>(a: seq<LeafOf<T, V>>, chain: seq<nat>, p: nat, left: LeafOf<T, V>,
                                           right: LeafOf<T, V>, cap: nat)
    requires p < |chain| && LeavesFit(a, chain, cap) && 0 < |left.slots| <= cap && 0 < |right.slots| <= cap
    ensures chain[p] < |a|
    ensures LeavesFit(SplitArena(a, chain[p], left, right), ChainAfter(chain, p, |a|), cap)
  {
    LeavesFitHolds(a, chain, cap);
    assert chain[p] in chain;
    var b, more := SplitArena(a, chain[p], left, right), ChainAfter(chain, p, |a|);
    SplicedOne(chain, p, |a|);
    forall x | x in more ensures x < |b| && 0 < |b[x].slots| <= cap {
      var q :| 0 <= q < |more| && more[q] == x;
      assert q > p + 1 ==> chain[q - 1] in chain;
      assert q <= p ==> chain[q] in chain;
    }
    LeavesFitHolds(b, more, cap);
  }

  // --- Insert ----------------------------------------------------------------

  // Puts a new key into the gap it belongs in.
  method PutAt<T(!new), V(!new)>(tree: RawBTree<T, V>, c: nat, ghost p: nat, pos: nat, e: Entry<T, V>)
    requires tree.Searchable() && tree.root.Some?
    requires Gap(tree.arena, tree.chain, tree.Seps(), p, pos, e.key.rank) && c == tree.chain[p]
    modifies tree
    ensures tree.Searchable() && tree.Contents() == SortedEntries.Insert(old(tree.Contents()), e)
  {
    LinksAt(tree.arena, tree.chain, p);
    FitsBounds(tree.arena, tree.chain, tree.leafCap);
    if tree.arena[c].len < tree.leafCap {
      var leaf := LeafInsertAt(tree.arena[c], pos, e);
      InsertIsSplice(Held(tree.arena[c]), pos, e);
      InsertStaysGuided(tree.arena, tree.chain, tree.Seps(), p, e);
      StoreLeaf(tree, c, p, leaf, e);
    } else {
      SplitAndStore(tree, c, p, pos, e);
    }
  }

  lemma {:induction false} InsertStaysGuided<T, V>(a: seq<LeafOf<T, V>>, chain: seq<nat>, seps: seq<Key<T>>, p: nat,
                                                   e: Entry<T, V>)
    requires Guided(a, chain, seps) && p < |chain|
    requires LowerGuide(seps, p).Some? ==> LowerGuide(seps, p).value <= e.key.rank
    requires UpperGuide(seps, p).Some? ==> e.key.rank < UpperGuide(seps, p).value
    ensures Within(SortedEntries.Insert(HeldAt(a, chain[p]), e), LowerGuide(seps, p), UpperGuide(seps, p))
  {
    LeavesGuidedHolds(a, chain, seps, |chain|);
    assert GuidedAt(a, chain, seps, p);
    InsertWithin(HeldAt(a, chain[p]), e, LowerGuide(seps, p), UpperGuide(seps, p));
  }

  lemma {:induction false} InsertReplaces<T, V>(held: seq<Entry<T, V>>, pos: nat, e: Entry<T, V>)
    requires Ascending(held) && pos < |held| && held[pos].key.rank == e.key.rank
    ensures SortedEntries.Insert(held, e) == held[pos := Slot(held[pos].key, e.val)]
  {
    if pos > 0 {
      assert held[0].key.rank < held[pos].key.rank;
      InsertReplaces(held[1..], pos - 1, e);
    }
  }

  // A rank in a gap is not in the map.
  lemma {:induction false} GapMeansAbsent<T, V>(a: seq<LeafOf<T, V>>, chain: seq<nat>, seps: seq<Key<T>>, p: nat,
                                                pos: nat, r: int)
    requires Gap(a, chain, seps, p, pos, r)
    ensures Lookup(Items(a, chain), r) == None
  {
    var before, held, after := Items(a, chain[..p]), HeldAt(a, chain[p]), Items(a, chain[p + 1..]);
    ItemsAround(a, chain, p);
    assert held == held[..pos] + held[pos..];
    AbsentMissing(before, r);
    AbsentMissing(held[..pos], r);
    AbsentMissing(held[pos..], r);
    AbsentMissing(after, r);
    LookupInConcat(held[..pos], held[pos..], r);
    LookupInConcat(held, after, r);
    LookupInConcat(before, held + after, r);
  }

  // All of an ordered run lies at or below its last key, and at or above its first.
  lemma {:induction false} RunBounds<T, V>(s: seq<Entry<T, V>>, e: Entry<T, V>)
    requires Ascending(s) && e in s
    ensures s[0].key.rank <= e.key.rank <= s[|s| - 1].key.rank
  {
    var i :| 0 <= i < |s| && s[i] == e;
  }

  // A key above the last one of a non-empty last leaf belongs at its end.
  lemma {:induction false} GapAtEnd<T, V>(a: seq<LeafOf<T, V>>, chain: seq<nat>, seps: seq<Key<T>>, r: int)
    requires Guided(a, chain, seps) && chain != [] && Ascending(Items(a, chain))
    requires var held := HeldAt(a, chain[|chain| - 1]); held != [] && held[|held| - 1].key.rank < r
    ensures Gap(a, chain, seps, |chain| - 1, |HeldAt(a, chain[|chain| - 1])|, r)
  {
    var p := |chain| - 1;
    var held, all := HeldAt(a, chain[p]), Items(a, chain);
    ItemsAround(a, chain, p);
    assert chain[p + 1..] == [] && held[..|held|] == held && held[|held|..] == [];
    assert all == Items(a, chain[..p]) + held;
    forall e | e in all ensures e.key.rank < r {
      RunBounds(all, e);
    }
    LeavesGuidedHolds(a, chain, seps, |chain|);
    assert GuidedAt(a, chain, seps, p) && held[|held| - 1] in held;
  }

  // A key below the first one of a non-empty first leaf belongs at its start.
  lemma {:induction false} GapAtStart<T, V>(a: seq<LeafOf<T, V>>, chain: seq<nat>, seps: seq<Key<T>>, r: int)
    requires Guided(a, chain, seps) && chain != [] && Ascending(Items(a, chain))
    requires var held := HeldAt(a, chain[0]); held != [] && r < held[0].key.rank
    ensures Gap(a, chain, seps, 0, 0, r)
  {
    var held, all := HeldAt(a, chain[0]), Items(a, chain);
    assert chain[..0] == [] && held[..0] == [] && held[0..] == held;
    assert all == held + Items(a, chain[1..]);
    forall e | e in all ensures r < e.key.rank {
      RunBounds(all, e);
    }
    LeavesGuidedHolds(a, chain, seps, |chain|);
    assert GuidedAt(a, chain, seps, 0) && held[0] in held;
  }

  // An ordered run has only greater ranks from where a rank that it lacks belongs.
  lemma {:induction false} RankParts<T, V>(held: seq<Entry<T, V>>, r: int)
    requires Ascending(held)
    requires !(RankIn(held, r) < |held| && held[RankIn(held, r)].key.rank == r)
    ensures RankIn(held, r) <= |held|
    ensures forall e :: e in held[..RankIn(held, r)] ==> e.key.rank < r
    ensures forall e :: e in held[RankIn(held, r)..] ==> r < e.key.rank
  {
    RankInBound(held, r);
    var tail := held[RankIn(held, r)..];
    forall e | e in tail ensures r < e.key.rank {
      RunBounds(tail, e);
    }
  }

  // Where the search for a key that is not there ends is where it belongs.
  lemma {:induction false} GapFromSearch<T, V>(a: seq<LeafOf<T, V>>, chain: seq<nat>, seps: seq<Key<T>>, r: int,
                                               p: nat, pos: nat)
    requires Guided(a, chain, seps) && Ascending(Items(a, chain))
    requires p == Below(seps, r + 1) < |chain| && pos == RankIn(HeldAt(a, chain[p]), r)
    requires !(pos < |HeldAt(a, chain[p])| && HeldAt(a, chain[p])[pos].key.rank == r)
    ensures Gap(a, chain, seps, p, pos, r)
  {
    SearchReachesLeaf(a, chain, seps, r, p);
    LeafAscends(a, chain, p);
    RankParts(HeldAt(a, chain[p]), r);
  }

  // Inserts an entry and returns the value it replaces, if any.
  method Insert<T(!new), V(!new)>(tree: RawBTree<T, V>, e: Entry<T, V>) returns (prev: Option<V>)
    requires tree.Searchable()
    modifies tree
    ensures tree.Searchable()
    ensures tree.Contents() == SortedEntries.Insert(old(tree.Contents()), e)
    ensures prev == ValueOf(old(tree.Contents()), e.key.rank)
  {
    if tree.root == None {
      InsertFirst(tree, e);
      return None;
    }
    EndsExist(tree);
    var last, first := tree.arena[tree.lastLeaf], tree.arena[tree.firstLeaf];
    if last.len > 0 && last.slots[last.len - 1].key.rank < e.key.rank {
      InsertAtEnd(tree, e);
      prev := None;
    } else if first.len > 0 && e.key.rank < first.slots[0].key.rank {
      InsertAtStart(tree, e);
      prev := None;
    } else {
      prev := InsertSearched(tree, e);
    }
  }

  lemma {:induction false} EndsExist<T(!new), V(!new)>(tree: RawBTree<T, V>)
    requires tree.Valid() && tree.root.Some?
    ensures 0 <= tree.lastLeaf < |tree.arena| && tree.arena[tree.lastLeaf].len <= |tree.arena[tree.lastLeaf].slots|
    ensures 0 <= tree.firstLeaf < |tree.arena| && tree.arena[tree.firstLeaf].len <= |tree.arena[tree.firstLeaf].slots|
  {
    OneMoreLeaf(tree.root.value);
    LinksAt(tree.arena, tree.chain, |tree.chain| - 1);
    LinksAt(tree.arena, tree.chain, 0);
  }

  method InsertAtEnd<T(!new), V(!new)>(tree: RawBTree<T, V>, e: Entry<T, V>)
    requires tree.Searchable() && tree.root.Some? && 0 <= tree.lastLeaf < |tree.arena|
    requires var last := tree.arena[tree.lastLeaf];
             0 < last.len <= |last.slots| && last.slots[last.len - 1].key.rank < e.key.rank
    modifies tree
    ensures tree.Searchable() && tree.Contents() == SortedEntries.Insert(old(tree.Contents()), e)
    ensures Lookup(old(tree.Contents()), e.key.rank) == None
  {
    ghost var chain, seps := tree.chain, tree.Seps();
    LinksAt(tree.arena, chain, |chain| - 1);
    var len := tree.arena[tree.lastLeaf].len;
    GapAtEnd(tree.arena, chain, seps, e.key.rank);
    GapMeansAbsent(tree.arena, chain, seps, |chain| - 1, len, e.key.rank);
    PutAt(tree, tree.lastLeaf, |chain| - 1, len, e);
  }

  method InsertAtStart<T(!new), V(!new)>(tree: RawBTree<T, V>, e: Entry<T, V>)
    requires tree.Searchable() && tree.root.Some? && 0 <= tree.firstLeaf < |tree.arena|
    requires var first := tree.arena[tree.firstLeaf];
             0 < first.len <= |first.slots| && e.key.rank < first.slots[0].key.rank
    modifies tree
    ensures tree.Searchable() && tree.Contents() == SortedEntries.Insert(old(tree.Contents()), e)
    ensures Lookup(old(tree.Contents()), e.key.rank) == None
  {
    GapAtStart(tree.arena, tree.chain, tree.Seps(), e.key.rank);
    GapMeansAbsent(tree.arena, tree.chain, tree.Seps(), 0, 0, e.key.rank);
    PutAt(tree, tree.firstLeaf, 0, 0, e);
  }

  method InsertFirst<T(!new), V(!new)>(tree: RawBTree<T, V>, e: Entry<T, V>)
    requires tree.Searchable() && tree.root == None
    modifies tree
    ensures tree.Searchable() && tree.Contents() == SortedEntries.Insert(old(tree.Contents()), e)
  {
    var n, leaf := |tree.arena|, Leaf(1, [e], NO_NODE, NO_NODE);
    var arena := tree.arena + [leaf];
    ItemsOfOne(arena, n);
    assert HeldAt(arena, n) == [e];
    assert SortedEntries.Insert(tree.Contents(), e) == [e];
    LinksHold(arena, [n], 1);
    LeavesGuidedHolds(arena, [n], Seps<T>(LeafAt(n)), 1);
    Install(tree, arena, [n], LeafAt(n), 0, n, n, 1);
  }

  // The general path: find the leaf and the slot.
  method InsertSearched<T(!new), V(!new)>(tree: RawBTree<T, V>, e: Entry<T, V>) returns (prev: Option<V>)
    requires tree.Searchable() && tree.root.Some?
    modifies tree
    ensures tree.Searchable()
    ensures tree.Contents() == SortedEntries.Insert(old(tree.Contents()), e)
    ensures prev == ValueOf(old(tree.Contents()), e.key.rank)
  {
    var r := e.key.rank;
    var c, pos, p := Locate(tree, r);
    var leaf := tree.arena[c];
    if pos < leaf.len && leaf.slots[pos].key.rank == r {
      prev := Some(leaf.slots[pos].val);
      ReplaceAt(tree, c, p, pos, e);
    } else {
      GapFromSearch(tree.arena, tree.chain, tree.Seps(), r, p, pos);
      GapMeansAbsent(tree.arena, tree.chain, tree.Seps(), p, pos, r);
      prev := None;
      PutAt(tree, c, p, pos, e);
    }
  }

  // The leaf that the search for rank r ends in, and the slot where it would stand.
  method Locate<T(!new), V(!new)>(tree: RawBTree<T, V>, r: int) returns (c: nat, pos: nat, ghost p: nat)
    requires tree.Searchable() && tree.root.Some?
    ensures p == Below(tree.Seps(), r + 1) < |tree.chain| && c == tree.chain[p] < |tree.arena|
    ensures pos == RankIn(HeldAt(tree.arena, c), r) <= tree.arena[c].len <= |tree.arena[c].slots|
  {
    c := FindLeaf(tree.root.value, tree.height, tree.innerCap, r + 1);
    DescentCountsSeparators(tree.root.value, r + 1);
    p := Below(tree.Seps(), r + 1);
    LinksAt(tree.arena, tree.chain, p);
    pos := ScanLeaf(tree.arena[c], r);
  }

  // The key is there: only the value changes.
  method ReplaceAt<T(!new), V(!new)>(tree: RawBTree<T, V>, c: nat, ghost p: nat, pos: nat, e: Entry<T, V>)
    requires tree.Searchable() && tree.root.Some?
    requires p == Below(tree.Seps(), e.key.rank + 1) < |tree.chain| && c == tree.chain[p] < |tree.arena|
    requires tree.arena[c].len <= |tree.arena[c].slots| && pos < tree.arena[c].len
    requires tree.arena[c].slots[pos].key.rank == e.key.rank
    modifies tree`arena, tree`len
    ensures tree.Searchable() && tree.Contents() == SortedEntries.Insert(old(tree.Contents()), e)
    ensures Lookup(old(tree.Contents()), e.key.rank) == Some(old(tree.arena)[c].slots[pos])
  {
    var leaf := tree.arena[c];
    var after := leaf.(slots := leaf.slots[pos := Slot(leaf.slots[pos].key, e.val)]);
    FitsBounds(tree.arena, tree.chain, tree.leafCap);
    ReplaceReady(tree.arena, tree.chain, tree.Seps(), p, pos, e, after);
    StoreLeaf(tree, c, p, after, e);
  }

  lemma {:induction false} ReplaceReady<T, V>(a: seq<LeafOf<T, V>>, chain: seq<nat>, seps: seq<Key<T>>, p: nat,
                                              pos: nat,
                                             e: Entry<T, V>, after: LeafOf<T, V>)
    requires Guided(a, chain, seps) && Ascending(Items(a, chain))
    requires p == Below(seps, e.key.rank + 1) < |chain| && chain[p] < |a|
    requires var leaf := a[chain[p]];
             && leaf.len <= |leaf.slots| && pos < leaf.len && leaf.slots[pos].key.rank == e.key.rank
             && after == leaf.(slots := leaf.slots[pos := Slot(leaf.slots[pos].key, e.val)])
    ensures Held(after) == SortedEntries.Insert(HeldAt(a, chain[p]), e)
    ensures Within(Held(after), LowerGuide(seps, p), UpperGuide(seps, p))
    ensures forall x :: x in Items(a, chain[..p]) ==> x.key.rank < e.key.rank
    ensures forall x :: x in Items(a, chain[p + 1..]) ==> e.key.rank < x.key.rank
    ensures Lookup(Items(a, chain), e.key.rank) == Some(a[chain[p]].slots[pos])
  {
    var leaf := a[chain[p]];
    SearchReachesLeaf(a, chain, seps, e.key.rank, p);
    LeafAscends(a, chain, p);
    ReplaceIsInsert(leaf, pos, e, after);
    InsertStaysGuided(a, chain, seps, p, e);
  }

  lemma {:induction false} ReplaceIsInsert<T, V>(leaf: LeafOf<T, V>, pos: nat, e: Entry<T, V>, after: LeafOf<T, V>)
    requires leaf.len <= |leaf.slots| && pos < leaf.len && Ascending(Held(leaf))
    requires leaf.slots[pos].key.rank == e.key.rank
    requires after == leaf.(slots := leaf.slots[pos := Slot(leaf.slots[pos].key, e.val)])
    ensures Held(after) == SortedEntries.Insert(Held(leaf), e)
    ensures Lookup(Held(leaf), e.key.rank) == Some(leaf.slots[pos])
  {
    var held := Held(leaf);
    assert held[pos] == leaf.slots[pos];
    LookupAt(held, pos);
    InsertReplaces(held, pos, e);
    assert Held(after) == held[pos := Slot(held[pos].key, e.val)];
  }
}
