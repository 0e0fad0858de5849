// The double-ended iterator of a FlatBTree.  It walks the leaf chain from both
// ends, past any empty leaves, and stops when `remaining` reaches zero.

module LeafIter {
  import opened Wrappers
  import opened Seqs
  import opened LeafChain
  import opened SortedEntries
  import opened RawBTree

  // Slot idx of the leaf at position pos, which is `leaf`, has i entries before it.
  ghost predicate Stands<T, V>(arena: seq<LeafOf<T, V>>, chain: seq<nat>, pos: int, leaf: int, idx: nat, i: nat) {
    && 0 <= pos < |chain|
    && leaf == chain[pos] < |arena|
    && idx <= |HeldAt(arena, chain[pos])|
    && Offset(arena, chain, pos) + idx == i
  }

  lemma {:induction false} StandsAtStart<T, V>(arena: seq<LeafOf<T, V>>, chain: seq<nat>)
    requires chain != [] && LinkedAt(arena, chain, 0)
    ensures Stands(arena, chain, 0, chain[0], 0, 0)
  {
    OffsetEnds(arena, chain);
  }

  lemma {:induction false} StandsAtEnd<T, V>(arena: seq<LeafOf<T, V>>, chain: seq<nat>)
    requires chain != [] && LinkedAt(arena, chain, |chain| - 1)
    ensures Stands(arena, chain, |chain| - 1, chain[|chain| - 1], arena[chain[|chain| - 1]].len, |Items(arena, chain)|)
  {
    OffsetEnds(arena, chain);
    OffsetStep(arena, chain, |chain| - 1);
  }

  // The entry a position stands on.
  lemma {:induction false} StandsOnEntry<T, V>(arena: seq<LeafOf<T, V>>, chain: seq<nat>, pos: int, leaf: int,
                                               idx: nat, i: nat)
    requires Stands(arena, chain, pos, leaf, idx, i) && LinkedAt(arena, chain, pos)
    requires idx < arena[leaf].len
    ensures i < |Items(arena, chain)| && Items(arena, chain)[i] == arena[leaf].slots[idx]
    ensures Stands(arena, chain, pos, leaf, idx + 1, i + 1)
  {
    ItemAt(arena, chain, pos, idx);
  }

  // A front end that has used up its leaf stands at the start of the next one.
  lemma {:induction false} FrontMovesOn<T, V>(arena: seq<LeafOf<T, V>>, chain: seq<nat>, pos: int, leaf: int,
                                              idx: nat, i: nat)
    requires Stands(arena, chain, pos, leaf, idx, i)
    requires arena[leaf].len <= idx && i < |Items(arena, chain)|
    requires Links(arena, chain, |chain|)
    ensures Stands(arena, chain, pos + 1, arena[leaf].next, 0, i)
  {
    LinksAt(arena, chain, pos);
    OffsetStep(arena, chain, pos);
    OffsetEnds(arena, chain);
    LinksAt(arena, chain, pos + 1);
  }

  // A back end with nothing left in its leaf stands behind the last entry of the one before.
  lemma {:induction false} BackMovesOn<T, V>(arena: seq<LeafOf<T, V>>, chain: seq<nat>, pos: int, leaf: int, i: nat)
    requires Stands(arena, chain, pos, leaf, 0, i) && i > 0
    requires Links(arena, chain, |chain|)
    ensures pos > 0 && arena[leaf].prev == chain[pos - 1] < |arena|
    ensures Stands(arena, chain, pos - 1, chain[pos - 1], arena[chain[pos - 1]].len, i)
  {
    OffsetEnds(arena, chain);
    assert pos > 0;
    LinksAt(arena, chain, pos);
    LinksAt(arena, chain, pos - 1);
    OffsetStep(arena, chain, pos - 1);
  }

  // The two ends have met exactly when a back end has nothing left that the
  // front end has not passed.
  lemma {:induction false} EndsApart<T, V>(arena: seq<LeafOf<T, V>>, chain: seq<nat>, fp: int, fl: int, fi: nat,
                                           lo: nat,
                        bp: int, bl: int, bi: nat, hi: nat)
    requires Distinct(chain) && lo < hi
    requires Stands(arena, chain, fp, fl, fi, lo) && Stands(arena, chain, bp, bl, bi, hi)
    requires bi <= if bl == fl then fi else 0
    ensures bi == 0
  {
    DistinctAt(chain, bp, fp);
  }

  // The iterator borrows the tree, so what it reads cannot change under it.
  class Iter<T(!new), V(!new)> {
    const arena: seq<LeafOf<T, V>>
    ghost const chain: seq<nat>
    ghost const all: seq<Entry<T, V>>
    var frontLeaf: int
    var frontIdx: nat
    var backLeaf: int
    // One past the last entry that the back end may still yield from its leaf.
    var backIdx: nat
    var remaining: nat
    // The entries still to come are those in [lo, hi) of the whole contents.
    ghost var lo: nat
    ghost var hi: nat
    // Where the two leaves stand in the chain.
    ghost var frontPos: int
    ghost var backPos: int

    ghost predicate Valid()
      reads this
    {
      && all == Items(arena, chain)
      && Distinct(chain)
      && Links(arena, chain, |chain|)
      && lo <= hi <= |all|
      && remaining == hi - lo
      && (remaining > 0 ==> Stands(arena, chain, frontPos, frontLeaf, frontIdx, lo))
      && (remaining > 0 ==> Stands(arena, chain, backPos, backLeaf, backIdx, hi))
    }

    constructor (tree: RawBTree<T, V>)
      requires tree.Valid()
      ensures Valid() && all == tree.Contents()
      ensures lo == 0 && hi == |all|
    {
      arena, chain, all := tree.arena, tree.chain, tree.Contents();
      frontLeaf, frontIdx := tree.firstLeaf, 0;
      backLeaf := tree.lastLeaf;
      backIdx := if tree.lastLeaf != NO_NODE then tree.arena[tree.lastLeaf].len else 0;
      remaining := tree.len;
      lo, hi := 0, |tree.Contents()|;
      frontPos, backPos := 0, |tree.chain| - 1;
      if tree.chain != [] {
        LinksAt(tree.arena, tree.chain, 0);
        LinksAt(tree.arena, tree.chain, |tree.chain| - 1);
        StandsAtStart(tree.arena, tree.chain);
        StandsAtEnd(tree.arena, tree.chain);
      }
    }

    method Next() returns (item: Option<Entry<T, V>>)
      requires Valid()
      modifies this
      ensures Valid() && hi == old(hi)
      ensures old(lo) == old(hi) ==> item == None && lo == old(lo)
      ensures old(lo) < old(hi) ==> lo == old(lo) + 1 && item == Some(all[old(lo)])
      decreases if remaining == 0 then 0 else |chain| - frontPos, 0
    {
      if remaining == 0 {
        return None;
      }
      LinksAt(arena, chain, frontPos);
      if frontIdx < arena[frontLeaf].len {
        StandsOnEntry(arena, chain, frontPos, frontLeaf, frontIdx, lo);
        item := Some(arena[frontLeaf].slots[frontIdx]);
        frontIdx, remaining, lo := frontIdx + 1, remaining - 1, lo + 1;
      } else {
        item := AdvanceFront();
      }
    }

    // Steps to the next leaf, which may be empty too, and tries again.
    method AdvanceFront() returns (item: Option<Entry<T, V>>)
      requires Valid() && remaining > 0
      requires frontLeaf < |arena| && arena[frontLeaf].len <= frontIdx
      modifies this
      ensures Valid() && hi == old(hi)
      ensures lo == old(lo) + 1 && item == Some(all[old(lo)])
      decreases |chain| - frontPos - 1, 1
    {
      LinksAt(arena, chain, frontPos);
      FrontMovesOn(arena, chain, frontPos, frontLeaf, frontIdx, lo);
      frontLeaf, frontIdx, frontPos := arena[frontLeaf].next, 0, frontPos + 1;
      item := Next();
    }

    // The branch that gives up because the chain has run out to the left is
    // never taken while entries remain.
    method NextBack() returns (item: Option<Entry<T, V>>)
      requires Valid()
      modifies this
      ensures Valid() && lo == old(lo)
      ensures old(lo) == old(hi) ==> item == None && hi == old(hi)
      ensures old(lo) < old(hi) ==> hi == old(hi) - 1 && item == Some(all[old(hi) - 1])
    {
      while true
        invariant Valid() && lo == old(lo) && hi == old(hi)
        decreases backPos
      {
        if remaining == 0 {
          return None;
        }
        var start := if backLeaf == frontLeaf then frontIdx else 0;
        if backIdx > start {
          item := YieldBack();
          return;
        }
        Retreat();
      }
    }

    method YieldBack() returns (item: Option<Entry<T, V>>)
      requires Valid() && remaining > 0 && backIdx > 0
      modifies this
      ensures Valid() && lo == old(lo) && hi == old(hi) - 1
      ensures item == Some(all[hi])
    {
      var slot := backIdx - 1;
      ghost var i := hi - 1;
      LinksAt(arena, chain, backPos);
      assert Stands(arena, chain, backPos, backLeaf, slot, i);
      StandsOnEntry(arena, chain, backPos, backLeaf, slot, i);
      item := Some(arena[backLeaf].slots[slot]);
      backIdx, remaining, hi := slot, remaining - 1, i;
    }

    // Moves the back end to the previous leaf.
    method Retreat()
      requires Valid() && remaining > 0
      requires backIdx <= if backLeaf == frontLeaf then frontIdx else 0
      modifies this
      ensures Valid() && lo == old(lo) && hi == old(hi)
      ensures 0 <= backPos < old(backPos)
    {
      EndsApart(arena, chain, frontPos, frontLeaf, frontIdx, lo, backPos, backLeaf, backIdx, hi);
      BackMovesOn(arena, chain, backPos, backLeaf, hi);
      var prev := arena[backLeaf].prev;
      if prev != NO_NODE {
        backLeaf, backIdx, backPos := prev, arena[prev].len, backPos - 1;
      } else {
        assert false;
      }
    }
  }

  function Reversed<X>(s: seq<X>): seq<X> {
    if s == [] then [] else Reversed(s[1..]) + [s[0]]
  }

  // The first n entries the back end yields, in the order it yields them.
  function FromBack<X>(s: seq<X>, n: nat): seq<X>
    requires n <= |s|
  {
    Reversed(s[|s| - n..])
  }

  lemma {:induction false} ReversedLength<X>(s: seq<X>)
    ensures |Reversed(s)| == |s|
  {
    if s != [] {
      ReversedLength(s[1..]);
    }
  }

  lemma {:induction false} FromBackLength<X>(s: seq<X>, n: nat)
    requires n <= |s|
    ensures |FromBack(s, n)| == n
  {
    ReversedLength(s[|s| - n..]);
  }

  // What has been collected when the entries in [lo, hi) are still to come.
  ghost predicate Collected<X>(all: seq<X>, lo: nat, hi: nat, front: seq<X>, back: seq<X>) {
    && lo <= hi <= |all|
    && front == all[..lo]
    && back == Reversed(all[hi..])
  }

  lemma {:induction false} CollectFront<X>(all: seq<X>, lo: nat, hi: nat, front: seq<X>, back: seq<X>, next: nat)
    requires Collected(all, lo, hi, front, back) && lo < hi && next == lo + 1
    ensures Collected(all, next, hi, front + [all[lo]], back)
  {
    assert all[..next] == all[..lo] + [all[lo]];
  }

  lemma {:induction false} CollectBack<X>(all: seq<X>, lo: nat, hi: nat, front: seq<X>, back: seq<X>, next: nat)
    requires Collected(all, lo, hi, front, back) && lo < hi && next == hi - 1
    ensures Collected(all, lo, next, front, back + [all[next]])
  {
    assert all[next..][1..] == all[hi..];
  }

  method AskFront<T(!new), V(!new)>(it: Iter<T, V>, front: seq<Entry<T, V>>, ghost back: seq<Entry<T, V>>)
    returns (more: seq<Entry<T, V>>)
    requires it.Valid() && Collected(it.all, it.lo, it.hi, front, back)
    modifies it
    ensures it.Valid() && it.hi == old(it.hi)
    ensures it.lo == if old(it.lo) < it.hi then old(it.lo) + 1 else old(it.lo)
    ensures Collected(it.all, it.lo, it.hi, more, back)
  {
    more := front;
    var item := it.Next();
    if item.Some? {
      CollectFront(it.all, old(it.lo), it.hi, front, back, it.lo);
      more := front + [item.value];
    }
  }

  method AskBack<T(!new), V(!new)>(it: Iter<T, V>, ghost front: seq<Entry<T, V>>, back: seq<Entry<T, V>>)
    returns (more: seq<Entry<T, V>>)
    requires it.Valid() && Collected(it.all, it.lo, it.hi, front, back)
    modifies it
    ensures it.Valid() && it.lo == old(it.lo)
    ensures it.hi == if it.lo < old(it.hi) then old(it.hi) - 1 else old(it.hi)
    ensures Collected(it.all, it.lo, it.hi, front, more)
  {
    more := back;
    var item := it.NextBack();
    if item.Some? {
      CollectBack(it.all, it.lo, old(it.hi), front, back, it.hi);
      more := back + [item.value];
    }
  }

  method Ask<T(!new), V(!new)>(it: Iter<T, V>, fromFront: bool, front: seq<Entry<T, V>>, back: seq<Entry<T, V>>)
    returns (f: seq<Entry<T, V>>, b: seq<Entry<T, V>>)
    requires it.Valid() && Collected(it.all, it.lo, it.hi, front, back)
    modifies it
    ensures it.Valid() && Collected(it.all, it.lo, it.hi, f, b)
    ensures it.hi - it.lo == if old(it.lo < it.hi) then old(it.hi - it.lo) - 1 else old(it.hi - it.lo)
  {
    f, b := front, back;
    if fromFront {
      f := AskFront(it, front, back);
    } else {
      b := AskBack(it, front, back);
    }
  }

  lemma {:induction false} CollectedInAll<X>(all: seq<X>, lo: nat, hi: nat, front: seq<X>, back: seq<X>)
    requires Collected(all, lo, hi, front, back)
    ensures |front| == lo && front == all[..|front|]
    ensures |back| == |all| - hi && back == FromBack(all, |back|)
  {
    FromBackLength(all, |all| - hi);
  }

  // Any interleaving of the two ends (true asks the front) yields a prefix of
  // the contents at the front and the reversed suffix at the back; together
  // they never overlap, and a call comes back empty-handed only when the two
  // have met.
  method Drive<T(!new), V(!new)>(tree: RawBTree<T, V>, script: seq<bool>)
    returns (front: seq<Entry<T, V>>, back: seq<Entry<T, V>>)
    requires tree.Valid()
    ensures |front| + |back| == if |script| <= |tree.Contents()| then |script| else |tree.Contents()|
    ensures front == tree.Contents()[..|front|]
    ensures back == FromBack(tree.Contents(), |back|)
  {
    var it := new Iter(tree);
    front, back := [], [];
    assert it.all[|it.all|..] == [];
    for i := 0 to |script|
      invariant it.Valid() && fresh(it)
      invariant Collected(it.all, it.lo, it.hi, front, back)
      invariant it.hi - it.lo == if i <= |it.all| then |it.all| - i else 0
    {
      front, back := Ask(it, script[i], front, back);
    }
    CollectedInAll(it.all, it.lo, it.hi, front, back);
  }
}
