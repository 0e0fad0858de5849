// The two iterators that move entries out of a tree: Drain, which borrows the
// tree and leaves it empty, and IntoIter, which owns it.  Each entry must
// leave exactly once: yielded to the caller or dropped.

module Drains {
  import opened Wrappers
  import opened Seqs
  import opened LeafChain
  import opened SortedEntries
  import opened Interior
  import opened Guides
  import opened RawBTree

  // The leaves in front of position p have been emptied.
  ghost predicate Emptied<T, V>(arena: seq<LeafOf<T, V>>, chain: seq<nat>, p: nat) {
    p == 0 || (p <= |chain| && HeldAt(arena, chain[p - 1]) == [] && Emptied(arena, chain, p - 1))
  }

  lemma {:induction false} EmptiedOn<T, V>(a: seq<LeafOf<T, V>>, b: seq<LeafOf<T, V>>, chain: seq<nat>, p: nat, c: nat)
    requires p <= |chain| && Emptied(a, chain, p) && c !in chain[..p]
    requires forall q: nat :: q != c ==> HeldAt(a, q) == HeldAt(b, q)
    ensures Emptied(b, chain, p)
  {
    if p > 0 {
      assert chain[p - 1] in chain[..p];
      assert forall x :: x in chain[..p - 1] ==> x in chain[..p];
      EmptiedOn(a, b, chain, p - 1, c);
    }
  }

  // What is still to come when the next entry is slot idx of the leaf at position p.
  ghost function Rest<T, V>(arena: seq<LeafOf<T, V>>, chain: seq<nat>, p: nat, idx: nat): seq<Entry<T, V>> {
    if p < |chain| && idx <= |HeldAt(arena, chain[p])| then
      HeldAt(arena, chain[p])[idx..] + Items(arena, chain[p + 1..])
    else []
  }

  lemma {:induction false} RestAtStart<T, V>(arena: seq<LeafOf<T, V>>, chain: seq<nat>, p: nat)
    requires p <= |chain|
    ensures Rest(arena, chain, p, 0) == Items(arena, chain[p..])
  {
    if p < |chain| {
      ItemsAround(arena, chain, p);
    }
  }

  lemma {:induction false} RestStep<T, V>(arena: seq<LeafOf<T, V>>, chain: seq<nat>, p: nat, idx: nat)
    requires p < |chain| && idx < |HeldAt(arena, chain[p])|
    ensures Rest(arena, chain, p, idx) == [HeldAt(arena, chain[p])[idx]] + Rest(arena, chain, p, idx + 1)
  {
    var held := HeldAt(arena, chain[p]);
    assert held[idx..] == [held[idx]] + held[idx + 1..];
    Assoc([held[idx]], held[idx + 1..], Items(arena, chain[p + 1..]));
  }

  lemma {:induction false} EmptiedStep<T, V>(a: seq<LeafOf<T, V>>, b: seq<LeafOf<T, V>>, chain: seq<nat>, p: nat,
                                             next: nat)
    requires p < |chain| && Distinct(chain) && Emptied(a, chain, p) && next == p + 1
    requires forall c: nat :: c != chain[p] ==> HeldAt(a, c) == HeldAt(b, c)
    requires HeldAt(b, chain[p]) == []
    ensures Emptied(b, chain, next)
  {
    DistinctHolds(chain);
    EmptiedOn(a, b, chain, p, chain[p]);
  }

  // A leaf that has been read to its end is marked empty.
  lemma {:induction false} LeafConsumed<T, V>(a: seq<LeafOf<T, V>>, chain: seq<nat>, p: nat, next: nat)
    requires p < |chain| && Distinct(chain) && Links(a, chain, |chain|) && Emptied(a, chain, p) && chain[p] < |a|
    requires next == p + 1
    ensures var b := a[chain[p] := a[chain[p]].(len := 0)];
            && Links(b, chain, |chain|) && Emptied(b, chain, next)
            && Rest(b, chain, next, 0) == Rest(a, chain, p, |HeldAt(a, chain[p])|)
  {
    var leaf := a[chain[p]].(len := 0);
    var b := a[chain[p] := leaf];
    LeafEdited(a, chain, p, leaf);
    EmptiedStep(a, b, chain, p, next);
    RestAtStart(b, chain, next);
    NothingBefore(HeldAt(a, chain[p])[|HeldAt(a, chain[p])|..], Items(a, chain[next..]));
  }

  // The state of a walk that has yielded some entries of `all` and has the rest to come.
  ghost predicate Consuming<T, V>(arena: seq<LeafOf<T, V>>, chain: seq<nat>, p: nat, leaf: int, idx: nat,
                                  yielded: seq<Entry<T, V>>, all: seq<Entry<T, V>>) {
    && Distinct(chain) && Links(arena, chain, |chain|)
    && p <= |chain| && Emptied(arena, chain, p)
    && leaf == NodeAt(chain, p)
    && (p < |chain| ==> idx <= |HeldAt(arena, chain[p])|)
    && yielded + Rest(arena, chain, p, idx) == all
  }

  // Off the end of the chain nothing is left to come.
  lemma {:induction false} ConsumedAll<T, V>(arena: seq<LeafOf<T, V>>, chain: seq<nat>, p: nat, leaf: int, idx: nat,
                                            yielded: seq<Entry<T, V>>, all: seq<Entry<T, V>>)
    requires Consuming(arena, chain, p, leaf, idx, yielded, all) && leaf == NO_NODE
    ensures p == |chain| && Emptied(arena, chain, |chain|) && yielded == all
  {
    NothingBehind(yielded);
  }

  lemma {:induction false} ConsumingYields<T, V>(arena: seq<LeafOf<T, V>>, chain: seq<nat>, p: nat, leaf: int, idx: nat,
                                                yielded: seq<Entry<T, V>>, all: seq<Entry<T, V>>)
    requires Consuming(arena, chain, p, leaf, idx, yielded, all)
    requires p < |chain| && idx < |HeldAt(arena, chain[p])|
    ensures |yielded| < |all| && all[|yielded|] == HeldAt(arena, chain[p])[idx]
    ensures Consuming(arena, chain, p, leaf, idx + 1, yielded + [HeldAt(arena, chain[p])[idx]], all)
  {
    RestStep(arena, chain, p, idx);
    Assoc(yielded, [HeldAt(arena, chain[p])[idx]], Rest(arena, chain, p, idx + 1));
  }

  lemma {:induction false} ConsumingLeaves<T, V>(arena: seq<LeafOf<T, V>>, chain: seq<nat>, p: nat, leaf: int, idx: nat,
                                                yielded: seq<Entry<T, V>>, all: seq<Entry<T, V>>)
    requires Consuming(arena, chain, p, leaf, idx, yielded, all)
    requires p < |chain| && idx == |HeldAt(arena, chain[p])|
    ensures 0 <= leaf < |arena|
    ensures Consuming(arena[leaf := arena[leaf].(len := 0)], chain, p + 1, arena[leaf].next, 0, yielded, all)
  {
    LinksAt(arena, chain, p);
    LeafConsumed(arena, chain, p, p + 1);
  }

  class Drain<T(!new), V(!new)> {
    const tree: RawBTree<T, V>
    var currentLeaf: int
    var currentIdx: nat
    var remaining: nat
    ghost const all: seq<Entry<T, V>>
    ghost var yielded: seq<Entry<T, V>>
    ghost var pos: nat

    ghost predicate Valid()
      reads this, tree
    {
      && tree.leafCap >= 1 && tree.innerCap >= 2
      && Consuming(tree.arena, tree.chain, pos, currentLeaf, currentIdx, yielded, all)
      && remaining == tree.len == |all| - |yielded|
    }

    constructor (tree: RawBTree<T, V>)
      requires tree.Valid()
      ensures Valid() && this.tree == tree && all == tree.Contents() && yielded == []
    {
      this.tree := tree;
      currentLeaf, currentIdx, remaining := tree.firstLeaf, 0, tree.len;
      all, yielded, pos := tree.Contents(), [], 0;
      RestAtStart(tree.arena, tree.chain, 0);
      assert tree.chain[0..] == tree.chain;
    }

    method Next() returns (item: Option<Entry<T, V>>)
      requires Valid()
      modifies this, tree`arena, tree`len
      ensures Valid()
      ensures item.None? ==> old(yielded) == yielded == all && pos == |tree.chain|
      ensures item.Some? ==> |old(yielded)| < |all| && item.value == all[|old(yielded)|]
                             && yielded == old(yielded) + [item.value]
    {
      while currentLeaf != NO_NODE
        invariant Valid() && yielded == old(yielded)
        decreases |tree.chain| - pos
      {
        LinksAt(tree.arena, tree.chain, pos);
        if currentIdx < tree.arena[currentLeaf].len {
          item := Some(tree.arena[currentLeaf].slots[currentIdx]);
          Yield(item.value);
          return;
        }
        LeaveLeaf();
      }
      item := None;
      ConsumedAll(tree.arena, tree.chain, pos, currentLeaf, currentIdx, yielded, all);
    }

    method Yield(e: Entry<T, V>)
      requires Valid() && pos < |tree.chain| && currentIdx < |HeldAt(tree.arena, tree.chain[pos])|
      requires e == HeldAt(tree.arena, tree.chain[pos])[currentIdx]
      modifies this, tree`len
      ensures Valid() && yielded == old(yielded) + [e] && |yielded| <= |all| && e == all[|old(yielded)|]
    {
      ConsumingYields(tree.arena, tree.chain, pos, currentLeaf, currentIdx, yielded, all);
      currentIdx, remaining, tree.len, yielded := currentIdx + 1, remaining - 1, tree.len - 1, yielded + [e];
    }

    method LeaveLeaf()
      requires Valid() && pos < |tree.chain| && currentIdx == |HeldAt(tree.arena, tree.chain[pos])|
      modifies this, tree`arena
      ensures Valid() && yielded == old(yielded) && pos == old(pos) + 1
    {
      ConsumingLeaves(tree.arena, tree.chain, pos, currentLeaf, currentIdx, yielded, all);
      var next := tree.arena[currentLeaf].next;
      var arena := tree.arena[currentLeaf := tree.arena[currentLeaf].(len := 0)];
      tree.arena, currentLeaf, currentIdx, pos := arena, next, 0, pos + 1;
    }

    // Takes out what the caller has not: afterwards every entry has been
    // yielded once, and every leaf of the chain is empty.
    method ConsumeRest()
      requires Valid()
      modifies this, tree`arena, tree`len
      ensures Valid() && yielded == all && tree.len == 0
      ensures Emptied(tree.arena, tree.chain, |tree.chain|)
    {
      var item := Next();
      while item.Some?
        invariant Valid()
        invariant item.None? ==> yielded == all && pos == |tree.chain|
        decreases |all| - |yielded|, item.Some?
      {
        item := Next();
      }
    }

    method Drop()
      requires Valid()
      modifies this, tree
      ensures yielded == all
      ensures tree.Valid() && tree.Contents() == [] && tree.root == None
    {
      ConsumeRest();
      tree.Clear();
    }
  }

  // drain().collect(): moves everything out.
  method DrainAll<T(!new), V(!new)>(tree: RawBTree<T, V>) returns (pairs: seq<Entry<T, V>>)
    requires tree.Valid()
    modifies tree
    ensures pairs == old(tree.Contents())
    ensures tree.Valid() && tree.Contents() == [] && tree.root == None
  {
    var drain := new Drain(tree);
    pairs := [];
    while true
      invariant drain.Valid() && drain.tree == tree && fresh(drain)
      invariant drain.all == old(tree.Contents()) && drain.yielded == pairs
      decreases |drain.all| - |pairs|
    {
      var item := drain.Next();
      if item == None {
        break;
      }
      pairs := pairs + [item.value];
    }
    drain.Drop();
  }

  // What dropping the slots [from, len) of a leaf hands to their destructors.
  method DropSlots<T, V>(leaf: LeafOf<T, V>, from: nat) returns (dropped: seq<Entry<T, V>>)
    requires from <= leaf.len <= |leaf.slots|
    ensures dropped == Held(leaf)[from..]
  {
    dropped := [];
    for i := from to leaf.len
      invariant dropped == Held(leaf)[from..i]
    {
      dropped := dropped + [leaf.slots[i]];
    }
  }

  // Drops what is left of one leaf and marks it empty.
  method DropLeaf<T(!new), V(!new)>(tree: RawBTree<T, V>, leafIdx: nat, from: nat, ghost p: nat,
                                    ghost out: seq<Entry<T, V>>, ghost all: seq<Entry<T, V>>)
    returns (log: seq<Entry<T, V>>, next: int)
    requires Consuming(tree.arena, tree.chain, p, leafIdx, from, out, all) && p < |tree.chain|
    modifies tree`arena
    ensures Consuming(tree.arena, tree.chain, p + 1, next, 0, out + log, all)
  {
    LinksAt(tree.arena, tree.chain, p);
    log := DropSlots(tree.arena[leafIdx], from);
    ConsumingTakesRest(tree.arena, tree.chain, p, leafIdx, from, out, all);
    ConsumingLeaves(tree.arena, tree.chain, p, leafIdx, tree.arena[leafIdx].len, out + log, all);
    next := tree.arena[leafIdx].next;
    tree.arena := tree.arena[leafIdx := tree.arena[leafIdx].(len := 0)];
  }

  // Drops leaf by leaf from a position on.
  method DropChain<T(!new), V(!new)>(tree: RawBTree<T, V>, leaf: int, start: nat, ghost pos: nat,
                                     ghost yielded: seq<Entry<T, V>>, ghost all: seq<Entry<T, V>>)
    returns (dropped: seq<Entry<T, V>>)
    requires Consuming(tree.arena, tree.chain, pos, leaf, start, yielded, all)
    modifies tree`arena
    ensures yielded + dropped == all && Emptied(tree.arena, tree.chain, |tree.chain|)
  {
    dropped := [];
    var leafIdx, from := leaf, start;
    ghost var p, out := pos, yielded;
    NothingBehind(yielded);
    while leafIdx != NO_NODE
      invariant out == yielded + dropped
      invariant Consuming(tree.arena, tree.chain, p, leafIdx, from, out, all)
      invariant p <= |tree.chain|
      decreases |tree.chain| - p
    {
      var log, next := DropLeaf(tree, leafIdx, from, p, out, all);
      Assoc(yielded, dropped, log);
      dropped, out := dropped + log, out + log;
      leafIdx, from, p := next, 0, p + 1;
    }
    ConsumedAll(tree.arena, tree.chain, p, leafIdx, from, out, all);
  }

  // The owning iterator.  Dropped entries are logged in the order their destructors run.
  class IntoIter<T(!new), V(!new)> {
    const tree: RawBTree<T, V>
    var currentLeaf: int
    var currentIdx: nat
    // Slots in front of this one have been read out of the current leaf.
    var consumedStart: nat
    var remaining: nat
    ghost const all: seq<Entry<T, V>>
    ghost var yielded: seq<Entry<T, V>>
    ghost var pos: nat

    ghost predicate Valid()
      reads this, tree
    {
      && Consuming(tree.arena, tree.chain, pos, currentLeaf, currentIdx, yielded, all)
      && consumedStart == currentIdx
      && remaining == |all| - |yielded|
      && tree.firstLeaf == NodeAt(tree.chain, 0)
    }

    constructor (tree: RawBTree<T, V>)
      requires tree.Valid()
      ensures Valid() && this.tree == tree && all == tree.Contents() && yielded == []
    {
      this.tree := tree;
      currentLeaf, currentIdx, consumedStart, remaining := tree.firstLeaf, 0, 0, tree.len;
      all, yielded, pos := tree.Contents(), [], 0;
      RestAtStart(tree.arena, tree.chain, 0);
      assert tree.chain[0..] == tree.chain;
    }

    method Next() returns (item: Option<Entry<T, V>>)
      requires Valid()
      modifies this, tree`arena
      ensures Valid()
      ensures item.None? ==> old(yielded) == yielded == all && pos == |tree.chain|
      ensures item.Some? ==> |old(yielded)| < |all| && item.value == all[|old(yielded)|]
                             && yielded == old(yielded) + [item.value]
    {
      while currentLeaf != NO_NODE
        invariant Valid() && yielded == old(yielded)
        decreases |tree.chain| - pos
      {
        LinksAt(tree.arena, tree.chain, pos);
        if currentIdx < tree.arena[currentLeaf].len {
          item := Some(tree.arena[currentLeaf].slots[currentIdx]);
          Yield(item.value);
          return;
        }
        LeaveLeaf();
      }
      item := None;
      ConsumedAll(tree.arena, tree.chain, pos, currentLeaf, currentIdx, yielded, all);
    }

    method Yield(e: Entry<T, V>)
      requires Valid() && pos < |tree.chain| && currentIdx < |HeldAt(tree.arena, tree.chain[pos])|
      requires e == HeldAt(tree.arena, tree.chain[pos])[currentIdx]
      modifies this
      ensures Valid() && yielded == old(yielded) + [e] && |yielded| <= |all| && e == all[|old(yielded)|]
    {
      ConsumingYields(tree.arena, tree.chain, pos, currentLeaf, currentIdx, yielded, all);
      currentIdx, consumedStart, remaining, yielded := currentIdx + 1, currentIdx + 1, remaining - 1, yielded + [e];
    }

    // Marks the leaf that is done or dropped as empty and moves to the next.
    method LeaveLeaf()
      requires Valid() && pos < |tree.chain| && currentIdx == |HeldAt(tree.arena, tree.chain[pos])|
      modifies this, tree`arena
      ensures Valid() && yielded == old(yielded) && pos == old(pos) + 1
    {
      ConsumingLeaves(tree.arena, tree.chain, pos, currentLeaf, currentIdx, yielded, all);
      var next := tree.arena[currentLeaf].next;
      var arena := tree.arena[currentLeaf := tree.arena[currentLeaf].(len := 0)];
      tree.arena, currentLeaf, currentIdx, consumedStart, pos := arena, next, 0, 0, pos + 1;
    }

    // Drops what has not been yielded: the rest of the current leaf, then leaf
    // by leaf.  Every entry has then been yielded or dropped, once, and the
    // tree is left in a state in which its own destructor finds nothing.
    method Drop() returns (dropped: seq<Entry<T, V>>)
      requires Valid()
      modifies tree
      ensures yielded + dropped == all
      ensures tree.root == None && tree.firstLeaf == NO_NODE
      ensures tree.chain == old(tree.chain) && Emptied(tree.arena, tree.chain, |tree.chain|)
    {
      dropped := DropChain(tree, currentLeaf, consumedStart, pos, yielded, all);
      tree.firstLeaf := NO_NODE;
      tree.root := None;
    }
  }

  lemma {:induction false} ConsumingTakesRest<T, V>(arena: seq<LeafOf<T, V>>, chain: seq<nat>, p: nat, leaf: int,
                                                    idx: nat,
                                                   yielded: seq<Entry<T, V>>, all: seq<Entry<T, V>>)
    requires Consuming(arena, chain, p, leaf, idx, yielded, all) && p < |chain|
    ensures Consuming(arena, chain, p, leaf, |HeldAt(arena, chain[p])|, yielded + HeldAt(arena, chain[p])[idx..], all)
  {
    var held, after := HeldAt(arena, chain[p]), Items(arena, chain[p + 1..]);
    NothingBefore(held[|held|..], after);
    Assoc(yielded, held[idx..], after);
  }

  // --- The destructor of the tree itself -------------------------------------

  // The keys in one node, and the separators below its branches.
  function KeysOf<T>(rest: seq<Branch<T>>): seq<Key<T>> {
    if rest == [] then [] else [rest[0].key] + KeysOf(rest[1..])
  }

  lemma {:induction false} SepsOfNode<T>(rest: seq<Branch<T>>, below: multiset<Key<T>>)
    requires below == BelowBranches(rest)
    ensures multiset(BranchSeps(rest)) == multiset(KeysOf(rest)) + below
  {
    if rest != [] {
      SepsOfNode(rest[1..], BelowBranches(rest[1..]));
    }
  }

  ghost function BelowBranches<T>(rest: seq<Branch<T>>): multiset<Key<T>> {
    if rest == [] then multiset{} else multiset(Seps(rest[0].child)) + BelowBranches(rest[1..])
  }

  // Drops the keys of a node, then those below each of its children.
  method DropInternalKeys<T>(n: Node<T>) returns (keys: seq<Key<T>>)
    ensures multiset(keys) == multiset(Seps(n))
    decreases Size(n), 0
  {
    match n {
      case LeafAt(_) => keys := [];
      case Inner(first, rest) =>
        var here := KeysOf(rest);
        var left := DropInternalKeys(first);
        var right := DropBelowBranches(rest);
        SepsOfNode(rest, BelowBranches(rest));
        keys := here + left + right;
    }
  }

  method DropBelowBranches<T>(rest: seq<Branch<T>>) returns (keys: seq<Key<T>>)
    ensures multiset(keys) == BelowBranches(rest)
    decreases Sizes(rest), 1
  {
    if rest == [] {
      return [];
    }
    var here := DropInternalKeys(rest[0].child);
    var more := DropBelowBranches(rest[1..]);
    keys := here + more;
  }

  // Nothing for a tree without a root, otherwise every entry of every leaf on
  // the chain and every separator of the interior.
  method DropAllContents<T(!new), V(!new)>(tree: RawBTree<T, V>) returns (dropped: seq<Entry<T, V>>, keys: seq<Key<T>>)
    requires tree.root == None || tree.Valid()
    ensures dropped == if tree.root == None then [] else tree.Contents()
    ensures multiset(keys) == multiset(tree.Seps())
  {
    dropped, keys := [], [];
    if tree.root == None {
      return;
    }
    ghost var chain, p := tree.chain, 0;
    var leafIdx := tree.firstLeaf;
    assert chain[..0] == [];
    while leafIdx != NO_NODE
      invariant 0 <= p <= |chain| && leafIdx == NodeAt(chain, p)
      invariant dropped == Items(tree.arena, chain[..p])
      decreases |chain| - p
    {
      LinksAt(tree.arena, chain, p);
      ItemsAround(tree.arena, chain, p);
      var log := DropSlots(tree.arena[leafIdx], 0);
      dropped := dropped + log;
      leafIdx, p := tree.arena[leafIdx].next, p + 1;
    }
    assert chain[..p] == chain;
    keys := DropInternalKeys(tree.root.value);
  }

  // Taking any number of entries and then letting go of an IntoIter: each
  // entry of the tree comes out exactly once, in order.  The separators do not:
  // the root is gone when the tree's own destructor runs, so it drops none, and
  // what leaks is every separator the interior held.
  method TakeThenDrop<T(!new), V(!new)>(tree: RawBTree<T, V>, n: nat)
    returns (taken: seq<Entry<T, V>>, dropped: seq<Entry<T, V>>, late: seq<Entry<T, V>>, keys: seq<Key<T>>,
             ghost leaked: multiset<Key<T>>)
    requires tree.Valid()
    modifies tree
    ensures taken + dropped + late == old(tree.Contents())
    ensures |taken| == if n <= |old(tree.Contents())| then n else |old(tree.Contents())|
    ensures late == [] && multiset(keys) + leaked == multiset(old(tree.Seps()))
    ensures keys == [] && leaked == multiset(old(tree.Seps()))
  {
    var it := new IntoIter(tree);
    taken := [];
    for i := 0 to n
      invariant it.Valid() && it.tree == tree && fresh(it)
      invariant it.all == old(tree.Contents()) && it.yielded == taken
      invariant |taken| == if i <= |it.all| then i else |it.all|
    {
      var item := it.Next();
      if item.Some? {
        taken := taken + [item.value];
      }
    }
    dropped := it.Drop();
    late, keys := DropAllContents(tree);
    leaked := multiset(old(tree.Seps())) - multiset(keys);
  }
}
