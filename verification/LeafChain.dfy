// The doubly linked chain of leaves under a FlatBTree.  A leaf is a fixed
// array of slots of which the first `len` are live; the slots past `len` keep
// whatever they last held.  Leaves are named by their index in the arena, and
// `chain` lists the indices in key order.  Some leaves may be empty.

module LeafChain {
  import opened Seqs

  // Stands for the u32::MAX sentinel.
  const NO_NODE: int := -1

  datatype Slot<+K, +V> = Slot(key: K, val: V)

  datatype Leaf<+K, +V> = Leaf(len: nat, slots: seq<Slot<K, V>>, prev: int, next: int)

  // The live entries of a leaf.
  function Held<K, V>(l: Leaf<K, V>): seq<Slot<K, V>> {
    if l.len <= |l.slots| then l.slots[..l.len] else l.slots
  }

  function HeldAt<K, V>(arena: seq<Leaf<K, V>>, c: nat): seq<Slot<K, V>> {
    if c < |arena| then Held(arena[c]) else []
  }

  // The entries of the leaves listed by `chain`, one after another.
  function Items<K, V>(arena: seq<Leaf<K, V>>, chain: seq<nat>): seq<Slot<K, V>> {
    if chain == [] then [] else HeldAt(arena, chain[0]) + Items(arena, chain[1..])
  }

  // How many entries lie before the leaf at position p of the chain.
  function Offset<K, V>(arena: seq<Leaf<K, V>>, chain: seq<nat>, p: nat): nat
    requires p <= |chain|
  {
    |Items(arena, chain[..p])|
  }

  function NodeAt(chain: seq<nat>, p: int): int {
    if 0 <= p < |chain| then chain[p] else NO_NODE
  }

  ghost predicate LinkedAt<K, V>(arena: seq<Leaf<K, V>>, chain: seq<nat>, p: nat)
    requires p < |chain|
  {
    && chain[p] < |arena|
    && arena[chain[p]].len <= |arena[chain[p]].slots|
    && arena[chain[p]].next == NodeAt(chain, p + 1)
    && arena[chain[p]].prev == NodeAt(chain, p - 1)
  }

  // The first n leaves of the chain are linked in order.
  ghost predicate Links<K, V>(arena: seq<Leaf<K, V>>, chain: seq<nat>, n: nat) {
    n == 0 || (n <= |chain| && LinkedAt(arena, chain, n - 1) && Links(arena, chain, n - 1))
  }

  // The leaves of `chain` are linked in that order, and first and last name its ends.
  ghost predicate Linked<K, V>(arena: seq<Leaf<K, V>>, chain: seq<nat>, first: int, last: int) {
    && first == NodeAt(chain, 0)
    && last == NodeAt(chain, |chain| - 1)
    && Distinct(chain)
    && Links(arena, chain, |chain|)
  }

  lemma {:induction false} LinksHold<K, V>(arena: seq<Leaf<K, V>>, chain: seq<nat>, n: nat)
    ensures Links(arena, chain, n) <==> n <= |chain| && forall p :: 0 <= p < n ==> LinkedAt(arena, chain, p)
  {
    if n > 0 {
      LinksHold(arena, chain, n - 1);
    }
  }

  lemma {:induction false} LinksAt<K, V>(arena: seq<Leaf<K, V>>, chain: seq<nat>, p: nat)
    requires Links(arena, chain, |chain|) && p < |chain|
    ensures LinkedAt(arena, chain, p)
  {
    LinksHold(arena, chain, |chain|);
  }

  lemma {:induction false} ItemsOfConcat<K, V>(arena: seq<Leaf<K, V>>, a: seq<nat>, b: seq<nat>)
    ensures Items(arena, a + b) == Items(arena, a) + Items(arena, b)
  {
    if a == [] {
      NothingBefore(a, b);
      NothingBefore(Items(arena, a), Items(arena, b));
    } else {
      TailOfConcat(a, b);
      ItemsOfConcat(arena, a[1..], b);
      Assoc(HeldAt(arena, a[0]), Items(arena, a[1..]), Items(arena, b));
    }
  }

  lemma {:induction false} ItemsOfOne<K, V>(arena: seq<Leaf<K, V>>, c: nat)
    ensures Items(arena, [c]) == HeldAt(arena, c)
  {
  }

  // The leaf at position p contributes exactly the entries from its offset on.
  lemma {:induction false} ItemsAround<K, V>(arena: seq<Leaf<K, V>>, chain: seq<nat>, p: nat)
    requires p < |chain|
    ensures Items(arena, chain[..p + 1]) == Items(arena, chain[..p]) + HeldAt(arena, chain[p])
    ensures Items(arena, chain[p..]) == HeldAt(arena, chain[p]) + Items(arena, chain[p + 1..])
    ensures Items(arena, chain) == Items(arena, chain[..p]) + Items(arena, chain[p..])
    ensures Items(arena, chain) == Items(arena, chain[..p + 1]) + Items(arena, chain[p + 1..])
  {
    var here, before, after := [chain[p]], chain[..p], chain[p + 1..];
    assert chain[..p + 1] == before + here && chain[p..] == here + after;
    assert chain == before + chain[p..];
    ItemsOfOne(arena, chain[p]);
    ItemsOfConcat(arena, before, here);
    ItemsOfConcat(arena, here, after);
    ItemsOfConcat(arena, before, chain[p..]);
    Assoc(Items(arena, before), HeldAt(arena, chain[p]), Items(arena, after));
  }

  lemma {:induction false} ItemAt<K, V>(arena: seq<Leaf<K, V>>, chain: seq<nat>, p: nat, i: nat)
    requires p < |chain| && i < |HeldAt(arena, chain[p])|
    ensures Offset(arena, chain, p) + i < |Items(arena, chain)|
    ensures Items(arena, chain)[Offset(arena, chain, p) + i] == HeldAt(arena, chain[p])[i]
  {
    ItemsAround(arena, chain, p);
    var before, held, after := Items(arena, chain[..p]), HeldAt(arena, chain[p]), Items(arena, chain[p + 1..]);
    assert Items(arena, chain) == before + (held + after);
  }

  lemma {:induction false} OffsetStep<K, V>(arena: seq<Leaf<K, V>>, chain: seq<nat>, p: nat)
    requires p < |chain|
    ensures Offset(arena, chain, p + 1) == Offset(arena, chain, p) + |HeldAt(arena, chain[p])|
    ensures Offset(arena, chain, p + 1) <= |Items(arena, chain)|
  {
    ItemsAround(arena, chain, p);
  }

  lemma {:induction false} OffsetEnds<K, V>(arena: seq<Leaf<K, V>>, chain: seq<nat>)
    ensures Offset(arena, chain, 0) == 0
    ensures Offset(arena, chain, |chain|) == |Items(arena, chain)|
  {
    assert chain[..|chain|] == chain;
  }

  // Leaves that hold the same entries give the same contents.
  lemma {:induction false} SameItems<K, V>(a: seq<Leaf<K, V>>, b: seq<Leaf<K, V>>, chain: seq<nat>)
    requires forall c :: c in chain ==> HeldAt(a, c) == HeldAt(b, c)
    ensures Items(a, chain) == Items(b, chain)
  {
    if chain != [] {
      assert HeldAt(a, chain[0]) == HeldAt(b, chain[0]);
      SameItems(a, b, chain[1..]);
    }
  }

  // Changing the leaf at one position leaves the entries before and after it alone.
  lemma {:induction false} ItemsElsewhere<K, V>(a: seq<Leaf<K, V>>, b: seq<Leaf<K, V>>, chain: seq<nat>, p: nat)
    requires p < |chain| && Distinct(chain)
    requires forall c: nat :: c != chain[p] ==> HeldAt(a, c) == HeldAt(b, c)
    ensures Items(a, chain[..p]) == Items(b, chain[..p])
    ensures Items(a, chain[p + 1..]) == Items(b, chain[p + 1..])
  {
    DistinctHolds(chain);
    SameItems(a, b, chain[..p]);
    SameItems(a, b, chain[p + 1..]);
  }

  // Editing one leaf in place, its links untouched, leaves the chain and the other leaves as they were.
  lemma {:induction false} LeafEdited<K, V>(a: seq<Leaf<K, V>>, chain: seq<nat>, p: nat, leaf: Leaf<K, V>)
    requires p < |chain| && Distinct(chain) && Links(a, chain, |chain|)
    requires chain[p] < |a| && leaf.len <= |leaf.slots|
    requires leaf.next == a[chain[p]].next && leaf.prev == a[chain[p]].prev
    ensures Links(a[chain[p] := leaf], chain, |chain|)
    ensures Items(a[chain[p] := leaf], chain[..p]) == Items(a, chain[..p])
    ensures Items(a[chain[p] := leaf], chain[p + 1..]) == Items(a, chain[p + 1..])
    ensures HeldAt(a[chain[p] := leaf], chain[p]) == Held(leaf)
  {
    var b := a[chain[p] := leaf];
    LinksHold(a, chain, |chain|);
    forall q | 0 <= q < |chain| ensures LinkedAt(b, chain, q) {
      assert LinkedAt(a, chain, q);
    }
    LinksHold(b, chain, |chain|);
    ItemsElsewhere(a, b, chain, p);
  }

  lemma {:induction false} EditedLength<K, V>(a: seq<Leaf<K, V>>, chain: seq<nat>, p: nat, leaf: Leaf<K, V>)
    requires p < |chain| && Distinct(chain) && Links(a, chain, |chain|)
    requires chain[p] < |a| && leaf.len <= |leaf.slots|
    requires leaf.next == a[chain[p]].next && leaf.prev == a[chain[p]].prev
    ensures |Items(a[chain[p] := leaf], chain)| == |Items(a, chain)| - |HeldAt(a, chain[p])| + leaf.len
  {
    LeafEdited(a, chain, p, leaf);
    ItemsAround(a, chain, p);
    ItemsAround(a[chain[p] := leaf], chain, p);
  }
}
