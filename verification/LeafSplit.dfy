// Inserting an entry into a leaf, and splitting a full leaf in two.

module LeafSplit {
  import opened Seqs
  import opened LeafChain
  import opened SortedEntries
  import opened Interior

  // Slots [pos, len) move one place to the right.
  method ShiftRight<X>(slots: seq<X>, pos: nat, len: nat) returns (shifted: seq<X>)
    requires pos <= len < |slots|
    ensures |shifted| == |slots|
    ensures forall k :: 0 <= k <= pos ==> shifted[k] == slots[k]
    ensures forall k :: pos < k <= len ==> shifted[k] == slots[k - 1]
  {
    shifted := slots;
    var i := len;
    while i > pos
      invariant pos <= i <= len && |shifted| == |slots|
      invariant forall k :: 0 <= k <= i ==> shifted[k] == slots[k]
      invariant forall k :: i < k <= len ==> shifted[k] == slots[k - 1]
    {
      shifted := shifted[i := shifted[i - 1]];
      i := i - 1;
    }
  }

  // Puts an entry at slot pos of a leaf with room, shifting the later ones right.
  method LeafInsertAt<K, V>(before: Leaf<K, V>, pos: nat, e: Slot<K, V>) returns (leaf: Leaf<K, V>)
    requires pos <= before.len <= |before.slots|
    ensures leaf.len == before.len + 1 <= |leaf.slots|
    ensures |leaf.slots| == if before.len < |before.slots| then |before.slots| else before.len + 1
    ensures leaf.prev == before.prev && leaf.next == before.next
    ensures Held(leaf) == Spliced(Held(before), pos, [e])
  {
    var slots := if before.len < |before.slots| then before.slots else before.slots + [e];
    assert Held(before) == slots[..before.len];
    var shifted := ShiftRight(slots, pos, before.len);
    PutIsSplice(slots, pos, before.len, shifted, e);
    leaf := before.(slots := shifted[pos := e], len := before.len + 1);
  }

  lemma {:induction false} PutIsSplice<X>(slots: seq<X>, pos: nat, len: nat, shifted: seq<X>, e: X)
    requires pos <= len < |slots| == |shifted|
    requires forall k :: 0 <= k <= pos ==> shifted[k] == slots[k]
    requires forall k :: pos < k <= len ==> shifted[k] == slots[k - 1]
    ensures shifted[pos := e][..len + 1] == Spliced(slots[..len], pos, [e])
  {
    SplicedIsInsertion(slots[..len], pos, [e]);
    assert slots[..len][..pos] == slots[..pos] && slots[..len][pos..] == slots[pos..len];
  }

  // Splits a full leaf around a new entry: the left half keeps (cap + 1) / 2 entries.
  method LeafSplitAndInsert<K, V>(before: Leaf<K, V>, pos: nat, e: Slot<K, V>, cap: nat)
    returns (left: Leaf<K, V>, right: Leaf<K, V>)
    requires cap >= 1 && before.len == |before.slots| == cap && pos <= cap
    ensures left.len <= |left.slots| <= cap && right.len == |right.slots| <= cap
    ensures left.len == (cap + 1) / 2 && right.len == cap + 1 - (cap + 1) / 2
    ensures left.prev == before.prev
    ensures Held(left) + Held(right) == Spliced(Held(before), pos, [e])
  {
    var mid := (cap + 1) / 2;
    var held := before.slots;
    SplicedIsInsertion(held, pos, [e]);
    assert Held(before) == held;
    if pos < mid {
      left := LeafInsertAt(before.(len := mid - 1), pos, e);
      right := Leaf(cap + 1 - mid, held[mid - 1..], NO_NODE, NO_NODE);
      var front := held[..mid - 1];
      SplicedLeft(front, held[mid - 1..], pos, [e]);
      assert front + held[mid - 1..] == held;
    } else {
      left := before.(len := mid);
      right := Leaf(cap + 1 - mid, held[mid..pos] + [e] + held[pos..], NO_NODE, NO_NODE);
      assert held[..pos] == held[..mid] + held[mid..pos];
      Assoc(held[..mid], held[mid..pos], [e]);
      Assoc(held[..mid], held[mid..pos] + [e], held[pos..]);
    }
  }

  // The arena after leaf c has been split and the new leaf linked in behind it.
  function SplitArena<K, V>(a: seq<Leaf<K, V>>, c: nat, left: Leaf<K, V>, right: Leaf<K, V>): seq<Leaf<K, V>>
    requires c < |a|
  {
    var n, next := |a|, a[c].next;
    var b := a[c := left.(prev := a[c].prev, next := n)] + [right.(prev := c, next := next)];
    if 0 <= next < |a| then b[next := b[next].(prev := n)] else b
  }

  lemma {:induction false} SplitKeepsEntries<K, V>(a: seq<Leaf<K, V>>, c: nat, left: Leaf<K, V>, right: Leaf<K, V>)
    requires c < |a| && a[c].next != c
    ensures var b := SplitArena(a, c, left, right);
            && |b| == |a| + 1
            && HeldAt(b, c) == Held(left) && HeldAt(b, |a|) == Held(right)
            && forall q: nat :: q != c && q != |a| ==> HeldAt(b, q) == HeldAt(a, q)
  {
  }

  // The chain with leaf n put in behind position p.
  function ChainAfter(chain: seq<nat>, p: nat, n: nat): seq<nat>
    requires p < |chain|
  {
    Spliced(chain, p + 1, [n])
  }

  lemma {:induction false} SplicedOne(chain: seq<nat>, p: nat, n: nat)
    requires p < |chain|
    ensures var more := ChainAfter(chain, p, n);
            && |more| == |chain| + 1 && more[p + 1] == n
            && (forall q :: 0 <= q <= p ==> more[q] == chain[q])
            && (forall q :: p + 2 <= q < |more| ==> more[q] == chain[q - 1])
  {
    SplicedIsInsertion(chain, p + 1, [n]);
  }

  lemma {:induction false} SplitStaysDistinct(chain: seq<nat>, p: nat, n: nat)
    requires p < |chain| && Distinct(chain) && n !in chain
    ensures Distinct(ChainAfter(chain, p, n))
  {
    SplicedOne(chain, p, n);
    DistinctHolds(chain);
    DistinctHolds(ChainAfter(chain, p, n));
  }

  lemma {:induction false} SplitStaysLinked<K, V>(a: seq<Leaf<K, V>>, chain: seq<nat>, p: nat, left: Leaf<K, V>,
                                                  right: Leaf<K, V>)
    requires p < |chain| && Distinct(chain) && Links(a, chain, |chain|) && chain[p] < |a|
    requires left.len <= |left.slots| && right.len <= |right.slots|
    ensures a[chain[p]].next != chain[p]
    ensures Links(SplitArena(a, chain[p], left, right), ChainAfter(chain, p, |a|), |chain| + 1)
  {
    var n, c := |a|, chain[p];
    var b, more := SplitArena(a, c, left, right), ChainAfter(chain, p, n);
    SplicedOne(chain, p, n);
    LinksHold(a, chain, |chain|);
    assert LinkedAt(a, chain, p);
    if p + 1 < |chain| {
      DistinctAt(chain, p, p + 1);
    }
    forall q | 0 <= q < |more| ensures LinkedAt(b, more, q) {
      SplitLinkedAt(a, chain, p, left, right, q);
    }
    LinksHold(b, more, |more|);
  }

  lemma {:induction false} SplitLinkedAt<K, V>(a: seq<Leaf<K, V>>, chain: seq<nat>, p: nat, left: Leaf<K, V>,
                                               right: Leaf<K, V>, q: nat)
    requires p < |chain| && Distinct(chain) && Links(a, chain, |chain|) && chain[p] < |a|
    requires left.len <= |left.slots| && right.len <= |right.slots|
    requires q <= |chain|
    ensures |ChainAfter(chain, p, |a|)| == |chain| + 1
    ensures LinkedAt(SplitArena(a, chain[p], left, right), ChainAfter(chain, p, |a|), q)
  {
    SplicedOne(chain, p, |a|);
    LinksAt(a, chain, p);
    if q <= p {
      LinksAt(a, chain, q);
      DistinctAt(chain, q, p);
      if p + 1 < |chain| {
        LinksAt(a, chain, p + 1);
        DistinctAt(chain, q, p + 1);
      }
    } else if q > p + 1 {
      LinksAt(a, chain, q - 1);
      DistinctAt(chain, q - 1, p);
      LinksAt(a, chain, p + 1);
      DistinctAt(chain, q - 1, p + 1);
    }
  }
}
