// Grafting one tree onto the right edge of another: the leaves are copied
// behind the last leaf, and the copied interior is hung into the right spine.

module Graft {
  import opened Wrappers
  import opened Seqs
  import opened LeafChain
  import opened SortedEntries
  import opened Interior
  import opened Descent
  import opened Guides
  import opened Relabel
  import opened RawBTree
  import opened TreeInsert

  // The indices n, n + 1, .. of m newly allocated leaves.
  function Range(n: nat, m: nat): (ids: seq<nat>)
    ensures |ids| == m && forall i :: 0 <= i < m ==> ids[i] == n + i
  {
    if m == 0 then [] else Range(n, m - 1) + [n + m - 1]
  }

  // The chain followed by m newly allocated leaves.
  function Extended(chain: seq<nat>, n: nat, m: nat): seq<nat> {
    chain + Range(n, m)
  }

  lemma {:induction false} ExtendedStart(chain: seq<nat>, n: nat)
    ensures Extended(chain, n, 0) == chain
  {
  }

  lemma {:induction false} ExtendedStep(chain: seq<nat>, n: nat, i: nat, m: nat, id: nat)
    requires m == i + 1 && id == n + i
    ensures Extended(chain, n, m) == Extended(chain, n, i) + [id]
  {
    Assoc(chain, Range(n, i), [id]);
  }

  lemma {:induction false} ExtendedLast(chain: seq<nat>, n: nat, i: nat, last: nat)
    requires chain != [] && last == if i == 0 then chain[|chain| - 1] else n + i - 1
    ensures Extended(chain, n, i)[|Extended(chain, n, i)| - 1] == last
  {
  }

  // --- Leaves ----------------------------------------------------------------

  // The arena with one more leaf, linked in behind the leaf `tail`.
  function WithTail<K, V>(a: seq<Leaf<K, V>>, tail: nat, leaf: Leaf<K, V>): seq<Leaf<K, V>>
    requires tail < |a|
  {
    a[tail := a[tail].(next := |a|)] + [leaf.(prev := tail, next := NO_NODE)]
  }

  // A leaf without its links.
  function BodyAt<K, V>(arena: seq<Leaf<K, V>>, c: nat): Leaf<K, V> {
    if c < |arena| then arena[c].(prev := NO_NODE, next := NO_NODE) else Leaf(0, [], NO_NODE, NO_NODE)
  }

  lemma {:induction false} BodyHolds<K, V>(a: seq<Leaf<K, V>>, c: nat, b: seq<Leaf<K, V>>, d: nat)
    requires BodyAt(a, c) == BodyAt(b, d)
    ensures HeldAt(a, c) == HeldAt(b, d)
    ensures c < |a| && d < |b| ==> a[c].slots == b[d].slots
  {
  }

  lemma {:induction false} TailLinked<K, V>(a: seq<Leaf<K, V>>, chain: seq<nat>, leaf: Leaf<K, V>)
    requires chain != [] && Distinct(chain) && Links(a, chain, |chain|) && leaf.len <= |leaf.slots|
    requires |a| !in chain
    ensures chain[|chain| - 1] < |a|
    ensures var n: nat := |a|; var b, more := WithTail(a, chain[|chain| - 1], leaf), chain + [n];
            && Distinct(more) && Links(b, more, |more|)
            && BodyAt(b, n) == leaf.(prev := NO_NODE, next := NO_NODE)
            && forall c: nat :: c < n ==> BodyAt(b, c) == BodyAt(a, c)
  {
    var n: nat := |a|;
    LinksHold(a, chain, |chain|);
    assert LinkedAt(a, chain, |chain| - 1);
    var tail := chain[|chain| - 1];
    var b, more := WithTail(a, tail, leaf), chain + [n];
    DistinctHolds(chain);
    forall q | 0 <= q < |more| ensures LinkedAt(b, more, q) {
      if q < |chain| {
        assert LinkedAt(a, chain, q);
      }
    }
    LinksHold(b, more, |more|);
    assert n !in chain;
    DistinctHolds(more);
  }

  // The first n leaves of the arena hold what they held.
  ghost predicate Kept<K, V>(a: seq<Leaf<K, V>>, arena: seq<Leaf<K, V>>, n: nat) {
    n == 0 || (BodyAt(arena, n - 1) == BodyAt(a, n - 1) && Kept(a, arena, n - 1))
  }

  // The i leaves from index `base` on hold what the first i of `leaves` hold in b.
  ghost predicate Mirrored<K, V>(arena: seq<Leaf<K, V>>, base: nat, b: seq<Leaf<K, V>>, leaves: seq<nat>, i: nat) {
    i == 0 || (i <= |leaves| && BodyAt(arena, base + i - 1) == BodyAt(b, leaves[i - 1])
               && Mirrored(arena, base, b, leaves, i - 1))
  }

  lemma {:induction false} KeptHolds<K, V>(a: seq<Leaf<K, V>>, arena: seq<Leaf<K, V>>, n: nat)
    ensures Kept(a, arena, n) <==> forall c: nat :: c < n ==> BodyAt(arena, c) == BodyAt(a, c)
  {
    if n > 0 {
      KeptHolds(a, arena, n - 1);
    }
  }

  lemma {:induction false} KeptOn<K, V>(a: seq<Leaf<K, V>>, arena: seq<Leaf<K, V>>, next: seq<Leaf<K, V>>, n: nat)
    requires Kept(a, arena, n) && forall c: nat :: c < n ==> BodyAt(next, c) == BodyAt(arena, c)
    ensures Kept(a, next, n)
  {
    if n > 0 {
      KeptOn(a, arena, next, n - 1);
    }
  }

  lemma {:induction false} MirroredOn<K, V>(arena: seq<Leaf<K, V>>, next: seq<Leaf<K, V>>, base: nat,
                                            b: seq<Leaf<K, V>>,
                                           leaves: seq<nat>, i: nat)
    requires Mirrored(arena, base, b, leaves, i) && forall c: nat :: c < base + i ==>
        BodyAt(next, c) == BodyAt(arena, c)
    ensures Mirrored(next, base, b, leaves, i)
  {
    if i > 0 {
      MirroredOn(arena, next, base, b, leaves, i - 1);
    }
  }

  lemma {:induction false} MirroredAt<K, V>(arena: seq<Leaf<K, V>>, base: nat, b: seq<Leaf<K, V>>, leaves: seq<nat>,
                                            i: nat, j: nat)
    requires Mirrored(arena, base, b, leaves, i) && j < i
    ensures i <= |leaves| && BodyAt(arena, base + j) == BodyAt(b, leaves[j])
    decreases i
  {
    if j + 1 < i {
      MirroredAt(arena, base, b, leaves, i - 1, j);
    }
  }

  // The first i leaves have been copied behind the old arena.
  ghost predicate Copied<K, V>(a: seq<Leaf<K, V>>, arena: seq<Leaf<K, V>>, b: seq<Leaf<K, V>>, leaves: seq<nat>,
                               i: nat) {
    && |arena| == |a| + i
    && Kept(a, arena, |a|)
    && Mirrored(arena, |a|, b, leaves, i)
  }

  lemma {:induction false} CopyStep<K, V>(a: seq<Leaf<K, V>>, arena: seq<Leaf<K, V>>, b: seq<Leaf<K, V>>,
                                          leaves: seq<nat>, i: nat,
                                         chain: seq<nat>, k: nat)
    requires Copied(a, arena, b, leaves, i) && k == i + 1 <= |leaves|
    requires leaves[i] < |b| && b[leaves[i]].len <= |b[leaves[i]].slots|
    requires chain != [] && Distinct(chain) && Links(arena, chain, |chain|)
    ensures chain[|chain| - 1] < |arena|
    ensures var n: nat := |arena|; var next, more := WithTail(arena, chain[|chain| - 1], b[leaves[i]]), chain + [n];
            Copied(a, next, b, leaves, k) && Distinct(more) && Links(next, more, |more|)
  {
    NewIsNew(arena, chain);
    TailLinked(arena, chain, b[leaves[i]]);
    var next := WithTail(arena, chain[|chain| - 1], b[leaves[i]]);
    KeptOn(a, arena, next, |a|);
    MirroredOn(arena, next, |a|, b, leaves, i);
  }

  lemma {:induction false} NewIsNew<K, V>(arena: seq<Leaf<K, V>>, chain: seq<nat>)
    requires Links(arena, chain, |chain|)
    ensures |arena| !in chain
  {
    if |arena| in chain {
      var q :| 0 <= q < |chain| && chain[q] == |arena|;
      LinksAt(arena, chain, q);
    }
  }

  // The leaves are there and hold no more than they have slots.
  ghost predicate Solid<K, V>(b: seq<Leaf<K, V>>, leaves: seq<nat>) {
    forall c :: c in leaves ==> c < |b| && b[c].len <= |b[c].slots|
  }

  lemma {:induction false} LinkedIsSolid<K, V>(b: seq<Leaf<K, V>>, leaves: seq<nat>)
    requires Links(b, leaves, |leaves|)
    ensures Solid(b, leaves)
  {
    forall c | c in leaves ensures c < |b| && b[c].len <= |b[c].slots| {
      var q :| 0 <= q < |leaves| && leaves[q] == c;
      LinksAt(b, leaves, q);
    }
  }

  // The arena with the first i of another tree's leaves copied, one behind the other, after leaf `tail`.
  function CopyOf<K, V>(a: seq<Leaf<K, V>>, tail: nat, b: seq<Leaf<K, V>>, leaves: seq<nat>,
                        i: nat): (arena: seq<Leaf<K, V>>)
    requires i <= |leaves| && tail < |a| && forall j :: 0 <= j < |leaves| ==> leaves[j] < |b|
    ensures |arena| == |a| + i
  {
    if i == 0 then a
    else WithTail(CopyOf(a, tail, b, leaves, i - 1), if i == 1 then tail else |a| + i - 2, b[leaves[i - 1]])
  }

  lemma {:induction false} CopyIsLinked<K, V>(a: seq<Leaf<K, V>>, chain: seq<nat>, b: seq<Leaf<K, V>>,
                                              leaves: seq<nat>, i: nat,
                                             arena: seq<Leaf<K, V>>, all: seq<nat>)
    requires chain != [] && Distinct(chain) && Links(a, chain, |chain|) && chain[|chain| - 1] < |a|
    requires Solid(b, leaves) && i <= |leaves| && forall j :: 0 <= j < |leaves| ==> leaves[j] < |b|
    requires arena == CopyOf(a, chain[|chain| - 1], b, leaves, i) && all == Extended(chain, |a|, i)
    ensures Copied(a, arena, b, leaves, i) && Distinct(all) && Links(arena, all, |all|)
    decreases i
  {
    if i == 0 {
      ExtendedStart(chain, |a|);
      KeptHolds(a, a, |a|);
    } else {
      var h, tail := i - 1, chain[|chain| - 1];
      var before, more := CopyOf(a, tail, b, leaves, h), Extended(chain, |a|, h);
      var last := if h == 0 then tail else |a| + h - 1;
      CopyIsLinked(a, chain, b, leaves, h, before, more);
      CopyLinkStep(a, chain, b, leaves, h, before, more, last, i, arena, all);
    }
  }

  lemma {:induction false} CopyLinkStep<K, V>(a: seq<Leaf<K, V>>, chain: seq<nat>, b: seq<Leaf<K, V>>,
                                              leaves: seq<nat>, h: nat,
                                             before: seq<Leaf<K, V>>, more: seq<nat>, last: nat, i: nat,
                                                 arena: seq<Leaf<K, V>>,
                                             all: seq<nat>)
    requires chain != [] && Solid(b, leaves) && i == h + 1 <= |leaves| && leaves[h] < |b|
    requires Copied(a, before, b, leaves, h) && Distinct(more) && Links(before, more, |more|)
    requires more == Extended(chain, |a|, h) && last == if h == 0 then chain[|chain| - 1] else |a| + h - 1
    requires last < |before| && arena == WithTail(before, last, b[leaves[h]]) && all == Extended(chain, |a|, i)
    ensures Copied(a, arena, b, leaves, i) && Distinct(all) && Links(arena, all, |all|)
  {
    ExtendedStep(chain, |a|, h, i, |before|);
    ExtendedLast(chain, |a|, h, last);
    assert leaves[h] in leaves;
    CopyStep(a, before, b, leaves, h, more, i);
  }

  lemma {:induction false} MirroredItems<T, V>(arena: seq<LeafOf<T, V>>, base: nat, b: seq<LeafOf<T, V>>,
                                               leaves: seq<nat>, i: nat)
    requires Mirrored(arena, base, b, leaves, i) && i <= |leaves|
    ensures Items(arena, Range(base, i)) == Items(b, leaves[..i])
  {
    if i > 0 {
      MirroredItems(arena, base, b, leaves, i - 1);
      var front, c, d: nat := leaves[..i - 1], leaves[i - 1], base + i - 1;
      assert leaves[..i] == front + [c];
      ItemsOfConcat(b, front, [c]);
      ItemsOfConcat(arena, Range(base, i - 1), [d]);
      ItemsOfOne(b, c);
      ItemsOfOne(arena, d);
      BodyHolds(arena, d, b, c);
    }
  }

  // The grafted chain holds the entries of both trees, one after the other.
  lemma {:induction false} GraftContents<T, V>(a: seq<LeafOf<T, V>>, chain: seq<nat>, arena: seq<LeafOf<T, V>>,
                                               b: seq<LeafOf<T, V>>, leaves: seq<nat>)
    requires Copied(a, arena, b, leaves, |leaves|) && forall c :: c in chain ==> c < |a|
    ensures Items(arena, Extended(chain, |a|, |leaves|)) == Items(a, chain) + Items(b, leaves)
  {
    KeptHolds(a, arena, |a|);
    forall c | c in chain ensures HeldAt(arena, c) == HeldAt(a, c) {
      BodyHolds(arena, c, a, c);
    }
    SameItems(arena, a, chain);
    MirroredItems(arena, |a|, b, leaves, |leaves|);
    assert leaves[..|leaves|] == leaves;
    ItemsOfConcat(arena, chain, Range(|a|, |leaves|));
  }

  // --- Interior --------------------------------------------------------------

  // The copy of an interior whose leaves have become next, next + 1, ..
  function Cloned<T>(n: Node<T>, next: nat): Node<T> {
    Relabelled(n, Range(next, |Leaves(n)|))
  }

  lemma {:induction false} ClonedIsSame<T>(n: Node<T>, next: nat, h: nat, cap: nat)
    requires Shaped(n, h, cap)
    ensures Leaves(Cloned(n, next)) == Range(next, |Leaves(n)|)
    ensures Seps(Cloned(n, next)) == Seps(n)
    ensures Shaped(Cloned(n, next), h, cap)
  {
    RelabelledIsSame(n, Range(next, |Leaves(n)|));
    RelabelledShape(n, Range(next, |Leaves(n)|), h, cap);
  }

  // --- Separators ------------------------------------------------------------

  // When the separator between the two halves keeps the whole in order.
  ghost predicate SeparatorFits<T, V>(sepsA: seq<Key<T>>, lastA: seq<Entry<T, V>>, sep: Key<T>,
                                      firstB: seq<Entry<T, V>>, sepsB: seq<Key<T>>) {
    && (sepsA != [] ==> sepsA[|sepsA| - 1].rank <= sep.rank)
    && (sepsB != [] ==> sep.rank <= sepsB[0].rank)
    && Within(lastA, None, Some(sep.rank))
    && Within(firstB, Some(sep.rank), None)
  }

  lemma {:induction false} JoinedOrder<T>(s: seq<Key<T>>, k: Key<T>, t: seq<Key<T>>)
    requires NonDecreasing(s) && NonDecreasing(t)
    ensures NonDecreasing(s + ([k] + t)) <==>
            (s != [] ==> s[|s| - 1].rank <= k.rank) && (t != [] ==> k.rank <= t[0].rank)
  {
    var all := s + ([k] + t);
    NonDecreasingOrdered(s);
    NonDecreasingOrdered(t);
    if NonDecreasing(all) {
      NonDecreasingOrdered(all);
      assert all[|s|] == k;
      assert s != [] ==> all[|s| - 1] == s[|s| - 1];
      assert t != [] ==> all[|s| + 1] == t[0];
    }
    if (s != [] ==> s[|s| - 1].rank <= k.rank) && (t != [] ==> k.rank <= t[0].rank) {
      OrderedIsNonDecreasing(all);
    }
  }

  lemma {:induction false} GraftGuided<T, V>(a: seq<LeafOf<T, V>>, chain: seq<nat>, sepsA: seq<Key<T>>,
                                             arena: seq<LeafOf<T, V>>,
                                            b: seq<LeafOf<T, V>>, leaves: seq<nat>, sepsB: seq<Key<T>>, sep: Key<T>)
    requires Copied(a, arena, b, leaves, |leaves|) && forall c :: c in chain ==> c < |a|
    requires Guided(a, chain, sepsA) && Guided(b, leaves, sepsB)
    ensures chain != [] && leaves != []
    ensures Guided(arena, Extended(chain, |a|, |leaves|), sepsA + ([sep] + sepsB)) <==>
            SeparatorFits(sepsA, HeldAt(a, chain[|chain| - 1]), sep, HeldAt(b, leaves[0]), sepsB)
  {
    var all, seps := Extended(chain, |a|, |leaves|), sepsA + ([sep] + sepsB);
    JoinedOrder(sepsA, sep, sepsB);
    LeavesGuidedHolds(arena, all, seps, |all|);
    GraftGuidedAt(a, chain, sepsA, arena, b, leaves, sepsB, sep, |chain| - 1);
    GraftGuidedAt(a, chain, sepsA, arena, b, leaves, sepsB, sep, |chain|);
    if SeparatorFits(sepsA, HeldAt(a, chain[|chain| - 1]), sep, HeldAt(b, leaves[0]), sepsB) {
      forall p | 0 <= p < |all| ensures GuidedAt(arena, all, seps, p) {
        GraftGuidedAt(a, chain, sepsA, arena, b, leaves, sepsB, sep, p);
      }
    }
  }

  lemma {:induction false} GraftGuidedAt<T, V>(a: seq<LeafOf<T, V>>, chain: seq<nat>, sepsA: seq<Key<T>>,
                                               arena: seq<LeafOf<T, V>>,
                                              b: seq<LeafOf<T, V>>, leaves: seq<nat>, sepsB: seq<Key<T>>,
                                                  sep: Key<T>, p: nat)
    requires Copied(a, arena, b, leaves, |leaves|) && forall c :: c in chain ==> c < |a|
    requires Guided(a, chain, sepsA) && Guided(b, leaves, sepsB) && p < |chain| + |leaves|
    ensures GuidedAt(arena, Extended(chain, |a|, |leaves|), sepsA + ([sep] + sepsB), p) <==>
            (p == |chain| - 1 ==> Within(HeldAt(a, chain[p]), None, Some(sep.rank))) &&
            (p == |chain| ==> Within(HeldAt(b, leaves[0]), Some(sep.rank), None))
  {
    var all, seps := Extended(chain, |a|, |leaves|), sepsA + ([sep] + sepsB);
    JoinedGuides(sepsA, sep, sepsB, p);
    if p < |chain| {
      KeptHolds(a, arena, |a|);
      LeavesGuidedHolds(a, chain, sepsA, |chain|);
      assert GuidedAt(a, chain, sepsA, p);
      assert chain[p] in chain && all[p] == chain[p];
      BodyHolds(arena, chain[p], a, chain[p]);
    } else {
      var j := p - |chain|;
      MirroredAt(arena, |a|, b, leaves, |leaves|, j);
      LeavesGuidedHolds(b, leaves, sepsB, |leaves|);
      assert GuidedAt(b, leaves, sepsB, j);
      assert all[p] == |a| + j;
      BodyHolds(arena, |a| + j, b, leaves[j]);
    }
  }

  lemma {:induction false} JoinedGuides<T>(s: seq<Key<T>>, k: Key<T>, t: seq<Key<T>>, p: nat)
    requires p <= |s| + 1 + |t|
    ensures p <= |s| ==> LowerGuide(s + ([k] + t), p) == LowerGuide(s, p)
    ensures p < |s| ==> UpperGuide(s + ([k] + t), p) == UpperGuide(s, p)
    ensures p == |s| ==> UpperGuide(s + ([k] + t), p) == Some(k.rank)
    ensures p == |s| + 1 ==> LowerGuide(s + ([k] + t), p) == Some(k.rank)
    ensures p > |s| + 1 ==> LowerGuide(s + ([k] + t), p) == LowerGuide(t, p - |s| - 1)
    ensures p > |s| ==> UpperGuide(s + ([k] + t), p) == UpperGuide(t, p - |s| - 1)
  {
  }

  // A separator taken from two halves in order whose touching leaves both hold something fits.
  lemma {:induction false} FullEndsFit<T, V>(a: seq<LeafOf<T, V>>, chain: seq<nat>, sepsA: seq<Key<T>>,
                                            b: seq<LeafOf<T, V>>, leaves: seq<nat>, sepsB: seq<Key<T>>, sep: Key<T>)
    requires Guided(a, chain, sepsA) && Guided(b, leaves, sepsB) && chain != [] && leaves != []
    requires HeldAt(a, chain[|chain| - 1]) != [] && HeldAt(b, leaves[0]) != []
    requires sep == HeldAt(b, leaves[0])[0].key
    requires Ascending(Items(a, chain)) && Ascending(Items(b, leaves)) && AllBelow(Items(a, chain), Items(b, leaves))
    ensures SeparatorFits(sepsA, HeldAt(a, chain[|chain| - 1]), sep, HeldAt(b, leaves[0]), sepsB)
  {
    LastLeafBelow(a, chain, Items(b, leaves));
    HeadOfItems(b, leaves);
    FirstLeafAbove(b, leaves);
    EndSeparators(a, chain, sepsA);
    EndSeparators(b, leaves, sepsB);
    assert HeldAt(a, chain[|chain| - 1])[0] in HeldAt(a, chain[|chain| - 1]);
    assert HeldAt(b, leaves[0])[0] in HeldAt(b, leaves[0]);
  }

  // The keys of the last leaf lie below the first key of any run that the contents lie below.
  lemma {:induction false} LastLeafBelow<T, V>(a: seq<LeafOf<T, V>>, chain: seq<nat>, b: seq<Entry<T, V>>)
    requires chain != [] && b != [] && AllBelow(Items(a, chain), b)
    ensures forall e :: e in HeldAt(a, chain[|chain| - 1]) ==> e.key.rank < b[0].key.rank
  {
    var p := |chain| - 1;
    ItemsAround(a, chain, p);
    assert chain[p + 1..] == [];
    forall e | e in HeldAt(a, chain[p]) ensures e.key.rank < b[0].key.rank {
      BelowHead(Items(a, chain), b, e);
    }
  }

  lemma {:induction false} HeadOfItems<T, V>(b: seq<LeafOf<T, V>>, leaves: seq<nat>)
    requires leaves != [] && HeldAt(b, leaves[0]) != []
    ensures Items(b, leaves) != [] && Items(b, leaves)[0] == HeldAt(b, leaves[0])[0]
  {
  }

  lemma {:induction false} FirstLeafAbove<T, V>(b: seq<LeafOf<T, V>>, leaves: seq<nat>)
    requires leaves != [] && HeldAt(b, leaves[0]) != [] && Ascending(Items(b, leaves))
    ensures forall e :: e in HeldAt(b, leaves[0]) ==> HeldAt(b, leaves[0])[0].key.rank <= e.key.rank
  {
    LeafAscends(b, leaves, 0);
    var held := HeldAt(b, leaves[0]);
    forall e | e in held ensures held[0].key.rank <= e.key.rank {
      RunBounds(held, e);
    }
  }

  // The outermost separators lie around the outermost leaves.
  lemma {:induction false} EndSeparators<T, V>(a: seq<LeafOf<T, V>>, chain: seq<nat>, seps: seq<Key<T>>)
    requires Guided(a, chain, seps)
    ensures chain != []
    ensures seps != [] ==> forall e :: e in HeldAt(a, chain[|chain| - 1]) ==> seps[|seps| - 1].rank <= e.key.rank
    ensures seps != [] ==> forall e :: e in HeldAt(a, chain[0]) ==> e.key.rank < seps[0].rank
  {
    LeavesGuidedHolds(a, chain, seps, |chain|);
    assert GuidedAt(a, chain, seps, 0) && GuidedAt(a, chain, seps, |chain| - 1);
  }

  lemma {:induction false} BelowHead<T, V>(a: seq<Entry<T, V>>, b: seq<Entry<T, V>>, e: Entry<T, V>)
    requires AllBelow(a, b) && b != [] && e in a
    ensures e.key.rank < b[0].key.rank
  {
    var i :| 0 <= i < |a| && a[i] == e;
  }

  // The interior of a tree with another one, whose leaves have become n, n + 1, .., hung into its right edge.
  function GraftedNode<T>(root: Node<T>, height: nat, low: Node<T>, lowHeight: nat, sep: Key<T>, n: nat,
                          cap: nat): Node<T>
    requires Shaped(root, height, cap) && lowHeight <= height && cap >= 1 && |Leaves(root)| > 0
  {
    Regrown(GrowAt(root, height, |Leaves(root)| - 1, lowHeight, sep, Cloned(low, n), cap))
  }

  function GraftedHeight<T>(root: Node<T>, height: nat, low: Node<T>, lowHeight: nat, sep: Key<T>, n: nat,
                            cap: nat): nat
    requires Shaped(root, height, cap) && lowHeight <= height && cap >= 1 && |Leaves(root)| > 0
  {
    if GrowAt(root, height, |Leaves(root)| - 1, lowHeight, sep, Cloned(low, n), cap).Whole? then height else height + 1
  }

  // Both lists of leaves, and both lists of separators with the new one between them.
  lemma {:induction false} GraftedFlat<T>(root: Node<T>, height: nat, low: Node<T>, lowHeight: nat, sep: Key<T>,
                                          n: nat, cap: nat)
    requires Shaped(root, height, cap) && Shaped(low, lowHeight, cap) && lowHeight <= height && cap >= 1
    ensures |Leaves(root)| > 0
    ensures Leaves(GraftedNode(root, height, low, lowHeight, sep, n, cap)) == Extended(Leaves(root), n, |Leaves(low)|)
    ensures Seps(GraftedNode(root, height, low, lowHeight, sep, n, cap)) == Seps(root) + ([sep] + Seps(low))
    ensures Shaped(GraftedNode(root, height, low, lowHeight, sep, n, cap),
                   GraftedHeight(root, height, low, lowHeight, sep, n, cap), cap)
  {
    OneMoreLeaf(root);
    var clone := Cloned(low, n);
    ClonedIsSame(low, n, lowHeight, cap);
    var g := GrowAt(root, height, |Leaves(root)| - 1, lowHeight, sep, clone, cap);
    GrowIsSplice(root, height, |Leaves(root)| - 1, lowHeight, sep, clone, cap);
    RegrownIsFlat(g, height, cap);
    SplicedAtEnd(Leaves(root), Leaves(clone));
    SplicedAtEnd(Seps(root), [sep] + Seps(clone));
  }

  // The root is split exactly when every node above the graft on the right edge is full.
  lemma {:induction false} GraftRaises<T>(root: Node<T>, height: nat, low: Node<T>, lowHeight: nat, sep: Key<T>,
                                          n: nat, cap: nat)
    requires Shaped(root, height, cap) && lowHeight <= height && cap >= 1
    ensures |Leaves(root)| > 0
    ensures GraftedHeight(root, height, low, lowHeight, sep, n, cap)
         == if EdgeFull(root, height, lowHeight, cap) then height + 1 else height
  {
    OneMoreLeaf(root);
    GrowSplits(root, height, |Leaves(root)| - 1, lowHeight, sep, Cloned(low, n), cap);
  }

  lemma {:induction false} RegrownRoutes<T>(g: Grown<T>, r: int, tall: bool)
    ensures RouteBy(Regrown(g), r, tall) == GrownRoute(g, r, tall)
  {
    if g.Halves? {
      ScansAgree(g.left, [Branch(g.key, g.right)], r, tall);
      ChildFromHead(g.left, g.key, g.right, [], r);
      NothingBehind([Branch(g.key, g.right)]);
    }
  }

  // Descents in a copy end in the copy of the leaf they would have ended in.
  lemma {:induction false} ClonedRoutes<T>(low: Node<T>, n: nat, h: nat, cap: nat, r: int)
    requires Shaped(low, h, cap) && NonDecreasing(Seps(low))
    ensures Below(Seps(low), r) < |Leaves(low)| && Route(low, r) == Leaves(low)[Below(Seps(low), r)]
    ensures Route(Cloned(low, n), r) == n + Below(Seps(low), r)
  {
    ClonedIsSame(low, n, h, cap);
    DescentCountsSeparators(low, r);
    DescentCountsSeparators(Cloned(low, n), r);
  }

  // Where a descent of either kind ends after a graft.
  lemma {:induction false} GraftedRoute<T>(root: Node<T>, height: nat, low: Node<T>, lowHeight: nat, sep: Key<T>,
                                           n: nat, cap: nat,
                                           r: int, tall: bool)
    requires Shaped(root, height, cap) && Shaped(low, lowHeight, cap) && lowHeight <= height && cap >= 1
    requires NonDecreasing(Seps(root)) && NonDecreasing(Seps(low))
    ensures |Leaves(root)| > 0
    ensures RouteBy(GraftedNode(root, height, low, lowHeight, sep, n, cap), r, tall)
         == if Enters(root, height, lowHeight, sep, cap, r, tall) then Route(Cloned(low, n), r) else Route(root, r)
  {
    OneMoreLeaf(root);
    var c, clone := |Leaves(root)| - 1, Cloned(low, n);
    ClonedIsSame(low, n, lowHeight, cap);
    RoutesAgree(clone, r, tall);
    GrowRoutes(root, height, c, lowHeight, sep, clone, cap, r, tall);
    RegrownRoutes(GrowAt(root, height, c, lowHeight, sep, clone, cap), r, tall);
  }

  lemma {:induction false} ClonedHolds<T, V>(a: seq<LeafOf<T, V>>, arena: seq<LeafOf<T, V>>, b: seq<LeafOf<T, V>>,
                                             low: Node<T>,
                                            h: nat, cap: nat, r: int)
    requires Shaped(low, h, cap) && NonDecreasing(Seps(low)) && Copied(a, arena, b, Leaves(low), |Leaves(low)|)
    ensures HeldAt(arena, Route(Cloned(low, |a|), r)) == HeldAt(b, Route(low, r))
  {
    ClonedRoutes(low, |a|, h, cap, r);
    var j := Below(Seps(low), r);
    MirroredHeld(arena, |a|, b, Leaves(low), |Leaves(low)|, j, Route(Cloned(low, |a|), r));
  }

  lemma {:induction false} MirroredHeld<K, V>(arena: seq<Leaf<K, V>>, base: nat, b: seq<Leaf<K, V>>, leaves: seq<nat>,
                                              i: nat,
                                             j: nat, c: nat)
    requires Mirrored(arena, base, b, leaves, i) && j < i && c == base + j
    ensures i <= |leaves| && HeldAt(arena, c) == HeldAt(b, leaves[j])
  {
    MirroredAt(arena, base, b, leaves, i, j);
    BodyHolds(arena, c, b, leaves[j]);
  }

  lemma {:induction false} KeptHoldsAt<T, V>(a: seq<LeafOf<T, V>>, arena: seq<LeafOf<T, V>>, root: Node<T>, r: int)
    requires Kept(a, arena, |a|) && forall c :: c in Leaves(root) ==> c < |a|
    ensures HeldAt(arena, Route(root, r)) == HeldAt(a, Route(root, r))
  {
    RouteIsLeaf(root, r);
    KeptHolds(a, arena, |a|);
    BodyHolds(arena, Route(root, r), a, Route(root, r));
  }

  // There, as elsewhere, it comes upon what it would have come upon before.
  lemma {:induction false} GraftedLeaf<T, V>(a: seq<LeafOf<T, V>>, arena: seq<LeafOf<T, V>>, b: seq<LeafOf<T, V>>,
                                             root: Node<T>, height: nat,
                                            low: Node<T>, lowHeight: nat, sep: Key<T>, cap: nat, r: int, tall: bool)
    requires Shaped(root, height, cap) && Shaped(low, lowHeight, cap) && lowHeight <= height && cap >= 1
    requires NonDecreasing(Seps(root)) && NonDecreasing(Seps(low))
    requires Copied(a, arena, b, Leaves(low), |Leaves(low)|) && forall c :: c in Leaves(root) ==> c < |a|
    ensures |Leaves(root)| > 0
    ensures HeldAt(arena, RouteBy(GraftedNode(root, height, low, lowHeight, sep, |a|, cap), r, tall))
         == if Enters(root, height, lowHeight, sep, cap, r, tall) then HeldAt(b, Route(low, r))
             else HeldAt(a, Route(root, r))
  {
    GraftedRoute(root, height, low, lowHeight, sep, |a|, cap, r, tall);
    ClonedHolds(a, arena, b, low, lowHeight, cap, r);
    KeptHoldsAt(a, arena, root, r);
  }

  // Copies another tree's leaves behind those of `tree` and its interior into the right spine.
  method GraftOnto<T(!new), V(!new)>(tree: RawBTree<T, V>, b: seq<LeafOf<T, V>>, low: Node<T>, height: nat, len: nat,
                     sep: Key<T>)
    requires tree.Valid() && tree.root.Some? && height <= tree.height
    requires Links(b, Leaves(low), |Leaves(low)|) && LeavesFit(b, Leaves(low), tree.leafCap)
    requires Shaped(low, height, tree.innerCap) && len == |Items(b, Leaves(low))|
    modifies tree
    ensures tree.Valid() && |Leaves(old(tree.root.value))| > 0
    ensures tree.Contents() == old(tree.Contents()) + Items(b, Leaves(low))
    ensures tree.chain == old(Extended(tree.chain, |tree.arena|, |Leaves(low)|))
    ensures tree.root == Some(old(GraftedNode(tree.root.value, tree.height, low, height, sep, |tree.arena|,
        tree.innerCap)))
    ensures tree.height == old(GraftedHeight(tree.root.value, tree.height, low, height, sep, |tree.arena|,
        tree.innerCap))
    ensures Copied(old(tree.arena), tree.arena, b, Leaves(low), |Leaves(low)|)
  {
    OneMoreLeaf(low);
    var root, leaves, n := tree.root.value, Leaves(low), |tree.arena|;
    GraftedFlat(root, tree.height, low, height, sep, n, tree.innerCap);
    LinkedIsSolid(b, leaves);
    GraftState(tree.arena, tree.chain, b, leaves, tree.leafCap);
    var arena := CopyOf(tree.arena, tree.lastLeaf, b, leaves, |leaves|);
    ghost var chain := Extended(tree.chain, n, |leaves|);
    var node := GraftedNode(root, tree.height, low, height, sep, n, tree.innerCap);
    var tall := GraftedHeight(root, tree.height, low, height, sep, n, tree.innerCap);
    var last, total := n + |leaves| - 1, tree.len + len;
    assert Linked(arena, chain, tree.firstLeaf, last);
    assert total == |Items(arena, chain)|;
    Adopt(tree, arena, chain, node, tall, tree.firstLeaf, last, total);
  }

  ghost predicate FirstSlotReady<T(!new), V(!new)>(tree: RawBTree<T, V>)
    reads tree
  {
    tree.chain != [] && tree.chain[0] < |tree.arena| && tree.arena[tree.chain[0]].slots != []
  }

  // The key in slot 0 of a tree's first leaf, whether the leaf still holds anything or not.
  ghost function FirstSlot<T(!new), V(!new)>(tree: RawBTree<T, V>): Key<T>
    requires FirstSlotReady(tree)
    reads tree
  {
    tree.arena[tree.chain[0]].slots[0].key
  }

  lemma {:induction false} FirstSlotExists<T(!new), V(!new)>(tree: RawBTree<T, V>)
    requires tree.Valid() && tree.root.Some?
    ensures FirstSlotReady(tree)
    ensures tree.firstLeaf == tree.chain[0]
  {
    OneMoreLeaf(tree.root.value);
    FitsBounds(tree.arena, tree.chain, tree.leafCap);
    assert tree.chain[0] in tree.chain;
  }

  // The separator is read from a slot behind the live ones.
  ghost predicate ReadsDeadSlot<T(!new), V(!new)>(tree: RawBTree<T, V>)
    requires FirstSlotReady(tree)
    reads tree
  {
    !(0 < tree.arena[tree.chain[0]].len)
  }

  // That happens exactly when the first leaf holds nothing; otherwise the
  // separator is the least key of the tree.
  lemma {:induction false} DeadSlotWhenEmptied<T(!new), V(!new)>(tree: RawBTree<T, V>)
    requires tree.Valid() && tree.root.Some?
    ensures FirstSlotReady(tree)
    ensures ReadsDeadSlot(tree) <==> HeldAt(tree.arena, tree.chain[0]) == []
    ensures !ReadsDeadSlot(tree) ==> tree.Contents() != [] && FirstSlot(tree) == tree.Contents()[0].key
  {
    FirstSlotExists(tree);
    LinksAt(tree.arena, tree.chain, 0);
    if HeldAt(tree.arena, tree.chain[0]) != [] {
      HeadOfItems(tree.arena, tree.chain);
    }
  }

  lemma {:induction false} ChainBounds<T(!new), V(!new)>(tree: RawBTree<T, V>)
    requires tree.Valid()
    ensures forall c :: c in tree.chain ==> c < |tree.arena|
  {
    FitsBounds(tree.arena, tree.chain, tree.leafCap);
  }

  // Hangs `other` behind `tree` and empties it, unless it is the taller of the
  // two.  The separator is whatever key stands in slot 0 of other's first leaf.
  method AppendGraftDisjoint<T(!new), V(!new)>(tree: RawBTree<T, V>, other: RawBTree<T, V>) returns (ok: bool,
                               ghost sep: Key<T>)
    requires tree != other && tree.Valid() && other.Valid()
    requires tree.root.Some? && other.root.Some?
    requires tree.leafCap == other.leafCap && tree.innerCap == other.innerCap
    modifies tree, other
    ensures tree.Valid() && other.Valid() && tree.root.Some?
    ensures ok <==> old(tree.height) >= old(other.height)
    ensures !ok ==> unchanged(tree) && unchanged(other)
    ensures old(FirstSlotReady(other)) && sep == old(FirstSlot(other))
    ensures ok ==> tree.Contents() == old(tree.Contents()) + old(other.Contents())
    ensures ok ==> other.Contents() == [] && other.root == None
    ensures ok ==> tree.chain == old(Extended(tree.chain, |tree.arena|, |other.chain|))
    ensures ok ==> Copied(old(tree.arena), tree.arena, old(other.arena), old(other.chain), old(|other.chain|))
    ensures old(|Leaves(tree.root.value)|) > 0
    ensures ok ==> tree.root == Some(GraftedNode(old(tree.root.value), old(tree.height), old(other.root.value),
        old(other.height),
                                                 sep, old(|tree.arena|), tree.innerCap))
    ensures ok ==> tree.height == GraftedHeight(old(tree.root.value), old(tree.height), old(other.root.value),
        old(other.height),
                                                sep, old(|tree.arena|), tree.innerCap)
  {
    FirstSlotExists(other);
    OneMoreLeaf(tree.root.value);
    sep := FirstSlot(other);
    ok := tree.height >= other.height;
    if ok {
      var separator := other.arena[other.firstLeaf].slots[0].key;
      GraftOnto(tree, other.arena, other.root.value, other.height, other.len, separator);
      other.Clear();
    }
  }

  // The leaves after a graft.
  lemma {:induction false} GraftState<T, V>(a: seq<LeafOf<T, V>>, chain: seq<nat>, b: seq<LeafOf<T, V>>,
                                            leaves: seq<nat>, cap: nat)
    requires chain != [] && Distinct(chain) && Links(a, chain, |chain|) && LeavesFit(a, chain, cap)
    requires Solid(b, leaves) && LeavesFit(b, leaves, cap)
    ensures chain[|chain| - 1] < |a| && forall j :: 0 <= j < |leaves| ==> leaves[j] < |b|
    ensures var arena, all := CopyOf(a, chain[|chain| - 1], b, leaves, |leaves|), Extended(chain, |a|, |leaves|);
            && Copied(a, arena, b, leaves, |leaves|) && LeavesFit(arena, all, cap)
            && Linked(arena, all, chain[0], if leaves == [] then chain[|chain| - 1] else |a| + |leaves| - 1)
            && Items(arena, all) == Items(a, chain) + Items(b, leaves)
  {
    FitsBounds(a, chain, cap);
    assert chain[|chain| - 1] in chain;
    forall j | 0 <= j < |leaves| ensures leaves[j] < |b| {
      assert leaves[j] in leaves;
    }
    var arena := CopyOf(a, chain[|chain| - 1], b, leaves, |leaves|);
    CopyIsLinked(a, chain, b, leaves, |leaves|, arena, Extended(chain, |a|, |leaves|));
    GraftContents(a, chain, arena, b, leaves);
    GraftFits(a, chain, arena, b, leaves, cap);
  }

  lemma {:induction false} GraftFits<T, V>(a: seq<LeafOf<T, V>>, chain: seq<nat>, arena: seq<LeafOf<T, V>>,
                                           b: seq<LeafOf<T, V>>,
                                          leaves: seq<nat>, cap: nat)
    requires LeavesFit(a, chain, cap) && LeavesFit(b, leaves, cap)
    requires Copied(a, arena, b, leaves, |leaves|)
    ensures LeavesFit(arena, Extended(chain, |a|, |leaves|), cap)
  {
    var all := Extended(chain, |a|, |leaves|);
    LeavesFitHolds(a, chain, cap);
    LeavesFitHolds(b, leaves, cap);
    KeptHolds(a, arena, |a|);
    forall c | c in all ensures c < |arena| && 0 < |arena[c].slots| <= cap {
      if c in chain {
        BodyHolds(arena, c, a, c);
      } else {
        var j :| 0 <= j < |leaves| && Range(|a|, |leaves|)[j] == c;
        MirroredAt(arena, |a|, b, leaves, |leaves|, j);
        assert leaves[j] in leaves;
        BodyHolds(arena, c, b, leaves[j]);
      }
    }
    LeavesFitHolds(arena, all, cap);
  }
}
