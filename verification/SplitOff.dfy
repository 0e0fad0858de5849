// Splitting a tree at a key by surgery: one part stays in its arena, the other
// is copied into a fresh one.  Either part can be the one that is copied.

module SplitOff {
  import opened Wrappers
  import opened Seqs
  import opened LeafChain
  import opened SortedEntries
  import opened Interior
  import opened Descent
  import opened Guides
  import opened Relabel
  import opened Surgery
  import opened RawBTree
  import TreeInsert
  import opened Graft

  // --- What the two parts hold -----------------------------------------------

  // The leaves of the one list hold what those of the other hold.
  ghost predicate Same<T, V>(b: seq<LeafOf<T, V>>, ids: seq<nat>, a: seq<LeafOf<T, V>>, chain: seq<nat>) {
    |ids| == |chain| && forall q :: 0 <= q < |ids| ==> HeldAt(b, ids[q]) == HeldAt(a, chain[q])
  }

  lemma {:induction false} SameHaveSameItems<T, V>(b: seq<LeafOf<T, V>>, ids: seq<nat>, a: seq<LeafOf<T, V>>,
                                                   chain: seq<nat>)
    requires Same(b, ids, a, chain)
    ensures Items(b, ids) == Items(a, chain)
  {
    if ids != [] {
      assert HeldAt(b, ids[0]) == HeldAt(a, chain[0]);
      SameHaveSameItems(b, ids[1..], a, chain[1..]);
    }
  }

  // How many leaves lie left of slot i of the leaf at position p, that leaf
  // counted if it keeps anything there.
  function LeftCount(p: nat, i: nat): nat {
    if i > 0 then p + 1 else p
  }

  // The leaves left of the cut at slot i of the leaf at position p.
  ghost predicate LeftPart<T, V>(b: seq<LeafOf<T, V>>, ids: seq<nat>, a: seq<LeafOf<T, V>>, chain: seq<nat>, p: nat,
                                 i: nat) {
    && p < |chain| && i <= |HeldAt(a, chain[p])|
    && |ids| == LeftCount(p, i)
    && Same(b, ids[..p], a, chain[..p])
    && (i > 0 ==> HeldAt(b, ids[p]) == HeldAt(a, chain[p])[..i])
  }

  ghost predicate RightPart<T, V>(b: seq<LeafOf<T, V>>, ids: seq<nat>, a: seq<LeafOf<T, V>>, chain: seq<nat>, p: nat,
                                  i: nat) {
    && p < |chain| && i <= |HeldAt(a, chain[p])|
    && |ids| == |chain| - p
    && HeldAt(b, ids[0]) == HeldAt(a, chain[p])[i..]
    && Same(b, ids[1..], a, chain[p + 1..])
  }

  // The parts of the entries in front of the cut and behind it.
  lemma {:induction false} CutItems<T, V>(a: seq<LeafOf<T, V>>, chain: seq<nat>, p: nat, i: nat)
    requires p < |chain| && i <= |HeldAt(a, chain[p])|
    ensures var all, k := Items(a, chain), Offset(a, chain, p) + i;
            && k <= |all|
            && all[..k] == Items(a, chain[..p]) + HeldAt(a, chain[p])[..i]
            && all[k..] == HeldAt(a, chain[p])[i..] + Items(a, chain[p + 1..])
  {
    ItemsAround(a, chain, p);
    var before, held, after := Items(a, chain[..p]), HeldAt(a, chain[p]), Items(a, chain[p + 1..]);
    FirstOfThree(before, held, after, i, |before| + i);
    RestOfThree(before, held, after, i, |before| + i);
  }

  lemma {:induction false} FirstOfThree<X>(before: seq<X>, held: seq<X>, after: seq<X>, i: nat, k: nat)
    requires i <= |held| && k == |before| + i
    ensures (before + (held + after))[..k] == before + held[..i]
  {
  }

  lemma {:induction false} RestOfThree<X>(before: seq<X>, held: seq<X>, after: seq<X>, i: nat, k: nat)
    requires i <= |held| && k == |before| + i
    ensures (before + (held + after))[k..] == held[i..] + after
  {
  }

  lemma {:induction false} LeftPartItems<T, V>(b: seq<LeafOf<T, V>>, ids: seq<nat>, a: seq<LeafOf<T, V>>,
                                               chain: seq<nat>, p: nat, i: nat)
    requires LeftPart(b, ids, a, chain, p, i)
    ensures Items(b, ids) == Items(a, chain[..p]) + HeldAt(a, chain[p])[..i]
  {
    SameHaveSameItems(b, ids[..p], a, chain[..p]);
    if i > 0 {
      assert ids == ids[..p] + [ids[p]];
      ItemsOfConcat(b, ids[..p], [ids[p]]);
      ItemsOfOne(b, ids[p]);
    } else {
      assert ids == ids[..p];
      NothingBehind(Items(b, ids));
    }
  }

  lemma {:induction false} RightPartItems<T, V>(b: seq<LeafOf<T, V>>, ids: seq<nat>, a: seq<LeafOf<T, V>>,
                                                chain: seq<nat>, p: nat, i: nat)
    requires RightPart(b, ids, a, chain, p, i)
    ensures Items(b, ids) == HeldAt(a, chain[p])[i..] + Items(a, chain[p + 1..])
  {
    SameHaveSameItems(b, ids[1..], a, chain[p + 1..]);
  }

  // A leaf that holds some of what another one did keeps between the same separators.
  lemma {:induction false} PartGuidedAt<T, V>(a: seq<LeafOf<T, V>>, chain: seq<nat>, seps: seq<Key<T>>, at: nat,
                                             b: seq<LeafOf<T, V>>, ids: seq<nat>, some: seq<Key<T>>, q: nat)
    requires at < |chain| && q < |ids| && GuidedAt(a, chain, seps, at)
    requires forall e :: e in HeldAt(b, ids[q]) ==> e in HeldAt(a, chain[at])
    requires LowerGuide(some, q) == None || LowerGuide(some, q) == LowerGuide(seps, at)
    requires UpperGuide(some, q) == None || UpperGuide(some, q) == UpperGuide(seps, at)
    ensures GuidedAt(b, ids, some, q)
  {
  }

  lemma {:induction false} PartOrdered<T>(seps: seq<Key<T>>, lo: nat, hi: nat)
    requires NonDecreasing(seps) && lo <= hi <= |seps|
    ensures NonDecreasing(seps[lo..hi])
  {
    NonDecreasingOrdered(seps);
    OrderedIsNonDecreasing(seps[lo..hi]);
  }

  // Separators keep guiding a part of the leaves they guided.
  lemma {:induction false} LeftPartGuided<T, V>(b: seq<LeafOf<T, V>>, ids: seq<nat>, a: seq<LeafOf<T, V>>,
                                                chain: seq<nat>, seps: seq<Key<T>>,
                                               p: nat, i: nat)
    requires LeftPart(b, ids, a, chain, p, i) && ids != [] && Guided(a, chain, seps)
    ensures Guided(b, ids, seps[..|ids| - 1])
  {
    var some := seps[0..|ids| - 1];
    PartOrdered(seps, 0, |ids| - 1);
    forall q | 0 <= q < |ids| ensures GuidedAt(b, ids, some, q) {
      GuidedHasAt(a, chain, seps, q);
      LeftPartGuidedAt(b, ids, a, chain, seps, p, i, q, some);
    }
    LeavesGuidedHolds(b, ids, some, |ids|);
  }

  lemma {:induction false} LeftPartGuidedAt<T, V>(b: seq<LeafOf<T, V>>, ids: seq<nat>, a: seq<LeafOf<T, V>>,
                                                  chain: seq<nat>,
                                                 seps: seq<Key<T>>, p: nat, i: nat, q: nat, some: seq<Key<T>>)
    requires LeftPart(b, ids, a, chain, p, i) && q < |ids| && |ids| - 1 <= |seps|
    requires some == seps[0..|ids| - 1] && GuidedAt(a, chain, seps, q)
    ensures GuidedAt(b, ids, some, q)
  {
    assert q < p ==> ids[..p][q] == ids[q] && chain[..p][q] == chain[q];
    PartGuidedAt(a, chain, seps, q, b, ids, some, q);
  }

  lemma {:induction false} RightPartGuided<T, V>(b: seq<LeafOf<T, V>>, ids: seq<nat>, a: seq<LeafOf<T, V>>,
                                                 chain: seq<nat>, seps: seq<Key<T>>,
                                                p: nat, i: nat)
    requires RightPart(b, ids, a, chain, p, i) && Guided(a, chain, seps)
    ensures Guided(b, ids, seps[p..])
  {
    var some := seps[p..|seps|];
    assert some == seps[p..];
    PartOrdered(seps, p, |seps|);
    forall q | 0 <= q < |ids| ensures GuidedAt(b, ids, some, q) {
      RightPartStep(b, ids, a, chain, seps, p, i, q, some);
    }
    LeavesGuidedHolds(b, ids, some, |ids|);
  }

  lemma {:induction false} RightPartAt<T, V>(b: seq<LeafOf<T, V>>, ids: seq<nat>, a: seq<LeafOf<T, V>>,
                                             chain: seq<nat>, p: nat, i: nat,
                                            q: nat, at: nat)
    requires RightPart(b, ids, a, chain, p, i) && q < |ids| && at == p + q
    ensures at < |chain| && forall e :: e in HeldAt(b, ids[q]) ==> e in HeldAt(a, chain[at])
  {
    if q > 0 {
      var k := q - 1;
      assert HeldAt(b, ids[1..][k]) == HeldAt(a, chain[p + 1..][k]);
      assert ids[1..][k] == ids[q] && chain[p + 1..][k] == chain[at];
    }
  }

  lemma {:induction false} RightPartGuidedAt<T, V>(b: seq<LeafOf<T, V>>, ids: seq<nat>, a: seq<LeafOf<T, V>>,
                                                   chain: seq<nat>,
                                                  seps: seq<Key<T>>, p: nat, q: nat, at: nat, some: seq<Key<T>>)
    requires q < |ids| && at == p + q < |chain| && forall e :: e in HeldAt(b, ids[q]) ==> e in HeldAt(a, chain[at])
    requires p <= |seps| && some == seps[p..|seps|] && Guided(a, chain, seps)
    ensures GuidedAt(b, ids, some, q)
  {
    GuidedHasAt(a, chain, seps, at);
    GuidesBehind(seps, p, some, q, at);
    PartGuidedAt(a, chain, seps, at, b, ids, some, q);
  }

  lemma {:induction false} RightPartStep<T, V>(b: seq<LeafOf<T, V>>, ids: seq<nat>, a: seq<LeafOf<T, V>>,
                                               chain: seq<nat>,
                                              seps: seq<Key<T>>, p: nat, i: nat, q: nat, some: seq<Key<T>>)
    requires RightPart(b, ids, a, chain, p, i) && Guided(a, chain, seps) && q < |ids| && p <= |seps| &&
        some == seps[p..|seps|]
    ensures GuidedAt(b, ids, some, q)
  {
    var at := p + q;
    RightPartAt(b, ids, a, chain, p, i, q, at);
    RightPartGuidedAt(b, ids, a, chain, seps, p, q, at, some);
  }

  lemma {:induction false} GuidedHasAt<T, V>(a: seq<LeafOf<T, V>>, chain: seq<nat>, seps: seq<Key<T>>, at: nat)
    requires Guided(a, chain, seps) && at < |chain|
    ensures GuidedAt(a, chain, seps, at)
  {
    LeavesGuidedHolds(a, chain, seps, |chain|);
  }

  lemma {:induction false} GuidesBehind<T>(seps: seq<Key<T>>, p: nat, some: seq<Key<T>>, q: nat, at: nat)
    requires p <= |seps| && some == seps[p..|seps|] && at == p + q <= |seps|
    ensures LowerGuide(some, q) == None || LowerGuide(some, q) == LowerGuide(seps, at)
    ensures UpperGuide(some, q) == UpperGuide(seps, at)
  {
  }

  // --- The part that stays ---------------------------------------------------

  // The leaf keeps its first n entries and becomes the last.
  function Ended<K, V>(a: seq<Leaf<K, V>>, c: nat, n: nat): seq<Leaf<K, V>>
    requires c < |a|
  {
    a[c := a[c].(len := n, next := NO_NODE)]
  }

  // The leaf gives up its first i entries, the others move to the front, and it becomes the first.
  function Begun<K, V>(a: seq<Leaf<K, V>>, c: nat, i: nat): seq<Leaf<K, V>>
    requires c < |a| && i <= a[c].len <= |a[c].slots|
  {
    var l := a[c];
    a[c := l.(len := l.len - i, slots := l.slots[i..l.len] + l.slots[l.len - i..], prev := NO_NODE)]
  }

  lemma {:induction false} EndedIsLinked<K, V>(a: seq<Leaf<K, V>>, chain: seq<nat>, m: nat, n: nat)
    requires Distinct(chain) && Links(a, chain, |chain|) && 1 <= m <= |chain|
    requires chain[m - 1] < |a| && n <= |a[chain[m - 1]].slots|
    ensures Linked(Ended(a, chain[m - 1], n), chain[..m], chain[0], chain[m - 1])
  {
    var b, kept := Ended(a, chain[m - 1], n), chain[..m];
    DistinctHolds(chain);
    DistinctHolds(kept);
    LinksHold(a, chain, |chain|);
    forall q | 0 <= q < m ensures LinkedAt(b, kept, q) {
      assert LinkedAt(a, chain, q);
    }
    LinksHold(b, kept, m);
  }

  lemma {:induction false} BegunIsLinked<K, V>(a: seq<Leaf<K, V>>, chain: seq<nat>, p: nat, i: nat)
    requires Distinct(chain) && Links(a, chain, |chain|) && p < |chain|
    requires chain[p] < |a| && i <= a[chain[p]].len <= |a[chain[p]].slots|
    ensures Linked(Begun(a, chain[p], i), chain[p..], chain[p], chain[|chain| - 1])
  {
    var b, kept := Begun(a, chain[p], i), chain[p..];
    DistinctHolds(chain);
    DistinctHolds(kept);
    LinksHold(a, chain, |chain|);
    forall q | 0 <= q < |kept| ensures LinkedAt(b, kept, q) {
      assert LinkedAt(a, chain, p + q);
    }
    LinksHold(b, kept, |kept|);
  }

  lemma {:induction false} OthersSame<T, V>(a: seq<LeafOf<T, V>>, b: seq<LeafOf<T, V>>, chain: seq<nat>, c: nat)
    requires c !in chain && forall d: nat :: d != c ==> HeldAt(b, d) == HeldAt(a, d)
    ensures Same(b, chain, a, chain)
  {
  }

  // How many entries of the last leaf stay.
  function LastLen<K, V>(a: seq<Leaf<K, V>>, chain: seq<nat>, p: nat, i: nat): nat
    requires p < |chain| && LeftCount(p, i) > 0 && chain[LeftCount(p, i) - 1] < |a|
  {
    if i > 0 then i else a[chain[p - 1]].len
  }

  lemma {:induction false} EndedIsLeftPart<T, V>(a: seq<LeafOf<T, V>>, chain: seq<nat>, p: nat, i: nat, m: nat, n: nat)
    requires Distinct(chain) && Links(a, chain, |chain|) && p < |chain| && i <= |HeldAt(a, chain[p])|
    requires m == LeftCount(p, i) > 0 && chain[m - 1] < |a| && n == LastLen(a, chain, p, i)
    ensures n <= |a[chain[m - 1]].slots|
    ensures LeftPart(Ended(a, chain[m - 1], n), chain[..m], a, chain, p, i)
  {
    var c := chain[m - 1];
    LinksAt(a, chain, m - 1);
    var b := Ended(a, c, n);
    DistinctHolds(chain);
    assert chain[..m][..p] == chain[..p];
    if i > 0 {
      OthersSame(a, b, chain[..p], c);
      assert HeldAt(b, c) == HeldAt(a, c)[..i];
    } else {
      assert HeldAt(b, c) == HeldAt(a, c);
    }
  }

  lemma {:induction false} BegunHolds<K, V>(a: seq<Leaf<K, V>>, c: nat, i: nat)
    requires c < |a| && i <= a[c].len <= |a[c].slots|
    ensures HeldAt(Begun(a, c, i), c) == HeldAt(a, c)[i..]
    ensures forall d: nat :: d != c ==> HeldAt(Begun(a, c, i), d) == HeldAt(a, d)
  {
    MovedToFront(a[c].slots, i, a[c].len);
  }

  lemma {:induction false} MovedToFront<X>(slots: seq<X>, i: nat, n: nat)
    requires i <= n <= |slots|
    ensures (slots[i..n] + slots[n - i..])[..n - i] == slots[..n][i..]
  {
  }

  lemma {:induction false} BegunIsRightPart<T, V>(a: seq<LeafOf<T, V>>, chain: seq<nat>, p: nat, i: nat,
                                                  b: seq<LeafOf<T, V>>)
    requires Distinct(chain) && p < |chain| && i <= |HeldAt(a, chain[p])|
    requires chain[p] < |a| && a[chain[p]].len <= |a[chain[p]].slots| && b == Begun(a, chain[p], i)
    ensures RightPart(b, chain[p..], a, chain, p, i)
  {
    BegunHolds(a, chain[p], i);
    DistinctTail(chain, p);
    OthersSame(a, b, chain[p + 1..], chain[p]);
    assert chain[p..][1..] == chain[p + 1..];
  }

  lemma {:induction false} KeptFit<T, V>(a: seq<LeafOf<T, V>>, b: seq<LeafOf<T, V>>, chain: seq<nat>, some: seq<nat>,
                                         cap: nat)
    requires LeavesFit(a, chain, cap) && |a| == |b|
    requires forall c :: 0 <= c < |a| ==> |b[c].slots| == |a[c].slots|
    requires forall c :: c in some ==> c in chain
    ensures LeavesFit(b, some, cap)
  {
    LeavesFitHolds(a, chain, cap);
    LeavesFitHolds(b, some, cap);
  }

  // --- The right part, copied ------------------------------------------------

  // The boundary leaf's share of a copy; a whole leaf is copied with its dead slots.
  function Head<K, V>(l: Leaf<K, V>, i: nat): Leaf<K, V>
    requires i <= l.len <= |l.slots|
  {
    Leaf(l.len - i, if i == 0 then l.slots else l.slots[i..l.len], NO_NODE, NO_NODE)
  }

  // A fresh arena with the boundary leaf's share and, one behind the other, the leaves that follow.
  function RightCopy<K, V>(a: seq<Leaf<K, V>>, c: nat, i: nat, later: seq<nat>): seq<Leaf<K, V>>
    requires c < |a| && i <= a[c].len <= |a[c].slots| && forall j :: 0 <= j < |later| ==> later[j] < |a|
  {
    CopyOf([Head(a[c], i)], 0, a, later, |later|)
  }

  lemma {:induction false} OneLeafLinked<K, V>(l: Leaf<K, V>)
    requires l.len <= |l.slots| && l.prev == NO_NODE && l.next == NO_NODE
    ensures Distinct<nat>([0]) && Links([l], [0], 1)
  {
    assert LinkedAt([l], [0], 0);
    assert Links([l], [0], 0);
  }

  lemma {:induction false} RightCopyIsRightPart<T, V>(a: seq<LeafOf<T, V>>, chain: seq<nat>, p: nat, i: nat,
                                                      later: seq<nat>, cap: nat,
                                                     ids: seq<nat>)
    requires Links(a, chain, |chain|) && LeavesFit(a, chain, cap) && p < |chain| && i < |HeldAt(a, chain[p])|
    requires chain[p] < |a| && a[chain[p]].len <= |a[chain[p]].slots|
    requires later == chain[p + 1..] && ids == Extended([0], 1, |later|)
    ensures forall j :: 0 <= j < |later| ==> later[j] < |a|
    ensures var b := RightCopy(a, chain[p], i, later);
            RightPart(b, ids, a, chain, p, i) && LeavesFit(b, ids, cap) && Linked(b, ids, 0, ids[|ids| - 1])
  {
    var head := Head(a[chain[p]], i);
    LinkedIsSolid(a, chain);
    LaterFits(a, chain, p, i, later, cap);
    OneLeafLinked(head);
    GraftState([head], [0], a, later, cap);
    CopiedIsRightPart(a, chain, p, i, later, head, RightCopy(a, chain[p], i, later), ids);
  }

  lemma {:induction false} LaterFits<T, V>(a: seq<LeafOf<T, V>>, chain: seq<nat>, p: nat, i: nat, later: seq<nat>,
                                           cap: nat)
    requires LeavesFit(a, chain, cap) && p < |chain| && later == chain[p + 1..] && Solid(a, chain)
    requires i < |HeldAt(a, chain[p])| && chain[p] < |a| && a[chain[p]].len <= |a[chain[p]].slots|
    ensures Solid(a, later) && LeavesFit(a, later, cap) && LeavesFit([Head(a[chain[p]], i)], [0], cap)
  {
    assert forall c :: c in later ==> c in chain;
    LeavesFitHolds(a, chain, cap);
    LeavesFitHolds(a, later, cap);
    assert chain[p] in chain;
    HeadFits(a[chain[p]], i, cap);
  }

  lemma {:induction false} HeadFits<T, V>(l: LeafOf<T, V>, i: nat, cap: nat)
    requires i < l.len <= |l.slots| <= cap
    ensures LeavesFit([Head(l, i)], [0], cap)
  {
    assert LeavesFit([Head(l, i)], [], cap);
    assert [0][1..] == [];
  }

  lemma {:induction false} CopiedIsRightPart<T, V>(a: seq<LeafOf<T, V>>, chain: seq<nat>, p: nat, i: nat,
                                                   later: seq<nat>, head: LeafOf<T, V>,
                                                  b: seq<LeafOf<T, V>>, ids: seq<nat>)
    requires p < |chain| && i < |HeldAt(a, chain[p])| && chain[p] < |a| && a[chain[p]].len <= |a[chain[p]].slots|
    requires later == chain[p + 1..] && ids == Extended([0], 1, |later|) && head == Head(a[chain[p]], i)
    requires Copied([head], b, a, later, |later|)
    ensures RightPart(b, ids, a, chain, p, i)
  {
    CopiedHead(head, b, a, later);
    CopiedSame([head], b, a, later);
    assert ids[1..] == Range(1, |later|);
    assert HeldAt(b, 0) == HeldAt([head], 0) == HeldAt(a, chain[p])[i..];
  }

  lemma {:induction false} CopiedHead<T, V>(head: LeafOf<T, V>, b: seq<LeafOf<T, V>>, a: seq<LeafOf<T, V>>,
                                            later: seq<nat>)
    requires Copied([head], b, a, later, |later|)
    ensures HeldAt(b, 0) == HeldAt([head], 0)
  {
    KeptHolds([head], b, 1);
    BodyHolds(b, 0, [head], 0);
  }

  lemma {:induction false} CopiedSame<T, V>(start: seq<LeafOf<T, V>>, b: seq<LeafOf<T, V>>, a: seq<LeafOf<T, V>>,
                                            later: seq<nat>)
    requires Copied(start, b, a, later, |later|)
    ensures Same(b, Range(|start|, |later|), a, later)
  {
    forall q | 0 <= q < |later| ensures HeldAt(b, Range(|start|, |later|)[q]) == HeldAt(a, later[q]) {
      MirroredHeld(b, |start|, a, later, |later|, q, |start| + q);
    }
  }

  // --- The left part, copied -------------------------------------------------

  // Leaves in an arena of their own, and the order they are chained in.
  datatype Piece<T, V> = Piece(arena: seq<LeafOf<T, V>>, chain: seq<nat>)

  // The two ends are linked to one another.
  function Joined<K, V>(arena: seq<Leaf<K, V>>, tail: nat, chain: seq<nat>): seq<Leaf<K, V>>
    requires tail < |arena| && (chain != [] ==> chain[0] < |arena|)
  {
    if chain == [] then arena
    else
      var more := arena[tail := arena[tail].(next := chain[0])];
      more[chain[0] := more[chain[0]].(prev := tail)]
  }

  // Copies a batch of leaves behind the others in the arena, as a chain of its
  // own, which is then put in front of the chain there is.
  function Prepended<T, V>(piece: Piece<T, V>, a: seq<LeafOf<T, V>>, batch: seq<nat>): (more: Piece<T, V>)
    requires forall j :: 0 <= j < |batch| ==> batch[j] < |a|
    requires forall c :: c in piece.chain ==> c < |piece.arena|
    ensures |more.chain| == |batch| + |piece.chain| && forall c :: c in more.chain ==> c < |more.arena|
  {
    if batch == [] then piece
    else
      var n: nat := |piece.arena|;
      assert piece.chain != [] ==> piece.chain[0] in piece.chain;
      Piece(Joined(WithBatch(piece.arena, a, batch), n + |batch| - 1, piece.chain), Range(n, |batch|) + piece.chain)
  }

  // The batch in the arena, as a chain of its own.
  function WithBatch<K, V>(arena: seq<Leaf<K, V>>, a: seq<Leaf<K, V>>, batch: seq<nat>): (copied: seq<Leaf<K, V>>)
    requires batch != [] && forall j :: 0 <= j < |batch| ==> batch[j] < |a|
    ensures |copied| == |arena| + |batch|
  {
    assert forall j :: 0 <= j < |batch| - 1 ==> batch[1..][j] == batch[j + 1];
    CopyOf(arena + [a[batch[0]].(prev := NO_NODE, next := NO_NODE)], |arena|, a, batch[1..], |batch| - 1)
  }

  lemma {:induction false} RangeHead(n: nat, m: nat)
    ensures Range(n, m + 1) == [n] + Range(n + 1, m)
  {
    if m > 0 {
      RangeHead(n, m - 1);
      Assoc([n], Range(n + 1, m - 1), [n + m]);
    }
  }

  // Copying appends and touches, of what is there, only the leaf copied behind.
  lemma {:induction false} CopyOfKeeps<K, V>(a: seq<Leaf<K, V>>, tail: nat, b: seq<Leaf<K, V>>, leaves: seq<nat>,
                                             i: nat)
    requires i <= |leaves| && tail < |a| && forall j :: 0 <= j < |leaves| ==> leaves[j] < |b|
    ensures forall c :: 0 <= c < |a| && c != tail ==> CopyOf(a, tail, b, leaves, i)[c] == a[c]
    decreases i
  {
    if i > 0 {
      CopyOfKeeps(a, tail, b, leaves, i - 1);
    }
  }

  lemma {:induction false} JoinedIsLinked<K, V>(arena: seq<Leaf<K, V>>, x: seq<nat>, y: seq<nat>, tail: nat)
    requires x != [] && tail == x[|x| - 1] < |arena| && (y != [] ==> y[0] < |arena|)
    requires Links(arena, x, |x|) && Links(arena, y, |y|) && Distinct(x) && Distinct(y)
    requires forall c :: c in x ==> c !in y
    ensures Distinct(x + y) && Links(Joined(arena, tail, y), x + y, |x + y|)
  {
    var all, b := x + y, Joined(arena, tail, y);
    DistinctConcat(x, y);
    forall q | 0 <= q < |all| ensures LinkedAt(b, all, q) {
      if q < |x| {
        LinksAt(arena, x, q);
        JoinedBefore(arena, x, y, tail, q);
      } else {
        LinksAt(arena, y, q - |x|);
        JoinedBehind(arena, x, y, tail, q - |x|, q);
      }
    }
    LinksHold(b, all, |all|);
  }

  lemma {:induction false} JoinedBefore<K, V>(arena: seq<Leaf<K, V>>, x: seq<nat>, y: seq<nat>, tail: nat, q: nat)
    requires q < |x| && tail == x[|x| - 1] < |arena| && (y != [] ==> y[0] < |arena| && y[0] !in x)
    requires LinkedAt(arena, x, q) && Distinct(x)
    ensures LinkedAt(Joined(arena, tail, y), x + y, q)
  {
    DistinctAt(x, q, |x| - 1);
    assert x[q] in x;
  }

  lemma {:induction false} JoinedBehind<K, V>(arena: seq<Leaf<K, V>>, x: seq<nat>, y: seq<nat>, tail: nat, j: nat,
                                              q: nat)
    requires j < |y| && q == |x| + j && x != [] && tail == x[|x| - 1] < |arena| && y[0] < |arena| && tail !in y
    requires LinkedAt(arena, y, j) && Distinct(y)
    ensures LinkedAt(Joined(arena, tail, y), x + y, q)
  {
    DistinctAt(y, j, 0);
    assert y[j] in y && y[0] in y;
  }

  lemma {:induction false} JoinedHolds<K, V>(arena: seq<Leaf<K, V>>, tail: nat, y: seq<nat>, c: nat)
    requires tail < |arena| && (y != [] ==> y[0] < |arena|)
    ensures BodyAt(Joined(arena, tail, y), c) == BodyAt(arena, c)
  {
  }

  // A piece in order: linked, and no leaf too full.
  ghost predicate InOrder<T, V>(piece: Piece<T, V>, cap: nat) {
    && Distinct(piece.chain) && Links(piece.arena, piece.chain, |piece.chain|)
    && LeavesFit(piece.arena, piece.chain, cap)
  }

  // The batch is linked, its leaves hold what they held, and the arena in front of it is as it was.
  lemma {:induction false} BatchCopied<T, V>(arena: seq<LeafOf<T, V>>, a: seq<LeafOf<T, V>>, batch: seq<nat>, n: nat,
                                             copied: seq<LeafOf<T, V>>)
    requires n == |arena| && batch != [] && Solid(a, batch) && forall j :: 0 <= j < |batch| ==> batch[j] < |a|
    requires copied == WithBatch(arena, a, batch)
    ensures Distinct(Range(n, |batch|)) && Links(copied, Range(n, |batch|), |batch|)
    ensures forall q :: 0 <= q < |batch| ==> BodyAt(copied, n + q) == BodyAt(a, batch[q])
    ensures forall c :: 0 <= c < n ==> copied[c] == arena[c]
  {
    var rest, m, start := batch[1..], |batch| - 1, arena + [a[batch[0]].(prev := NO_NODE, next := NO_NODE)];
    assert forall j :: 0 <= j < m ==> rest[j] == batch[j + 1];
    BatchIsCopied(start, a, batch, rest, n, m, copied);
    CopyOfKeeps(start, n, a, rest, m);
    forall q | 0 <= q < |batch| ensures BodyAt(copied, n + q) == BodyAt(a, batch[q]) {
      BatchBodies(start, a, batch, rest, n, m, copied, q);
    }
  }

  lemma {:induction false} BatchIsCopied<T, V>(start: seq<LeafOf<T, V>>, a: seq<LeafOf<T, V>>, batch: seq<nat>,
                                               rest: seq<nat>, n: nat, m: nat,
                                              copied: seq<LeafOf<T, V>>)
    requires |start| == n + 1 && batch != [] && Solid(a, batch) && rest == batch[1..] && m == |rest| && batch[0] < |a|
    requires start[n] == a[batch[0]].(prev := NO_NODE, next := NO_NODE)
    requires forall j :: 0 <= j < |rest| ==> rest[j] < |a|
    requires copied == CopyOf(start, n, a, rest, m)
    ensures Distinct(Range(n, m + 1)) && Links(copied, Range(n, m + 1), m + 1)
    ensures Copied(start, copied, a, rest, m)
  {
    assert Solid(a, rest);
    assert LinkedAt(start, [n], 0) && Links(start, [n], 0);
    RangeHead(n, m);
    CopyIsLinked(start, [n], a, rest, m, copied, Extended([n], n + 1, m));
  }

  lemma {:induction false} BatchBodies<T, V>(start: seq<LeafOf<T, V>>, a: seq<LeafOf<T, V>>, batch: seq<nat>,
                                             rest: seq<nat>, n: nat, m: nat,
                                            copied: seq<LeafOf<T, V>>, q: nat)
    requires |start| == n + 1 && q < |batch| && rest == batch[1..] && m == |rest| && batch[0] < |a|
    requires start[n] == a[batch[0]].(prev := NO_NODE, next := NO_NODE)
    requires Copied(start, copied, a, rest, m)
    ensures BodyAt(copied, n + q) == BodyAt(a, batch[q])
  {
    if q == 0 {
      KeptHolds(start, copied, n + 1);
    } else {
      MirroredAt(copied, n + 1, a, rest, m, q - 1);
    }
  }

  lemma {:induction false} FreshDisjoint<T, V>(piece: Piece<T, V>, n: nat, m: nat)
    requires n == |piece.arena| && forall c :: c in piece.chain ==> c < n
    ensures forall c :: c in Range(n, m) ==> c !in piece.chain
  {
  }

  lemma {:induction false} LinksKept<K, V>(a: seq<Leaf<K, V>>, b: seq<Leaf<K, V>>, chain: seq<nat>)
    requires Links(a, chain, |chain|) && |a| <= |b| && forall c :: 0 <= c < |a| ==> b[c] == a[c]
    ensures Links(b, chain, |chain|)
  {
    LinksHold(a, chain, |chain|);
    forall q | 0 <= q < |chain| ensures LinkedAt(b, chain, q) {
      assert LinkedAt(a, chain, q);
    }
    LinksHold(b, chain, |chain|);
  }

  // Prepending a batch keeps a piece in order, and the leaves hold what they held.
  lemma {:induction false} PrependedInOrder<T, V>(piece: Piece<T, V>, a: seq<LeafOf<T, V>>, batch: seq<nat>, cap: nat,
                                                  n: nat, more: Piece<T, V>)
    requires InOrder(piece, cap) && Solid(a, batch) && LeavesFit(a, batch, cap) && batch != []
    requires n == |piece.arena| && forall c :: c in piece.chain ==> c < n
    requires forall j :: 0 <= j < |batch| ==> batch[j] < |a|
    requires more == Prepended(piece, a, batch)
    ensures InOrder(more, cap) && more.chain == Range(n, |batch|) + piece.chain
    ensures Same(more.arena, Range(n, |batch|), a, batch)
    ensures Same(more.arena, piece.chain, piece.arena, piece.chain)
  {
    var copied, tail := WithBatch(piece.arena, a, batch), n + |batch| - 1;
    BatchCopied(piece.arena, a, batch, n, copied);
    BatchLinked(piece, copied, n, |batch|, tail);
    BatchHolds(a, batch, n, tail, copied, more.arena, piece.chain, cap);
    ChainHolds(piece, copied, n, tail, more.arena, cap);
    FitsConcat(more.arena, Range(n, |batch|), piece.chain, cap);
  }

  lemma {:induction false} BatchLinked<T, V>(piece: Piece<T, V>, copied: seq<LeafOf<T, V>>, n: nat, m: nat, tail: nat)
    requires Distinct(piece.chain) && Links(piece.arena, piece.chain, |piece.chain|)
    requires n == |piece.arena| && |copied| == n + m && m > 0 && tail == n + m - 1 &&
        forall c :: c in piece.chain ==> c < n
    requires Distinct(Range(n, m)) && Links(copied, Range(n, m), m)
    requires forall c :: 0 <= c < n ==> copied[c] == piece.arena[c]
    ensures piece.chain != [] ==> piece.chain[0] < |copied|
    ensures var all := Range(n, m) + piece.chain;
            Distinct(all) && Links(Joined(copied, tail, piece.chain), all, |all|)
  {
    LinksKept(piece.arena, copied, piece.chain);
    FreshDisjoint(piece, n, m);
    assert piece.chain != [] ==> piece.chain[0] in piece.chain;
    JoinedIsLinked(copied, Range(n, m), piece.chain, tail);
  }

  lemma {:induction false} BatchHolds<T, V>(a: seq<LeafOf<T, V>>, batch: seq<nat>, n: nat, tail: nat,
                                            copied: seq<LeafOf<T, V>>,
                                           b: seq<LeafOf<T, V>>, chain: seq<nat>, cap: nat)
    requires LeavesFit(a, batch, cap) && |copied| == n + |batch| && tail < |copied|
    requires forall q :: 0 <= q < |batch| ==> BodyAt(copied, n + q) == BodyAt(a, batch[q])
    requires (chain != [] ==> chain[0] < |copied|) && b == Joined(copied, tail, chain)
    ensures Same(b, Range(n, |batch|), a, batch) && LeavesFit(b, Range(n, |batch|), cap)
  {
    var x := Range(n, |batch|);
    LeavesFitHolds(a, batch, cap);
    forall q | 0 <= q < |batch| ensures HeldAt(b, x[q]) == HeldAt(a, batch[q]) && 0 < |b[n + q].slots| <= cap {
      JoinedHolds(copied, tail, chain, n + q);
      BodyHolds(b, n + q, a, batch[q]);
      assert batch[q] in batch;
    }
    forall c | c in x ensures c < |b| && 0 < |b[c].slots| <= cap {
      assert c == n + (c - n);
    }
    LeavesFitHolds(b, x, cap);
  }

  lemma {:induction false} ChainHolds<T, V>(piece: Piece<T, V>, copied: seq<LeafOf<T, V>>, n: nat, tail: nat,
                                            b: seq<LeafOf<T, V>>, cap: nat)
    requires LeavesFit(piece.arena, piece.chain, cap) && n == |piece.arena| && n <= tail < |copied|
    requires forall c :: 0 <= c < n ==> copied[c] == piece.arena[c]
    requires (piece.chain != [] ==> piece.chain[0] < |copied|) && b == Joined(copied, tail, piece.chain)
    ensures Same(b, piece.chain, piece.arena, piece.chain) && LeavesFit(b, piece.chain, cap)
  {
    LeavesFitHolds(piece.arena, piece.chain, cap);
    forall c | c in piece.chain ensures HeldAt(b, c) == HeldAt(piece.arena, c) && 0 < |b[c].slots| <= cap {
      JoinedHolds(copied, tail, piece.chain, c);
      BodyHolds(b, c, piece.arena, c);
    }
    LeavesFitHolds(b, piece.chain, cap);
  }

  lemma {:induction false} FitsConcat<T, V>(b: seq<LeafOf<T, V>>, x: seq<nat>, y: seq<nat>, cap: nat)
    requires LeavesFit(b, x, cap) && LeavesFit(b, y, cap)
    ensures LeavesFit(b, x + y, cap)
  {
    LeavesFitHolds(b, x, cap);
    LeavesFitHolds(b, y, cap);
    LeavesFitHolds(b, x + y, cap);
  }

  // The leaves left of the cut, copied from the boundary upwards: at every node
  // on the way the leaves under the children in front are a batch.
  function LeftCopy<T, V>(n: Node<T>, a: seq<LeafOf<T, V>>, c: nat, i: nat): (piece: Piece<T, V>)
    requires Solid(a, Leaves(n)) && c < |Leaves(n)| && i <= |HeldAt(a, Leaves(n)[c])|
    ensures |piece.chain| == LeftCount(c, i) && forall d :: d in piece.chain ==> d < |piece.arena|
    decreases Size(n)
  {
    match n
    case LeafAt(l) => BoundaryCopy(a, l, i)
    case Inner(first, rest) =>
      var f := ForkAt(first, rest, c);
      ForkHasLeaf(first, rest, c);
      ForkLeaves(first, rest, c);
      Prepended(LeftCopy(f.child, a, f.c, i), a, Batch(a, Leaves(n), c - f.c))
  }

  // The boundary leaf's share, if it has one.
  function BoundaryCopy<T, V>(a: seq<LeafOf<T, V>>, l: nat, i: nat): Piece<T, V>
    requires i <= |HeldAt(a, l)|
  {
    if i == 0 then Piece([], []) else Piece([Leaf(i, HeldAt(a, l)[..i], NO_NODE, NO_NODE)], [0])
  }

  // The first m of some leaves.
  function Batch<K, V>(a: seq<Leaf<K, V>>, leaves: seq<nat>, m: nat): (batch: seq<nat>)
    requires Solid(a, leaves) && m <= |leaves|
    ensures batch == leaves[..m] && forall j :: 0 <= j < |batch| ==> batch[j] < |a|
  {
    assert forall j :: 0 <= j < m ==> leaves[..m][j] in leaves;
    leaves[..m]
  }

  // A batch in front of a piece, and the piece itself, make the left part of the larger subtree.
  lemma {:induction false} LeftPartGrows<T, V>(b: seq<LeafOf<T, V>>, x: seq<nat>, sub: Piece<T, V>,
                                               a: seq<LeafOf<T, V>>, batch: seq<nat>,
                                              under: seq<nat>, d: nat, all: seq<nat>, c: nat, i: nat)
    requires LeftPart(sub.arena, sub.chain, a, under, d, i)
    requires Same(b, x, a, batch) && Same(b, sub.chain, sub.arena, sub.chain)
    requires c == |batch| + d < |all| && all[..c] == batch + under[..d] && all[c] == under[d]
    ensures LeftPart(b, x + sub.chain, a, all, c, i)
  {
    var ids := x + sub.chain;
    forall q | 0 <= q < c ensures HeldAt(b, ids[..c][q]) == HeldAt(a, all[..c][q]) {
      if q >= |x| {
        assert ids[q] == sub.chain[q - |x|] == sub.chain[..d][q - |x|];
        assert all[..c][q] == under[..d][q - |x|];
      }
    }
    if i > 0 {
      assert ids[c] == sub.chain[d];
    }
  }

  lemma {:induction false} LeafCopied<T, V>(a: seq<LeafOf<T, V>>, l: nat, i: nat, cap: nat)
    requires l < |a| && i <= |HeldAt(a, l)| && 0 < |a[l].slots| <= cap
    ensures var piece := BoundaryCopy(a, l, i);
            InOrder(piece, cap) && LeftPart(piece.arena, piece.chain, a, [l], 0, i)
  {
    if i > 0 {
      var leaf := Leaf(i, HeldAt(a, l)[..i], NO_NODE, NO_NODE);
      OneLeafLinked(leaf);
      LeavesFitHolds([leaf], [0], cap);
      assert HeldAt([leaf], 0) == HeldAt(a, l)[..i];
    }
  }

  // The copy of the left part is in order, and holds the left part.
  lemma {:induction false} LeftCopyIsLeftPart<T, V>(n: Node<T>, a: seq<LeafOf<T, V>>, c: nat, i: nat, cap: nat,
                                                    piece: Piece<T, V>)
    requires Solid(a, Leaves(n)) && LeavesFit(a, Leaves(n), cap) && c < |Leaves(n)| && i <= |HeldAt(a, Leaves(n)[c])|
    requires piece == LeftCopy(n, a, c, i)
    ensures InOrder(piece, cap) && LeftPart(piece.arena, piece.chain, a, Leaves(n), c, i)
    decreases Size(n)
  {
    match n {
      case LeafAt(l) =>
        LeavesFitHolds(a, Leaves(n), cap);
        assert l in Leaves(n);
        LeafCopied(a, l, i, cap);
      case Inner(first, rest) =>
        var f := ForkAt(first, rest, c);
        UnderFork(a, n, c, f, cap);
        var sub, batch := LeftCopy(f.child, a, f.c, i), Batch(a, Leaves(n), c - f.c);
        LeftCopyIsLeftPart(f.child, a, f.c, i, cap, sub);
        assert piece == Prepended(sub, a, batch);
        LeftCopyStep(Leaves(n), a, c, i, cap, Leaves(f.child), f.c, sub, batch, piece);
    }
  }

  lemma {:induction false} UnderFork<T, V>(a: seq<LeafOf<T, V>>, n: Node<T>, c: nat, f: Fork<T>, cap: nat)
    requires n.Inner? && c < |Leaves(n)| && f == ForkAt(n.first, n.rest, c)
    requires Solid(a, Leaves(n)) && LeavesFit(a, Leaves(n), cap)
    ensures f.c < |Leaves(f.child)| && f.c <= c
    ensures Leaves(n)[..c] == Leaves(n)[..c - f.c] + Leaves(f.child)[..f.c] && Leaves(n)[c] == Leaves(f.child)[f.c]
    ensures Solid(a, Leaves(f.child)) && LeavesFit(a, Leaves(f.child), cap)
  {
    ForkHasLeaf(n.first, n.rest, c);
    ForkLeaves(n.first, n.rest, c);
    LeavesFitHolds(a, Leaves(n), cap);
    LeavesFitHolds(a, Leaves(f.child), cap);
  }

  lemma {:induction false} LeftCopyStep<T, V>(all: seq<nat>, a: seq<LeafOf<T, V>>, c: nat, i: nat, cap: nat,
                                              under: seq<nat>, d: nat,
                                             sub: Piece<T, V>, batch: seq<nat>, piece: Piece<T, V>)
    requires Solid(a, all) && LeavesFit(a, all, cap) && d <= c < |all| && batch == all[..c - d]
    requires InOrder(sub, cap) && LeftPart(sub.arena, sub.chain, a, under, d, i) && forall x :: x in sub.chain ==>
        x < |sub.arena|
    requires all[..c] == batch + under[..d] && all[c] == under[d]
    requires forall j :: 0 <= j < |batch| ==> batch[j] < |a|
    requires piece == Prepended(sub, a, batch)
    ensures InOrder(piece, cap) && LeftPart(piece.arena, piece.chain, a, all, c, i)
  {
    if batch == [] {
      NothingBefore(batch, sub.chain);
      LeftPartGrows(sub.arena, [], sub, a, batch, under, d, all, c, i);
      NothingBefore([], sub.chain);
    } else {
      LeavesFitHolds(a, all, cap);
      assert forall x :: x in batch ==> x in all;
      LeavesFitHolds(a, batch, cap);
      PrependedInOrder(sub, a, batch, cap, |sub.arena|, piece);
      LeftPartGrows(piece.arena, Range(|sub.arena|, |batch|), sub, a, batch, under, d, all, c, i);
    }
  }

  // --- The two trees ---------------------------------------------------------

  // The leaves and the interior of a tree that works.
  ghost predicate Whole<T, V>(a: seq<LeafOf<T, V>>, n: Node<T>, h: nat, leafCap: nat, innerCap: nat) {
    && Distinct(Leaves(n)) && Links(a, Leaves(n), |Leaves(n)|) && LeavesFit(a, Leaves(n), leafCap)
    && Shaped(n, h, innerCap) && Ascending(Items(a, Leaves(n))) && Guided(a, Leaves(n), Seps(n))
  }

  // What a tree is made of.
  datatype Part<T, V> = Part(arena: seq<LeafOf<T, V>>, root: Node<T>, len: nat)

  // Everything a tree promises, except that its leaves lie at one depth; they
  // do exactly when both its edges are equally deep.
  ghost predicate Sound<T, V>(part: Part<T, V>, leafCap: nat, innerCap: nat) {
    var chain := Leaves(part.root);
    && chain != [] && Linked(part.arena, chain, chain[0], chain[|chain| - 1])
    && LeavesFit(part.arena, chain, leafCap)
    && part.len == |Items(part.arena, chain)|
    && Ascending(Items(part.arena, chain)) && Guided(part.arena, chain, Seps(part.root))
    && (Shaped(part.root, LeftDepth(part.root), innerCap) <==> RightDepth(part.root) == LeftDepth(part.root))
  }

  // root is the interior k over the leaves ids.
  ghost predicate Stands<T>(root: Node<T>, k: Node<T>, ids: seq<nat>, cap: nat) {
    && Leaves(root) == ids && Seps(root) == Seps(k)
    && LeftDepth(root) == LeftDepth(k) && RightDepth(root) == RightDepth(k)
    && (Shaped(root, LeftDepth(k), cap) <==> Shaped(k, LeftDepth(k), cap))
  }

  lemma {:induction false} RelabelledStands<T>(k: Node<T>, ids: seq<nat>, cap: nat)
    requires |ids| == |Leaves(k)|
    ensures Stands(Relabelled(k, ids), k, ids, cap)
  {
    RelabelledIsSame(k, ids);
    RelabelledDepths(k, ids);
    RelabelledShape(k, ids, LeftDepth(k), cap);
  }

  // The interior of the left part, and of the right one.
  lemma {:induction false} LeftInterior<T>(n: Node<T>, p: nat, i: nat, m: nat, h: nat, cap: nat)
    requires Shaped(n, h, cap) && p < |Leaves(n)| && m == LeftCount(p, i) > 0
    ensures |Leaves(n)| == |Seps(n)| + 1
    ensures CutLeft(n, p, i > 0).Some?
    ensures var k := CollapseRight(CutLeft(n, p, i > 0).value);
            && Leaves(k) == Leaves(n)[..m] && Seps(k) == Seps(n)[..m - 1]
            && (RightDepth(k) == LeftDepth(k) <==> FirstsComeFirst(Path(n, m - 1)))
            && (RightDepth(k) == LeftDepth(k) <==> Shaped(k, LeftDepth(k), cap))
  {
    OneMoreLeaf(n);
    CutLeftIsTake(n, p, i > 0, m);
    TakeIsPrefix(n, m);
    CollapseRightIsFlat(Take(n, m));
    LeftPartDepths(n, m - 1, m, h, cap, CollapseRight(Take(n, m)));
  }

  lemma {:induction false} RightInterior<T>(n: Node<T>, p: nat, h: nat, cap: nat)
    requires Shaped(n, h, cap) && p < |Leaves(n)|
    ensures |Leaves(n)| == |Seps(n)| + 1
    ensures var k := CollapseLeft(CutRight(n, p));
            && Leaves(k) == Leaves(n)[p..] && Seps(k) == Seps(n)[p..]
            && (RightDepth(k) == LeftDepth(k) <==> LastsComeFirst(Path(n, p)))
            && (RightDepth(k) == LeftDepth(k) <==> Shaped(k, LeftDepth(k), cap))
  {
    OneMoreLeaf(n);
    CutRightIsSuffix(n, p);
    CollapseLeftIsFlat(CutRight(n, p));
    RightPartDepths(n, p, h, cap, CollapseLeft(CutRight(n, p)));
  }

  // The entries of the left part: the first k of all, in order and guided.
  lemma {:induction false} LeftEntries<T, V>(b: seq<LeafOf<T, V>>, ids: seq<nat>, a: seq<LeafOf<T, V>>,
                                             chain: seq<nat>, seps: seq<Key<T>>,
                                            p: nat, i: nat, k: nat)
    requires LeftPart(b, ids, a, chain, p, i) && ids != [] && k == Offset(a, chain, p) + i
    requires Ascending(Items(a, chain)) && Guided(a, chain, seps)
    ensures k <= |Items(a, chain)| && Items(b, ids) == Items(a, chain)[..k]
    ensures Ascending(Items(b, ids)) && Guided(b, ids, seps[..|ids| - 1])
  {
    CutItems(a, chain, p, i);
    LeftPartItems(b, ids, a, chain, p, i);
    LeftPartGuided(b, ids, a, chain, seps, p, i);
  }

  lemma {:induction false} RightEntries<T, V>(b: seq<LeafOf<T, V>>, ids: seq<nat>, a: seq<LeafOf<T, V>>,
                                              chain: seq<nat>, seps: seq<Key<T>>,
                                             p: nat, i: nat, k: nat)
    requires RightPart(b, ids, a, chain, p, i) && k == Offset(a, chain, p) + i
    requires Ascending(Items(a, chain)) && Guided(a, chain, seps)
    ensures k <= |Items(a, chain)| && Items(b, ids) == Items(a, chain)[k..]
    ensures Ascending(Items(b, ids)) && Guided(b, ids, seps[p..])
  {
    CutItems(a, chain, p, i);
    RightPartItems(b, ids, a, chain, p, i);
    RightPartGuided(b, ids, a, chain, seps, p, i);
    assert Items(a, chain) == Items(a, chain)[..k] + Items(a, chain)[k..];
    AscendingConcat(Items(a, chain)[..k], Items(a, chain)[k..]);
  }

  // Any arena and interior that hold the left part make a sound tree.
  lemma {:induction false} LeftIsSound<T, V>(part: Part<T, V>, ids: seq<nat>, a: seq<LeafOf<T, V>>, n: Node<T>,
                                             p: nat, i: nat, k: Node<T>,
                                            h: nat, leafCap: nat, innerCap: nat)
    requires Whole(a, n, h, leafCap, innerCap) && LeftCount(p, i) > 0
    requires LeftPart(part.arena, ids, a, Leaves(n), p, i)
    requires CutLeft(n, p, i > 0).Some? ==> k == CollapseRight(CutLeft(n, p, i > 0).value)
    requires Stands(part.root, k, ids, innerCap) && LeavesFit(part.arena, ids, leafCap)
    requires Linked(part.arena, ids, ids[0], ids[|ids| - 1])
    requires part.len == Offset(a, Leaves(n), p) + i
    ensures Sound(part, leafCap, innerCap)
    ensures part.len <= |Items(a, Leaves(n))|
    ensures Items(part.arena, ids) == Items(a, Leaves(n))[..part.len]
    ensures LeftCount(p, i) - 1 <= |Seps(n)| && Seps(part.root) == Seps(n)[..LeftCount(p, i) - 1]
    ensures RightDepth(part.root) == LeftDepth(part.root) <==> FirstsComeFirst(Path(n, LeftCount(p, i) - 1))
  {
    LeftInterior(n, p, i, LeftCount(p, i), h, innerCap);
    LeftEntries(part.arena, ids, a, Leaves(n), Seps(n), p, i, part.len);
    SoundOf(part, ids, Seps(n)[..LeftCount(p, i) - 1], leafCap, innerCap);
  }

  lemma {:induction false} SoundOf<T, V>(part: Part<T, V>, ids: seq<nat>, seps: seq<Key<T>>, leafCap: nat,
                                        innerCap: nat)
    requires Leaves(part.root) == ids && Seps(part.root) == seps && ids != []
    requires Linked(part.arena, ids, ids[0], ids[|ids| - 1]) && LeavesFit(part.arena, ids, leafCap)
    requires part.len == |Items(part.arena, ids)|
    requires Ascending(Items(part.arena, ids)) && Guided(part.arena, ids, seps)
    requires RightDepth(part.root) == LeftDepth(part.root) <==> Shaped(part.root, LeftDepth(part.root), innerCap)
    ensures Sound(part, leafCap, innerCap)
  {
  }

  // What stands for the right interior has its separators and its depths.
  lemma {:induction false} RightRoot<T>(root: Node<T>, n: Node<T>, p: nat, q: Node<T>, ids: seq<nat>, h: nat, cap: nat)
    requires Shaped(n, h, cap) && p < |Leaves(n)|
    requires q == CollapseLeft(CutRight(n, p)) && Stands(root, q, ids, cap)
    ensures p <= |Seps(n)| && Leaves(root) == ids && Seps(root) == Seps(n)[p..]
    ensures RightDepth(root) == LeftDepth(root) <==> LastsComeFirst(Path(n, p))
    ensures RightDepth(root) == LeftDepth(root) <==> Shaped(root, LeftDepth(root), cap)
  {
    RightInterior(n, p, h, cap);
  }

  lemma {:induction false} RightIsSound<T, V>(part: Part<T, V>, ids: seq<nat>, a: seq<LeafOf<T, V>>, n: Node<T>,
                                              p: nat, i: nat, k: nat, q: Node<T>,
                                              h: nat, leafCap: nat, innerCap: nat)
    requires Whole(a, n, h, leafCap, innerCap)
    requires RightPart(part.arena, ids, a, Leaves(n), p, i)
    requires q == CollapseLeft(CutRight(n, p)) && Stands(part.root, q, ids, innerCap)
    requires LeavesFit(part.arena, ids, leafCap)
    requires Linked(part.arena, ids, ids[0], ids[|ids| - 1])
    requires k == Offset(a, Leaves(n), p) + i && part.len + k == |Items(a, Leaves(n))|
    ensures Sound(part, leafCap, innerCap)
    ensures Items(part.arena, ids) == Items(a, Leaves(n))[k..]
    ensures p <= |Seps(n)| && Seps(part.root) == Seps(n)[p..]
    ensures RightDepth(part.root) == LeftDepth(part.root) <==> LastsComeFirst(Path(n, p))
  {
    RightRoot(part.root, n, p, q, ids, h, innerCap);
    RightEntries(part.arena, ids, a, Leaves(n), Seps(n), p, i, k);
    SoundOf(part, ids, Seps(n)[p..], leafCap, innerCap);
  }

  // --- The four trees a cut can make -----------------------------------------

  // There is something on both sides of the cut at slot i of the leaf at position p.
  ghost predicate CutReady<T, V>(a: seq<LeafOf<T, V>>, n: Node<T>, p: nat, i: nat) {
    && Solid(a, Leaves(n)) && p < |Leaves(n)| && LeftCount(p, i) > 0
    && (forall j :: 0 <= j < |Leaves(n)| ==> Leaves(n)[j] < |a|)
    && i < |HeldAt(a, Leaves(n)[p])| && i < a[Leaves(n)[p]].len <= |a[Leaves(n)[p]].slots|
    && CutLeft(n, p, i > 0).Some?
    && |Leaves(CollapseRight(CutLeft(n, p, i > 0).value))| == LeftCount(p, i)
    && |Leaves(CollapseLeft(CutRight(n, p)))| == |Leaves(n)| - p
  }

  lemma {:induction false} CutIsReady<T, V>(a: seq<LeafOf<T, V>>, n: Node<T>, p: nat, i: nat, h: nat, leafCap: nat,
                                            innerCap: nat)
    requires Whole(a, n, h, leafCap, innerCap) && p < |Leaves(n)| && i < |HeldAt(a, Leaves(n)[p])| &&
        LeftCount(p, i) > 0
    ensures CutReady(a, n, p, i)
  {
    LinkedIsSolid(a, Leaves(n));
    assert forall j :: 0 <= j < |Leaves(n)| ==> Leaves(n)[j] in Leaves(n);
    LeftInterior(n, p, i, LeftCount(p, i), h, innerCap);
    RightInterior(n, p, h, innerCap);
  }

  function KeptLeft<T, V>(a: seq<LeafOf<T, V>>, n: Node<T>, p: nat, i: nat, len: nat): Part<T, V>
    requires CutReady(a, n, p, i)
  {
    Part(Ended(a, Leaves(n)[LeftCount(p, i) - 1], LastLen(a, Leaves(n), p, i)), CollapseRight(CutLeft(n, p,
        i > 0).value), len)
  }

  function KeptRight<T, V>(a: seq<LeafOf<T, V>>, n: Node<T>, p: nat, i: nat, len: nat): Part<T, V>
    requires CutReady(a, n, p, i)
  {
    Part(Begun(a, Leaves(n)[p], i), CollapseLeft(CutRight(n, p)), len)
  }

  function CopiedLeft<T, V>(a: seq<LeafOf<T, V>>, n: Node<T>, p: nat, i: nat, len: nat): Part<T, V>
    requires CutReady(a, n, p, i)
  {
    var piece := LeftCopy(n, a, p, i);
    Part(piece.arena, Relabelled(CollapseRight(CutLeft(n, p, i > 0).value), piece.chain), len)
  }

  function CopiedRight<T, V>(a: seq<LeafOf<T, V>>, n: Node<T>, p: nat, i: nat, len: nat): Part<T, V>
    requires CutReady(a, n, p, i)
  {
    var later := Leaves(n)[p + 1..];
    assert forall j :: 0 <= j < |later| ==> later[j] == Leaves(n)[p + 1 + j];
    Part(RightCopy(a, Leaves(n)[p], i, later), Relabelled(CollapseLeft(CutRight(n, p)), Extended([0], 1, |later|)), len)
  }

  // The part holds the first k entries, and its leaves lie at one depth exactly
  // when the way to the last of them takes no first child behind another one.
  ghost predicate IsLeftOf<T, V>(part: Part<T, V>, a: seq<LeafOf<T, V>>, n: Node<T>, p: nat, i: nat, leafCap: nat,
                                 innerCap: nat) {
    && Sound(part, leafCap, innerCap) && LeftCount(p, i) > 0
    && part.len <= |Items(a, Leaves(n))|
    && Items(part.arena, Leaves(part.root)) == Items(a, Leaves(n))[..part.len]
    && LeftCount(p, i) - 1 <= |Seps(n)| && Seps(part.root) == Seps(n)[..LeftCount(p, i) - 1]
    && (RightDepth(part.root) == LeftDepth(part.root) <==> FirstsComeFirst(Path(n, LeftCount(p, i) - 1)))
  }

  ghost predicate IsRightOf<T, V>(part: Part<T, V>, a: seq<LeafOf<T, V>>, n: Node<T>, p: nat, k: nat, leafCap: nat,
                                  innerCap: nat) {
    && Sound(part, leafCap, innerCap)
    && k <= |Items(a, Leaves(n))|
    && Items(part.arena, Leaves(part.root)) == Items(a, Leaves(n))[k..]
    && p <= |Seps(n)| && Seps(part.root) == Seps(n)[p..]
    && (RightDepth(part.root) == LeftDepth(part.root) <==> LastsComeFirst(Path(n, p)))
  }

  lemma {:induction false} KeptLeftIsLeft<T, V>(a: seq<LeafOf<T, V>>, n: Node<T>, p: nat, i: nat, len: nat, h: nat,
                                                leafCap: nat, innerCap: nat)
    requires Whole(a, n, h, leafCap, innerCap) && CutReady(a, n, p, i) && len == Offset(a, Leaves(n), p) + i
    ensures IsLeftOf(KeptLeft(a, n, p, i, len), a, n, p, i, leafCap, innerCap)
  {
    var m, last := LeftCount(p, i), LastLen(a, Leaves(n), p, i);
    FrontIsLeft(a, n, p, i, len, h, leafCap, innerCap, m, last, Leaves(n)[..m],
                CollapseRight(CutLeft(n, p, i > 0).value));
  }

  lemma {:induction false} FrontIsLeft<T, V>(a: seq<LeafOf<T, V>>, n: Node<T>, p: nat, i: nat, len: nat, h: nat,
                                            leafCap: nat, innerCap: nat, m: nat, last: nat, front: seq<nat>, q: Node<T>)
    requires Whole(a, n, h, leafCap, innerCap) && p < |Leaves(n)| && i <= |HeldAt(a, Leaves(n)[p])|
    requires m == LeftCount(p, i) > 0 && Leaves(n)[m - 1] < |a| && last == LastLen(a, Leaves(n), p, i)
    requires front == Leaves(n)[..m] && len == Offset(a, Leaves(n), p) + i
    requires CutLeft(n, p, i > 0).Some? && q == CollapseRight(CutLeft(n, p, i > 0).value)
    ensures IsLeftOf(Part(Ended(a, Leaves(n)[m - 1], last), q, len), a, n, p, i, leafCap, innerCap)
  {
    var b := Ended(a, Leaves(n)[m - 1], last);
    EndedStands(a, Leaves(n), p, i, leafCap, m, last, b, front);
    KeptLeftStands(n, p, i, m, h, innerCap, front, q);
    LeftIsSound(Part(b, q, len), front, a, n, p, i, q, h, leafCap, innerCap);
  }

  lemma {:induction false} KeptLeftStands<T>(n: Node<T>, p: nat, i: nat, m: nat, h: nat, cap: nat, front: seq<nat>,
                                            q: Node<T>)
    requires Shaped(n, h, cap) && p < |Leaves(n)| && m == LeftCount(p, i) > 0 && front == Leaves(n)[..m]
    requires CutLeft(n, p, i > 0).Some? && q == CollapseRight(CutLeft(n, p, i > 0).value)
    ensures Stands(q, q, front, cap)
  {
    LeftInterior(n, p, i, m, h, cap);
  }

  lemma {:induction false} EndedStands<T, V>(a: seq<LeafOf<T, V>>, chain: seq<nat>, p: nat, i: nat, leafCap: nat,
                                            m: nat, last: nat, b: seq<LeafOf<T, V>>, front: seq<nat>)
    requires Distinct(chain) && Links(a, chain, |chain|) && LeavesFit(a, chain, leafCap)
    requires p < |chain| && i <= |HeldAt(a, chain[p])| && m == LeftCount(p, i) > 0
    requires chain[m - 1] < |a| && last == LastLen(a, chain, p, i)
    requires b == Ended(a, chain[m - 1], last) && front == chain[..m]
    ensures LeftPart(b, front, a, chain, p, i) && LeavesFit(b, front, leafCap)
    ensures Linked(b, front, chain[0], chain[m - 1])
  {
    EndedIsLeftPart(a, chain, p, i, m, last);
    EndedIsLinked(a, chain, m, last);
    KeptFit(a, b, chain, front, leafCap);
  }

  lemma {:induction false} CopiedLeftIsLeft<T, V>(a: seq<LeafOf<T, V>>, n: Node<T>, p: nat, i: nat, len: nat, h: nat,
                                                  leafCap: nat, innerCap: nat)
    requires Whole(a, n, h, leafCap, innerCap) && CutReady(a, n, p, i) && len == Offset(a, Leaves(n), p) + i
    ensures IsLeftOf(CopiedLeft(a, n, p, i, len), a, n, p, i, leafCap, innerCap)
  {
    var piece := LeftCopy(n, a, p, i);
    LeftCopyIsLeftPart(n, a, p, i, leafCap, piece);
    PieceIsLeft(a, n, p, i, len, h, leafCap, innerCap, piece, CollapseRight(CutLeft(n, p, i > 0).value));
  }

  lemma {:induction false} PieceIsLeft<T, V>(a: seq<LeafOf<T, V>>, n: Node<T>, p: nat, i: nat, len: nat, h: nat,
                                             leafCap: nat, innerCap: nat,
                                            piece: Piece<T, V>, k: Node<T>)
    requires Whole(a, n, h, leafCap, innerCap) && CutReady(a, n, p, i) && len == Offset(a, Leaves(n), p) + i
    requires InOrder(piece, leafCap) && LeftPart(piece.arena, piece.chain, a, Leaves(n), p, i)
    requires k == CollapseRight(CutLeft(n, p, i > 0).value) && |piece.chain| == |Leaves(k)|
    ensures IsLeftOf(Part(piece.arena, Relabelled(k, piece.chain), len), a, n, p, i, leafCap, innerCap)
  {
    RelabelledStands(k, piece.chain, innerCap);
    LeftIsSound(Part(piece.arena, Relabelled(k, piece.chain), len), piece.chain, a, n, p, i, k, h, leafCap, innerCap);
  }

  lemma {:induction false} KeptRightIsRight<T, V>(a: seq<LeafOf<T, V>>, n: Node<T>, p: nat, i: nat, len: nat, k: nat,
                                                  h: nat,
                                                 leafCap: nat, innerCap: nat)
    requires Whole(a, n, h, leafCap, innerCap) && CutReady(a, n, p, i)
    requires k == Offset(a, Leaves(n), p) + i && len + k == |Items(a, Leaves(n))|
    ensures IsRightOf(KeptRight(a, n, p, i, len), a, n, p, k, leafCap, innerCap)
  {
    RestIsRight(a, n, p, i, len, k, h, leafCap, innerCap, Leaves(n)[p..], CollapseLeft(CutRight(n, p)));
  }

  lemma {:induction false} BegunStands<T, V>(a: seq<LeafOf<T, V>>, chain: seq<nat>, p: nat, i: nat, leafCap: nat,
                                            b: seq<LeafOf<T, V>>, later: seq<nat>)
    requires Distinct(chain) && Links(a, chain, |chain|) && LeavesFit(a, chain, leafCap)
    requires p < |chain| && chain[p] < |a| && i < |HeldAt(a, chain[p])| && i < a[chain[p]].len <= |a[chain[p]].slots|
    requires b == Begun(a, chain[p], i) && later == chain[p..]
    ensures RightPart(b, later, a, chain, p, i) && LeavesFit(b, later, leafCap)
    ensures Linked(b, later, chain[p], chain[|chain| - 1])
  {
    BegunIsRightPart(a, chain, p, i, b);
    BegunIsLinked(a, chain, p, i);
    KeptFit(a, b, chain, later, leafCap);
  }

  lemma {:induction false} RestIsRight<T, V>(a: seq<LeafOf<T, V>>, n: Node<T>, p: nat, i: nat, len: nat, k: nat, h: nat,
                                            leafCap: nat, innerCap: nat, later: seq<nat>, q: Node<T>)
    requires Whole(a, n, h, leafCap, innerCap) && p < |Leaves(n)| && Leaves(n)[p] < |a|
    requires i < |HeldAt(a, Leaves(n)[p])| && i < a[Leaves(n)[p]].len <= |a[Leaves(n)[p]].slots|
    requires k == Offset(a, Leaves(n), p) + i && len + k == |Items(a, Leaves(n))|
    requires later == Leaves(n)[p..] && q == CollapseLeft(CutRight(n, p))
    ensures IsRightOf(Part(Begun(a, Leaves(n)[p], i), q, len), a, n, p, k, leafCap, innerCap)
  {
    var b := Begun(a, Leaves(n)[p], i);
    BegunStands(a, Leaves(n), p, i, leafCap, b, later);
    KeptRightStands(n, p, h, innerCap);
    RightIsSound(Part(b, q, len), later, a, n, p, i, k, q, h, leafCap, innerCap);
  }

  lemma {:induction false} KeptRightStands<T>(n: Node<T>, p: nat, h: nat, cap: nat)
    requires Shaped(n, h, cap) && p < |Leaves(n)|
    ensures Stands(CollapseLeft(CutRight(n, p)), CollapseLeft(CutRight(n, p)), Leaves(n)[p..], cap)
  {
    RightInterior(n, p, h, cap);
  }

  lemma {:induction false} CopiedRightIsRight<T, V>(a: seq<LeafOf<T, V>>, n: Node<T>, p: nat, i: nat, len: nat,
                                                    k: nat, h: nat, leafCap: nat, innerCap: nat)
    requires Whole(a, n, h, leafCap, innerCap) && CutReady(a, n, p, i)
    requires k == Offset(a, Leaves(n), p) + i && len + k == |Items(a, Leaves(n))|
    ensures IsRightOf(CopiedRight(a, n, p, i, len), a, n, p, k, leafCap, innerCap)
  {
    var later, part := Leaves(n)[p + 1..], CopiedRight(a, n, p, i, len);
    var ids := Extended([0], 1, |later|);
    RightCopyIsRightPart(a, Leaves(n), p, i, later, leafCap, ids);
    RelabelledStands(CollapseLeft(CutRight(n, p)), ids, innerCap);
    RightIsSound(part, ids, a, n, p, i, k, CollapseLeft(CutRight(n, p)), h, leafCap, innerCap);
  }

  // --- Splitting -------------------------------------------------------------

  // How many entries some leaves hold, as it is counted while they are copied.
  function CountHeld<K, V>(a: seq<Leaf<K, V>>, leaves: seq<nat>): nat
    requires Solid(a, leaves)
  {
    if leaves == [] then 0
    else
      assert leaves[0] in leaves && forall c :: c in leaves[1..] ==> c in leaves;
      a[leaves[0]].len + CountHeld(a, leaves[1..])
  }

  lemma {:induction false} CountIsLength<K, V>(a: seq<Leaf<K, V>>, leaves: seq<nat>)
    requires Solid(a, leaves)
    ensures CountHeld(a, leaves) == |Items(a, leaves)|
  {
    if leaves != [] {
      assert leaves[0] in leaves && forall c :: c in leaves[1..] ==> c in leaves;
      CountIsLength(a, leaves[1..]);
    }
  }

  // A tree with everything in place but, perhaps, the depths of its leaves.
  ghost predicate Half<T(!new), V(!new)>(tree: RawBTree<T, V>)
    reads tree
  {
    && tree.leafCap >= 1 && tree.innerCap >= 2 && tree.root.Some?
    && tree.chain == Leaves(tree.root.value) && tree.height == LeftDepth(tree.root.value)
    && tree.chain != [] && Linked(tree.arena, tree.chain, tree.firstLeaf, tree.lastLeaf)
    && Sound(Part(tree.arena, tree.root.value, tree.len), tree.leafCap, tree.innerCap)
  }

  method Become<T(!new), V(!new)>(tree: RawBTree<T, V>, part: Part<T, V>)
    requires tree.leafCap >= 1 && tree.innerCap >= 2 && Sound(part, tree.leafCap, tree.innerCap)
    modifies tree
    ensures Half(tree) && tree.root == Some(part.root) && tree.Contents() == Items(part.arena, Leaves(part.root))
    ensures tree.Searchable() <==> RightDepth(part.root) == LeftDepth(part.root)
  {
    var chain := Leaves(part.root);
    tree.arena, tree.root, tree.height, tree.len := part.arena, Some(part.root), LeftDepth(part.root), part.len;
    tree.firstLeaf, tree.lastLeaf, tree.chain := chain[0], chain[|chain| - 1], chain;
  }

  // Such a tree works exactly when both its edges are equally deep.
  lemma {:induction false} HalfWorks<T(!new), V(!new)>(tree: RawBTree<T, V>)
    requires Half(tree)
    ensures tree.Searchable() <==> RightDepth(tree.root.value) == LeftDepth(tree.root.value)
  {
  }

  lemma {:induction false} RankAbove<T>(seps: seq<Key<T>>) returns (r: int)
    ensures forall k :: k in seps ==> k.rank < r
  {
    r := 0;
    if seps != [] {
      var s := RankAbove(seps[1..]);
      r := if seps[0].rank < s then s else seps[0].rank + 1;
    }
  }

  // And when they are not, some descents end in the wrong kind of node.
  lemma {:induction false} HalfDescends<T(!new), V(!new)>(tree: RawBTree<T, V>)
    requires Half(tree)
    ensures tree.Searchable() <==> forall r :: Descend(tree.root.value, tree.height, r, IsTall(tree.height)).Some?
  {
    var root, tall := tree.root.value, IsTall(tree.height);
    HalfWorks(tree);
    if tree.Searchable() {
      forall r ensures Descend(root, tree.height, r, tall).Some? {
        ShapedDescends(root, tree.height, tree.innerCap, r, tall);
      }
    } else {
      var r := RankAbove(Seps(root));
      HighDescent(root, tree.height, r, tall);
    }
  }

  // Among them all searches for what the last leaf holds.
  lemma {:induction false} LastLeafIsLost<T(!new), V(!new)>(tree: RawBTree<T, V>, e: Entry<T, V>)
    requires Half(tree) && !tree.Searchable() && e in HeldAt(tree.arena, tree.chain[|tree.chain| - 1])
    ensures Descend(tree.root.value, tree.height, e.key.rank + 1, IsTall(tree.height)) == None
  {
    var seps := Seps(tree.root.value);
    HalfWorks(tree);
    LeavesGuidedHolds(tree.arena, tree.chain, seps, |tree.chain|);
    assert GuidedAt(tree.arena, tree.chain, seps, |tree.chain| - 1);
    NonDecreasingOrdered(seps);
    HighDescent(tree.root.value, tree.height, e.key.rank + 1, IsTall(tree.height));
  }

  lemma {:induction false} SearchableIsWhole<T(!new), V(!new)>(tree: RawBTree<T, V>)
    requires tree.Searchable() && tree.root.Some?
    ensures Whole(tree.arena, tree.root.value, tree.height, tree.leafCap, tree.innerCap)
    ensures tree.chain == Leaves(tree.root.value)
  {
  }

  lemma {:induction false} SolidPart<K, V>(a: seq<Leaf<K, V>>, chain: seq<nat>, some: seq<nat>)
    requires Solid(a, chain) && forall c :: c in some ==> c in chain
    ensures Solid(a, some)
  {
  }

  // How many entries lie on either side of the cut.
  function LeftLength<K, V>(a: seq<Leaf<K, V>>, chain: seq<nat>, p: nat, i: nat): nat
    requires Solid(a, chain) && p < |chain|
  {
    SolidPart(a, chain, chain[..p]);
    CountHeld(a, chain[..p]) + i
  }

  function RightLength<K, V>(a: seq<Leaf<K, V>>, chain: seq<nat>, p: nat, i: nat): nat
    requires Solid(a, chain) && p < |chain| && i <= |HeldAt(a, chain[p])|
  {
    SolidPart(a, chain, chain[p + 1..]);
    assert chain[p] in chain;
    a[chain[p]].len - i + CountHeld(a, chain[p + 1..])
  }

  lemma {:induction false} CutCounts<T, V>(a: seq<LeafOf<T, V>>, chain: seq<nat>, p: nat, i: nat)
    requires Solid(a, chain) && p < |chain| && i <= |HeldAt(a, chain[p])|
    ensures LeftLength(a, chain, p, i) == Offset(a, chain, p) + i
    ensures LeftLength(a, chain, p, i) + RightLength(a, chain, p, i) == |Items(a, chain)|
  {
    assert chain[p] in chain;
    SolidPart(a, chain, chain[..p]);
    SolidPart(a, chain, chain[p + 1..]);
    CountIsLength(a, chain[..p]);
    CountIsLength(a, chain[p + 1..]);
    ItemsAround(a, chain, p);
  }

  // What lies left of slot i of the leaf at position p, kept in its arena or
  // copied; the side that is copied is the one whose entries are counted.
  method LeftTree<T, V>(a: seq<LeafOf<T, V>>, n: Node<T>, p: nat, i: nat, len: nat, ghost k: nat,
                        ghost h: nat, ghost leafCap: nat, ghost innerCap: nat, copied: bool)
    returns (left: Part<T, V>)
    requires Whole(a, n, h, leafCap, innerCap) && p < |Leaves(n)| && i < |HeldAt(a, Leaves(n)[p])| &&
        LeftCount(p, i) > 0
    requires len == |Items(a, Leaves(n))| && k == Offset(a, Leaves(n), p) + i
    ensures IsLeftOf(left, a, n, p, i, leafCap, innerCap) && left.len == k
  {
    CutIsReady(a, n, p, i, h, leafCap, innerCap);
    CutCounts(a, Leaves(n), p, i);
    if copied {
      left := CopiedLeft(a, n, p, i, LeftLength(a, Leaves(n), p, i));
      CopiedLeftIsLeft(a, n, p, i, k, h, leafCap, innerCap);
    } else {
      left := KeptLeft(a, n, p, i, len - RightLength(a, Leaves(n), p, i));
      KeptLeftIsLeft(a, n, p, i, k, h, leafCap, innerCap);
    }
  }

  method RightTree<T, V>(a: seq<LeafOf<T, V>>, n: Node<T>, p: nat, i: nat, len: nat, ghost k: nat,
                         ghost h: nat, ghost leafCap: nat, ghost innerCap: nat, copied: bool)
    returns (right: Part<T, V>)
    requires Whole(a, n, h, leafCap, innerCap) && p < |Leaves(n)| && i < |HeldAt(a, Leaves(n)[p])| &&
        LeftCount(p, i) > 0
    requires len == |Items(a, Leaves(n))| && k == Offset(a, Leaves(n), p) + i
    ensures IsRightOf(right, a, n, p, k, leafCap, innerCap)
  {
    CutIsReady(a, n, p, i, h, leafCap, innerCap);
    CutCounts(a, Leaves(n), p, i);
    if copied {
      right := CopiedRight(a, n, p, i, RightLength(a, Leaves(n), p, i));
      CopiedRightIsRight(a, n, p, i, right.len, k, h, leafCap, innerCap);
    } else {
      right := KeptRight(a, n, p, i, len - LeftLength(a, Leaves(n), p, i));
      KeptRightIsRight(a, n, p, i, right.len, k, h, leafCap, innerCap);
    }
  }

  // Two trees that came of the interior n by a cut at slot i of the leaf at
  // position p.  Each works exactly when the way to the leaf at its side of the
  // cut, once it has turned away from the cut's side, keeps away.
  ghost predicate Severed<T(!new), V(!new)>(tree: RawBTree<T, V>, right: RawBTree<T, V>, n: Node<T>, p: nat, i: nat)
    reads tree, right
  {
    && Half(tree) && Half(right)
    && LeftCount(p, i) > 0 && LeftCount(p, i) - 1 <= |Seps(n)| && tree.Seps() == Seps(n)[..LeftCount(p, i) - 1]
    && p <= |Seps(n)| && right.Seps() == Seps(n)[p..]
    && (tree.Searchable() <==> FirstsComeFirst(Path(n, LeftCount(p, i) - 1)))
    && (right.Searchable() <==> LastsComeFirst(Path(n, p)))
  }

  // Cuts a tree in front of rank r.  Whichever part was copied, the tree has the left one.
  method Cut<T(!new), V(!new)>(tree: RawBTree<T, V>, c: nat, i: nat, ghost p: nat, ghost r: int, leftIsSmaller: bool,
                               ghost all: seq<Entry<T, V>>, ghost n: Node<T>)
    returns (right: RawBTree<T, V>)
    requires tree.Searchable() && tree.root == Some(n) && all == tree.Contents() && tree.BoundAt(c, i, p, r) &&
        LeftCount(p, i) > 0
    modifies tree
    ensures fresh(right) && right.leafCap == tree.leafCap && right.innerCap == tree.innerCap
    ensures RankIn(all, r) <= |all| && tree.Contents() == all[..RankIn(all, r)] &&
        right.Contents() == all[RankIn(all, r)..]
    ensures Severed(tree, right, n, p, i)
  {
    var a, root := tree.arena, tree.root.value;
    var at := TreeInsert.PositionOf(Leaves(root), c);
    ghost var k := RankIn(all, r);
    DistinctAt(Leaves(root), at, p);
    SearchableIsWhole(tree);
    var left := LeftTree(a, root, at, i, tree.len, k, tree.height, tree.leafCap, tree.innerCap, leftIsSmaller);
    var rest := RightTree(a, root, at, i, tree.len, k, tree.height, tree.leafCap, tree.innerCap, !leftIsSmaller);
    right := Divide(tree, left, rest);
  }

  method Divide<T(!new), V(!new)>(tree: RawBTree<T, V>, left: Part<T, V>,
                  rest: Part<T, V>) returns (right: RawBTree<T, V>)
    requires tree.leafCap >= 1 && tree.innerCap >= 2
    requires Sound(left, tree.leafCap, tree.innerCap) && Sound(rest, tree.leafCap, tree.innerCap)
    modifies tree
    ensures fresh(right) && right.leafCap == tree.leafCap && right.innerCap == tree.innerCap && Half(tree) &&
        Half(right)
    ensures tree.Seps() == Seps(left.root) && right.Seps() == Seps(rest.root)
    ensures tree.Contents() == Items(left.arena, Leaves(left.root))
    ensures right.Contents() == Items(rest.arena, Leaves(rest.root))
    ensures tree.Searchable() <==> RightDepth(left.root) == LeftDepth(left.root)
    ensures right.Searchable() <==> RightDepth(rest.root) == LeftDepth(rest.root)
  {
    Become(tree, left);
    right := new RawBTree(tree.leafCap, tree.innerCap);
    Become(right, rest);
  }

  // Everything goes over to another tree.
  method MoveAll<T(!new), V(!new)>(tree: RawBTree<T, V>) returns (right: RawBTree<T, V>)
    requires tree.Searchable()
    modifies tree
    ensures fresh(right) && right.leafCap == tree.leafCap && right.innerCap == tree.innerCap
    ensures tree.Searchable() && tree.Contents() == []
    ensures right.Searchable() && right.Contents() == old(tree.Contents())
  {
    right := new RawBTree.Taking(tree);
    tree.Clear();
  }

  // Splits at rank `at`, copying the side that an estimate says is the smaller
  // one.  Whichever it is, the entries go where they should whenever the search
  // for the cut finds it; each tree still works exactly when the way to the
  // leaf at its side of the cut is as told.
  method SplitOff<T(!new), V(!new)>(tree: RawBTree<T, V>, at: int, leftIsSmaller: bool)
    returns (right: RawBTree<T, V>, ghost cut: Option<(nat, nat)>)
    requires tree.Searchable()
    modifies tree
    ensures fresh(right) && right.leafCap == tree.leafCap && right.innerCap == tree.innerCap
    ensures old(RankIn(tree.Contents(), at)) <= |old(tree.Contents())|
    ensures cut.None? ==> unchanged(tree) && right.Searchable() && right.Contents() == []
    ensures cut.None? ==> (old(RankIn(tree.Contents(), at)) == |old(tree.Contents())| <==> !old(tree.Misses(at)))
    ensures cut.Some? ==> tree.Contents() == old(tree.Contents())[..old(RankIn(tree.Contents(), at))]
    ensures cut.Some? ==> right.Contents() == old(tree.Contents())[old(RankIn(tree.Contents(), at))..]
    ensures cut == Some((0, 0)) ==> tree.Searchable() && right.Searchable() && tree.Contents() == []
    ensures cut.Some? && cut.value != (0, 0) ==>
      && old(tree.root.Some?) && cut.value.0 < |old(tree.chain)|
      && old(tree.BoundAt(tree.chain[cut.value.0], cut.value.1, cut.value.0, at))
      && Severed(tree, right, old(tree.root.value), cut.value.0, cut.value.1)
  {
    ghost var all := tree.Contents();
    RankInBound(all, at);
    var bound, p := tree.LowerBound(at);
    assert tree.Contents() == all && tree.Misses(at) == old(tree.Misses(at));
    assert bound.Some? ==> p < |old(tree.chain)| && old(tree.BoundAt(tree.chain[p], bound.value.1, p, at));
    if bound == None {
      right := new RawBTree(tree.leafCap, tree.innerCap);
      cut := None;
      return;
    }
    var (c, i) := bound.value;
    cut := Some((p, i));
    if c == tree.firstLeaf && i == 0 {
      DistinctAt(tree.chain, 0, p);
      right := MoveAll(tree);
    } else {
      ghost var n := tree.root.value;
      assert n == old(tree.root.value) && (p, i) != (0, 0) && LeftCount(p, i) > 0;
      right := Cut(tree, c, i, p, at, leftIsSmaller, all, n);
      assert cut.value == (p, i) && old(tree.Contents()) == all;
    }
  }
}
