// In-place retain: every leaf is compacted where it stands, and leaves that
// lose all their entries stay in the chain.

module Retain {
  import opened Seqs
  import opened LeafChain
  import opened SortedEntries
  import opened Wrappers
  import opened Interior
  import opened Guides
  import opened RawBTree

  // The caller's predicate may keep state and may rewrite the value it is
  // shown.  What it does on its i-th call to the entry it is shown:
  type Judge<!T, !V> = (nat, Key<T>, V) -> (bool, V)

  function Verdict<T, V>(f: Judge<T, V>, i: nat, e: Entry<T, V>): (bool, Entry<T, V>) {
    var (keep, v) := f(i, e.key, e.val);
    (keep, Slot(e.key, v))
  }

  // What is left of one entry shown to the predicate on call i.
  function KeptOf<T, V>(f: Judge<T, V>, i: nat, e: Entry<T, V>): seq<Entry<T, V>> {
    var (keep, after) := Verdict(f, i, e);
    if keep then [after] else []
  }

  // What is left of a sequence whose entries are shown in order from call i on.
  function Retained<T, V>(f: Judge<T, V>, i: nat, s: seq<Entry<T, V>>): seq<Entry<T, V>>
    decreases |s|
  {
    if s == [] then [] else KeptOf(f, i, s[0]) + Retained(f, i + 1, s[1..])
  }

  lemma {:induction false} RetainedConcat<T, V>(f: Judge<T, V>, i: nat, a: seq<Entry<T, V>>, b: seq<Entry<T, V>>,
                                                j: nat)
    requires j == i + |a|
    ensures Retained(f, i, a + b) == Retained(f, i, a) + Retained(f, j, b)
    decreases |a|
  {
    if a == [] {
      NothingBefore(a, b);
      NothingBefore(Retained(f, i, a), Retained(f, j, b));
    } else {
      TailOfConcat(a, b);
      RetainedConcat(f, i + 1, a[1..], b, j);
      Assoc(KeptOf(f, i, a[0]), Retained(f, i + 1, a[1..]), Retained(f, j, b));
    }
  }

  lemma {:induction false} RetainedStep<T, V>(f: Judge<T, V>, i: nat, s: seq<Entry<T, V>>, n: nat)
    requires n < |s|
    ensures Retained(f, i, s[..n + 1]) == Retained(f, i, s[..n]) + KeptOf(f, i + n, s[n])
  {
    assert s[..n + 1] == s[..n] + [s[n]];
    RetainedConcat(f, i, s[..n], [s[n]], i + n);
    assert Retained(f, i + n, [s[n]]) == KeptOf(f, i + n, s[n]) + [];
  }

  // Retaining keeps the order of the keys and adds none.
  lemma {:induction false} RetainedKeysWereThere<T, V>(f: Judge<T, V>, i: nat, s: seq<Entry<T, V>>,
                                                       j: nat) returns (k: nat)
    requires j < |Retained(f, i, s)|
    ensures j <= k < |s| && Retained(f, i, s)[j].key == s[k].key
    decreases |s|
  {
    var kept := KeptOf(f, i, s[0]);
    if j < |kept| {
      k := 0;
    } else {
      k := RetainedKeysWereThere(f, i + 1, s[1..], j - |kept|);
      k := k + 1;
    }
  }

  lemma {:induction false} RetainedAscends<T, V>(f: Judge<T, V>, i: nat, s: seq<Entry<T, V>>)
    requires Ascending(s)
    ensures Ascending(Retained(f, i, s))
    decreases |s|
  {
    if s != [] {
      RetainedAscends(f, i + 1, s[1..]);
      var rest := Retained(f, i + 1, s[1..]);
      forall j | 0 <= j < |rest| ensures s[0].key.rank < rest[j].key.rank {
        var k := RetainedKeysWereThere(f, i + 1, s[1..], j);
      }
    }
  }

  // The answers of the map t, told by the predicate alone: the i-th entry of s is
  // there, with the value it was given, exactly when it was accepted, and no key
  // is there that s does not have.
  ghost predicate JudgedBy<T(!new), V(!new)>(f: Judge<T, V>, s: seq<Entry<T, V>>, t: seq<Entry<T, V>>) {
    && (forall i :: 0 <= i < |s| ==>
          Lookup(t, s[i].key.rank) ==
            if f(i, s[i].key, s[i].val).0 then Some(Slot(s[i].key, f(i, s[i].key, s[i].val).1)) else None)
    && (forall r :: Lookup(s, r) == None ==> Lookup(t, r) == None)
  }

  lemma {:induction false} RetainedAnswers<T, V>(f: Judge<T, V>, i: nat, s: seq<Entry<T, V>>, j: nat)
    requires Ascending(s) && j < |s|
    ensures var (keep, v) := f(i + j, s[j].key, s[j].val);
            Lookup(Retained(f, i, s), s[j].key.rank) == if keep then Some(Slot(s[j].key, v)) else None
    decreases |s|
  {
    var rest, r := s[1..], s[j].key.rank;
    LookupInConcat(KeptOf(f, i, s[0]), Retained(f, i + 1, rest), r);
    if j == 0 {
      BelowAllMissing(rest, r);
      LaterMissing(f, i + 1, rest, r);
    } else {
      RetainedAnswers(f, i + 1, rest, j - 1);
      assert rest[j - 1] == s[j] && s[0].key.rank < r;
    }
  }

  lemma {:induction false} LaterMissing<T, V>(f: Judge<T, V>, i: nat, s: seq<Entry<T, V>>, r: int)
    requires Lookup(s, r) == None
    ensures Lookup(Retained(f, i, s), r) == None
    decreases |s|
  {
    if s != [] {
      LaterMissing(f, i + 1, s[1..], r);
      LookupInConcat(KeptOf(f, i, s[0]), Retained(f, i + 1, s[1..]), r);
    }
  }

  lemma {:induction false} RetainedIsJudged<T(!new), V(!new)>(f: Judge<T, V>, s: seq<Entry<T, V>>)
    requires Ascending(s)
    ensures JudgedBy(f, s, Retained(f, 0, s))
  {
    forall i | 0 <= i < |s|
      ensures Lookup(Retained(f, 0, s), s[i].key.rank) ==
        if f(i, s[i].key, s[i].val).0 then Some(Slot(s[i].key, f(i, s[i].key, s[i].val).1)) else None
    {
      RetainedAnswers(f, 0, s, i);
    }
    forall r | Lookup(s, r) == None ensures Lookup(Retained(f, 0, s), r) == None {
      LaterMissing(f, 0, s, r);
    }
  }

  // Slots [i + 1, len) move one place to the left.
  method ShiftLeft<X>(slots: seq<X>, i: nat, len: nat) returns (shifted: seq<X>)
    requires i < len <= |slots|
    ensures |shifted| == |slots|
    ensures shifted[..i] == slots[..i] && shifted[i..len - 1] == slots[i + 1..len]
    ensures shifted[len - 1..] == slots[len - 1..]
  {
    shifted := slots;
    for j := i to len - 1
      invariant |shifted| == |slots|
      invariant shifted[..i] == slots[..i] && shifted[j..] == slots[j..]
      invariant shifted[i..j] == slots[i + 1..j + 1]
    {
      assert shifted[j + 1] == shifted[j..][1] == slots[j + 1];
      ghost var was := shifted;
      shifted := shifted[j := shifted[j + 1]];
      assert shifted[i..j + 1] == was[i..j] + [slots[j + 1]];
      assert shifted[j + 1..] == was[j..][1..];
    }
  }

  // A leaf that has lost everything still has, in its dead slot 0, the key of the last entry it lost.
  ghost predicate LastLost<T, V>(before: LeafOf<T, V>, leaf: LeafOf<T, V>) {
    Held(leaf) == [] && Held(before) != [] ==>
      leaf.slots != [] && leaf.slots[0].key == Held(before)[|Held(before)| - 1].key
  }

  // The slot looked at holds the next entry, and those behind it the rest.
  lemma {:induction false} NextShown<X>(slots: seq<X>, i: nat, len: nat, orig: seq<X>, n: nat)
    requires i < len <= |slots| && n < |orig| && slots[i..len] == orig[n..]
    ensures slots[i] == orig[n] && slots[i + 1..len] == orig[n + 1..]
  {
    assert slots[i..len][0] == orig[n..][0];
    assert slots[i..len][1..] == slots[i + 1..len] && orig[n..][1..] == orig[n + 1..];
  }

  lemma {:induction false} Overwritten<X>(slots: seq<X>, i: nat, len: nat, after: X)
    requires i < len <= |slots|
    ensures slots[i := after][..i] == slots[..i] && slots[i := after][..i + 1] == slots[..i] + [after]
    ensures slots[i := after][i + 1..len] == slots[i + 1..len]
  {
  }

  // The loop over one leaf.  An entry that goes is overwritten by the ones
  // behind it, and the next to be shown has moved into its place.
  method RetainLeaf<T, V>(before: LeafOf<T, V>, f: Judge<T, V>, calls: nat) returns (leaf: LeafOf<T, V>)
    requires before.len <= |before.slots|
    ensures leaf.len <= |leaf.slots| == |before.slots| && leaf.len <= before.len
    ensures leaf.next == before.next && leaf.prev == before.prev
    ensures Held(leaf) == Retained(f, calls, Held(before))
    ensures LastLost(before, leaf)
  {
    var slots, len, i, n := before.slots, before.len, 0, 0;
    ghost var orig := Held(before);
    while i < len
      invariant i <= len <= |slots| == |before.slots| && n <= |orig| && len - i == |orig| - n
      invariant slots[..i] == Retained(f, calls, orig[..n])
      invariant slots[i..len] == orig[n..]
      invariant len <= before.len
      invariant len == 0 && n > 0 ==> slots != [] && slots[0].key == orig[n - 1].key
      decreases |orig| - n
    {
      RetainedStep(f, calls, orig, n);
      NextShown(slots, i, len, orig, n);
      var (keep, after) := Verdict(f, calls + n, slots[i]);
      Overwritten(slots, i, len, after);
      slots := slots[i := after];
      if keep {
        i := i + 1;
      } else {
        slots := ShiftLeft(slots, i, len);
        len := len - 1;
      }
      n := n + 1;
    }
    assert orig[..n] == orig;
    leaf := before.(slots := slots, len := len);
  }

  lemma {:induction false} RetainedWithin<T, V>(f: Judge<T, V>, i: nat, s: seq<Entry<T, V>>, lo: Option<int>,
                                                hi: Option<int>)
    requires Within(s, lo, hi)
    ensures Within(Retained(f, i, s), lo, hi)
    decreases |s|
  {
    if s != [] {
      assert s[0] in s;
      RetainedWithin(f, i + 1, s[1..], lo, hi);
    }
  }

  // Compacts the leaf at position p.
  method RetainAt<T(!new), V(!new)>(tree: RawBTree<T, V>, c: nat, ghost p: nat, f: Judge<T, V>, calls: nat)
    returns (shown: nat, ghost leaf: LeafOf<T, V>)
    requires tree.Valid() && p < |tree.chain| && c == tree.chain[p]
    modifies tree`arena, tree`len
    ensures tree.Valid()
    ensures c < |old(tree.arena)| && tree.arena == old(tree.arena)[c := leaf]
    ensures leaf.len <= |leaf.slots| && leaf.next == old(tree.arena)[c].next && leaf.prev == old(tree.arena)[c].prev
    ensures shown == |HeldAt(old(tree.arena), c)|
    ensures Held(leaf) == Retained(f, calls, HeldAt(old(tree.arena), c)) && LastLost(old(tree.arena)[c], leaf)
  {
    LinksAt(tree.arena, tree.chain, p);
    LeavesFitHolds(tree.arena, tree.chain, tree.leafCap);
    var before := tree.arena[c];
    var after := RetainLeaf(before, f, calls);
    EditedIsValid(tree.arena, tree.chain, tree.leafCap, p, after);
    tree.arena, tree.len := tree.arena[c := after], tree.len - (before.len - after.len);
    shown, leaf := before.len, after;
  }

  // The leaves from position p on hold what they held.
  ghost predicate Untouched<T, V>(was: seq<LeafOf<T, V>>, a: seq<LeafOf<T, V>>, chain: seq<nat>, p: nat)
    decreases |chain| - p
  {
    p >= |chain| || (HeldAt(a, chain[p]) == HeldAt(was, chain[p]) && Untouched(was, a, chain, p + 1))
  }

  lemma {:induction false} UntouchedOn<T, V>(was: seq<LeafOf<T, V>>, a: seq<LeafOf<T, V>>, b: seq<LeafOf<T, V>>,
                                             chain: seq<nat>,
                                            p: nat, c: nat)
    requires p <= |chain| && Untouched(was, a, chain, p) && c !in chain[p..]
    requires forall q: nat :: q != c ==> HeldAt(a, q) == HeldAt(b, q)
    ensures Untouched(was, b, chain, p)
    decreases |chain| - p
  {
    if p < |chain| {
      assert chain[p] in chain[p..];
      assert forall x :: x in chain[p + 1..] ==> x in chain[p..];
      UntouchedOn(was, a, b, chain, p + 1, c);
    }
  }

  // Each of the first p leaves holds what is left of its own entries.
  ghost predicate Compacted<T, V>(f: Judge<T, V>, was: seq<LeafOf<T, V>>, a: seq<LeafOf<T, V>>, chain: seq<nat>,
                                  p: nat) {
    p == 0 || (p <= |chain|
               && HeldAt(a, chain[p - 1]) == Retained(f, |Items(was, chain[..p - 1])|, HeldAt(was, chain[p - 1]))
               && Compacted(f, was, a, chain, p - 1))
  }

  // Of the first p leaves, those that have been emptied show the last key they held.
  ghost predicate ShowLast<T, V>(was: seq<LeafOf<T, V>>, a: seq<LeafOf<T, V>>, chain: seq<nat>, p: nat) {
    p == 0 || (p <= |chain| && ShowsLast(was, a, chain[p - 1]) && ShowLast(was, a, chain, p - 1))
  }

  ghost predicate ShowsLast<T, V>(was: seq<LeafOf<T, V>>, a: seq<LeafOf<T, V>>, c: nat) {
    HeldAt(a, c) == [] && HeldAt(was, c) != [] ==>
      && c < |a| && a[c].slots != []
      && a[c].slots[0].key == HeldAt(was, c)[|HeldAt(was, c)| - 1].key
  }

  lemma {:induction false} ShowLastOn<T, V>(was: seq<LeafOf<T, V>>, a: seq<LeafOf<T, V>>, b: seq<LeafOf<T, V>>,
                                            chain: seq<nat>,
                                            p: nat, c: nat)
    requires p <= |chain| && ShowLast(was, a, chain, p) && c !in chain[..p] && |a| == |b|
    requires forall q :: 0 <= q < |a| && q != c ==> b[q] == a[q]
    ensures ShowLast(was, b, chain, p)
  {
    if p > 0 {
      assert chain[p - 1] in chain[..p];
      assert forall x :: x in chain[..p - 1] ==> x in chain[..p];
      ShowLastOn(was, a, b, chain, p - 1, c);
    }
  }

  lemma {:induction false} ShowLastAt<T, V>(was: seq<LeafOf<T, V>>, a: seq<LeafOf<T, V>>, chain: seq<nat>, p: nat,
                                            q: nat)
    requires p <= |chain| && ShowLast(was, a, chain, p) && q < p
    ensures ShowsLast(was, a, chain[q])
  {
    if q < p - 1 {
      ShowLastAt(was, a, chain, p - 1, q);
    }
  }

  lemma {:induction false} CompactedOn<T, V>(f: Judge<T, V>, was: seq<LeafOf<T, V>>, a: seq<LeafOf<T, V>>,
                                             b: seq<LeafOf<T, V>>,
                                            chain: seq<nat>, p: nat, c: nat)
    requires p <= |chain| && Compacted(f, was, a, chain, p) && c !in chain[..p]
    requires forall q: nat :: q != c ==> HeldAt(a, q) == HeldAt(b, q)
    ensures Compacted(f, was, b, chain, p)
  {
    if p > 0 {
      assert chain[p - 1] in chain[..p];
      assert forall x :: x in chain[..p - 1] ==> x in chain[..p];
      CompactedOn(f, was, a, b, chain, p - 1, c);
    }
  }

  // The leaves in front of position p are done and those from there on untouched.
  ghost predicate Done<T, V>(f: Judge<T, V>, was: seq<LeafOf<T, V>>, a: seq<LeafOf<T, V>>, chain: seq<nat>, p: nat) {
    && p <= |chain|
    && Items(a, chain[..p]) == Retained(f, 0, Items(was, chain[..p]))
    && Compacted(f, was, a, chain, p)
    && ShowLast(was, a, chain, p)
    && Untouched(was, a, chain, p)
  }

  lemma {:induction false} AllUntouched<T, V>(a: seq<LeafOf<T, V>>, chain: seq<nat>, p: nat)
    ensures Untouched(a, a, chain, p)
    decreases |chain| - p
  {
    if p < |chain| {
      AllUntouched(a, chain, p + 1);
    }
  }

  // The entries of one leaf more.
  lemma {:induction false} ItemsStep<T, V>(f: Judge<T, V>, was: seq<LeafOf<T, V>>, a: seq<LeafOf<T, V>>,
                                           b: seq<LeafOf<T, V>>, chain: seq<nat>, p: nat)
    requires p < |chain| && Items(b, chain[..p]) == Items(a, chain[..p]) == Retained(f, 0, Items(was, chain[..p]))
    requires HeldAt(b, chain[p]) == Retained(f, |Items(was, chain[..p])|, HeldAt(was, chain[p]))
    ensures Items(b, chain[..p + 1]) == Retained(f, 0, Items(was, chain[..p + 1]))
    ensures |Items(was, chain[..p + 1])| == |Items(was, chain[..p])| + |HeldAt(was, chain[p])|
  {
    ItemsAround(was, chain, p);
    ItemsAround(b, chain, p);
    RetainedConcat(f, 0, Items(was, chain[..p]), HeldAt(was, chain[p]), |Items(was, chain[..p])|);
  }

  lemma {:induction false} DoneStep<T, V>(f: Judge<T, V>, was: seq<LeafOf<T, V>>, a: seq<LeafOf<T, V>>, chain: seq<nat>,
                                         p: nat, leaf: LeafOf<T, V>)
    requires p < |chain| && Distinct(chain) && Done(f, was, a, chain, p)
    requires chain[p] < |a|
    requires Held(leaf) == Retained(f, |Items(was, chain[..p])|, HeldAt(was, chain[p])) && LastLost(a[chain[p]], leaf)
    ensures Done(f, was, a[chain[p] := leaf], chain, p + 1)
    ensures |Items(was, chain[..p + 1])| == |Items(was, chain[..p])| + |HeldAt(was, chain[p])|
  {
    var b := a[chain[p] := leaf];
    ItemsElsewhere(a, b, chain, p);
    ItemsStep(f, was, a, b, chain, p);
    DistinctTail(chain, p);
    UntouchedOn(was, a, b, chain, p + 1, chain[p]);
    DistinctHolds(chain);
    CompactedOn(f, was, a, b, chain, p, chain[p]);
    ShowLastOn(was, a, b, chain, p, chain[p]);
  }

  lemma {:induction false} GuidedStep<T, V>(f: Judge<T, V>, calls: nat, a: seq<LeafOf<T, V>>, chain: seq<nat>,
                                            seps: seq<Key<T>>,
                                           p: nat, leaf: LeafOf<T, V>)
    requires Guided(a, chain, seps) && Distinct(chain) && p < |chain| && chain[p] < |a|
    requires Held(leaf) == Retained(f, calls, HeldAt(a, chain[p]))
    ensures Guided(a[chain[p] := leaf], chain, seps)
  {
    LeavesGuidedHolds(a, chain, seps, |chain|);
    assert GuidedAt(a, chain, seps, p);
    RetainedWithin(f, calls, HeldAt(a, chain[p]), LowerGuide(seps, p), UpperGuide(seps, p));
    EditedStaysGuided(a, chain, seps, p, leaf);
  }

  // Keeps the entries that the predicate accepts, each shown once and in order.
  method Retain<T(!new), V(!new)>(tree: RawBTree<T, V>, f: Judge<T, V>)
    requires tree.Valid()
    modifies tree
    ensures tree.Valid()
    ensures tree.Contents() == Retained(f, 0, old(tree.Contents()))
    ensures old(Ascending(tree.Contents())) ==> JudgedBy(f, old(tree.Contents()), tree.Contents())
    ensures old(tree.Searchable()) ==> tree.Searchable()
    ensures tree.len == 0 ==> tree.root == None && tree.chain == []
    ensures tree.len > 0 ==> tree.chain == old(tree.chain) && tree.root == old(tree.root)
    ensures tree.len > 0 ==> tree.height == old(tree.height)
    ensures tree.len > 0 ==> Compacted(f, old(tree.arena), tree.arena, tree.chain, |tree.chain|)
    ensures tree.len > 0 ==> ShowLast(old(tree.arena), tree.arena, tree.chain, |tree.chain|)
  {
    ghost var was, chain, seps := tree.arena, tree.chain, tree.Seps();
    ghost var guided := tree.root.Some? && Guided(was, chain, seps);
    RetainLeaves(tree, f, guided);
    assert chain[..|chain|] == chain;
    if old(Ascending(tree.Contents())) {
      RetainedAscends(f, 0, old(tree.Contents()));
      RetainedIsJudged(f, old(tree.Contents()));
    }
    if tree.len == 0 {
      tree.Clear();
    }
  }

  // Goes over one leaf and says which comes next.
  method RetainStep<T(!new), V(!new)>(tree: RawBTree<T, V>, f: Judge<T, V>, c: nat, calls: nat, ghost p: nat,
                                      ghost was: seq<LeafOf<T, V>>, ghost guided: bool)
    returns (next: int, shown: nat)
    requires tree.Valid() && p < |tree.chain| && c == tree.chain[p]
    requires calls == |Items(was, tree.chain[..p])| && Done(f, was, tree.arena, tree.chain, p)
    requires guided ==> Guided(tree.arena, tree.chain, tree.Seps())
    modifies tree`arena, tree`len
    ensures tree.Valid() && Done(f, was, tree.arena, tree.chain, p + 1)
    ensures guided ==> Guided(tree.arena, tree.chain, tree.Seps())
    ensures next == NodeAt(tree.chain, p + 1) && calls + shown == |Items(was, tree.chain[..p + 1])|
  {
    ghost var a, chain, seps := tree.arena, tree.chain, tree.Seps();
    LinksAt(a, chain, p);
    next := tree.arena[c].next;
    ghost var leaf;
    shown, leaf := RetainAt(tree, c, p, f, calls);
    DoneStep(f, was, a, chain, p, leaf);
    if guided {
      GuidedStep(f, calls, a, chain, seps, p, leaf);
    }
  }

  method RetainLeaves<T(!new), V(!new)>(tree: RawBTree<T, V>, f: Judge<T, V>, ghost guided: bool)
    requires tree.Valid() && (guided ==> Guided(tree.arena, tree.chain, tree.Seps()))
    modifies tree`arena, tree`len
    ensures tree.Valid() && (guided ==> Guided(tree.arena, tree.chain, tree.Seps()))
    ensures Done(f, old(tree.arena), tree.arena, tree.chain, |tree.chain|)
  {
    var leafIdx, calls := tree.firstLeaf, 0;
    ghost var was, p := tree.arena, 0;
    assert tree.chain[..0] == [];
    AllUntouched(was, tree.chain, 0);
    while leafIdx != NO_NODE
      invariant tree.Valid()
      invariant 0 <= p <= |tree.chain| && leafIdx == NodeAt(tree.chain, p)
      invariant calls == |Items(was, tree.chain[..p])| && Done(f, was, tree.arena, tree.chain, p)
      invariant guided ==> Guided(tree.arena, tree.chain, tree.Seps())
      decreases |tree.chain| - p
    {
      var next, shown := RetainStep(tree, f, leafIdx, calls, p, was, guided);
      leafIdx, calls, p := next, calls + shown, p + 1;
    }
  }
}
