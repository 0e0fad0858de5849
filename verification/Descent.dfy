// How a descent chooses a child, and where descents end.  In trees of height
// below 3 the keys of a node are scanned from the left; in taller ones they are
// bisected.  Both choose alike as long as the keys are in order.

module Descent {
  import opened Seqs
  import opened SortedEntries
  import opened Interior

  // --- Choosing a child ------------------------------------------------------

  function NodeKeys<T>(rest: seq<Branch<T>>): (keys: seq<Key<T>>)
    ensures |keys| == |rest| && forall i :: 0 <= i < |rest| ==> keys[i] == rest[i].key
  {
    seq(|rest|, i requires 0 <= i < |rest| => rest[i].key)
  }

  function ChildAt<T>(first: Node<T>, rest: seq<Branch<T>>, i: nat): (c: Node<T>)
    requires i <= |rest|
    ensures Size(c) <= Size(first) + Sizes(rest)
  {
    if i == 0 then first
    else
      SizeWithin(rest, i - 1);
      rest[i - 1].child
  }

  lemma {:induction false} SizeWithin<T>(rest: seq<Branch<T>>, i: nat)
    requires i < |rest|
    ensures Size(rest[i].child) <= Sizes(rest)
    decreases |rest|
  {
    if i > 0 {
      var tail := rest[1..];
      SizeWithin(tail, i - 1);
      assert tail[i - 1] == rest[i];
    }
  }

  // The loop behind the library's partition_point, for "the key is below r".
  // On keys that are not in order it still gives an answer, and this is the one.
  function BisectFrom<T>(keys: seq<Key<T>>, base: nat, size: nat, r: int): (at: nat)
    requires size >= 1 && base + size <= |keys|
    ensures at <= base + size
    decreases size
  {
    if size == 1 then
      if keys[base].rank < r then base + 1 else base
    else
      var half := size / 2;
      BisectFrom(keys, if keys[base + half].rank < r then base + half else base, size - half, r)
  }

  function Bisect<T>(keys: seq<Key<T>>, r: int): (at: nat)
    ensures at <= |keys|
  {
    if keys == [] then 0 else BisectFrom(keys, 0, |keys|, r)
  }

  // How many keys a scan for rank r passes.
  function Scan<T>(keys: seq<Key<T>>, r: int, tall: bool): nat {
    if tall then Bisect(keys, r) else Below(keys, r)
  }

  function ChildBy<T>(first: Node<T>, rest: seq<Branch<T>>, r: int, tall: bool): (c: Node<T>)
    ensures Size(c) <= Size(first) + Sizes(rest)
  {
    if tall then ChildAt(first, rest, Bisect(NodeKeys(rest), r)) else ChildFor(first, rest, r)
  }

  // The leaf that a descent for rank r ends in.
  function RouteBy<T>(n: Node<T>, r: int, tall: bool): nat
    decreases Size(n)
  {
    match n
    case LeafAt(i) => i
    case Inner(first, rest) => RouteBy(ChildBy(first, rest, r, tall), r, tall)
  }

  // Trees of height 3 and more are bisected, lower ones scanned.
  predicate IsTall(height: nat) {
    height >= 3
  }

  // --- Both scans of keys in order -------------------------------------------

  ghost predicate Sorted<T>(keys: seq<Key<T>>) {
    forall i, j :: 0 <= i < j < |keys| ==> keys[i].rank <= keys[j].rank
  }

  lemma {:induction false} BelowSplits<T>(keys: seq<Key<T>>, r: int, j: nat)
    requires Sorted(keys) && j < |keys|
    ensures keys[j].rank < r <==> j < Below(keys, r)
  {
    BelowBound(keys, r);
  }

  // Of the keys the first m are in order and at most one more follows: a bisection
  // ends where the m keys below r end, or behind that last key.
  lemma {:induction false} BisectEnds<T>(keys: seq<Key<T>>, base: nat, size: nat, r: int, m: nat, b: nat)
    requires size >= 1 && base + size <= |keys| && m <= |keys| <= m + 1
    requires base + size <= m || base + size == |keys|
    requires base <= b <= m && (base + size <= m ==> b <= base + size)
    requires forall j :: 0 <= j < m ==> (keys[j].rank < r <==> j < b)
    ensures var at := BisectFrom(keys, base, size, r);
            at == b || (at == |keys| == m + 1 && base + size == |keys|)
    decreases size
  {
    if size > 1 {
      var half := size / 2;
      var mid := base + half;
      if keys[mid].rank < r {
        if mid < m {
          BisectEnds(keys, mid, size - half, r, m, b);
        } else {
          assert size - half == 1;
        }
      } else {
        BisectEnds(keys, base, size - half, r, m, b);
      }
    }
  }

  lemma {:induction false} ScanOfSorted<T>(keys: seq<Key<T>>, r: int, tall: bool)
    requires Sorted(keys)
    ensures Scan(keys, r, tall) == Below(keys, r) <= |keys|
  {
    BelowBound(keys, r);
    if tall && keys != [] {
      forall j | 0 <= j < |keys| ensures keys[j].rank < r <==> j < Below(keys, r) {
        BelowSplits(keys, r, j);
      }
      BisectEnds(keys, 0, |keys|, r, |keys|, Below(keys, r));
    }
  }

  // With one more key behind keys in order, a scan ends where it would have
  // ended without it, or behind it.
  lemma {:induction false} ScanWithLast<T>(keys: seq<Key<T>>, last: Key<T>, r: int, tall: bool)
    requires Sorted(keys)
    ensures Below(keys, r) <= |keys|
    ensures Scan(keys + [last], r, tall) == Below(keys, r) || Scan(keys + [last], r, tall) == |keys| + 1
  {
    var all, m := keys + [last], |keys|;
    BelowBound(keys, r);
    if tall {
      forall j | 0 <= j < m ensures all[j].rank < r <==> j < Below(keys, r) {
        BelowSplits(keys, r, j);
      }
      BisectEnds(all, 0, m + 1, r, m, Below(keys, r));
    } else {
      BelowWithLast(keys, last, r);
    }
  }

  lemma {:induction false} BelowWithLast<T>(keys: seq<Key<T>>, last: Key<T>, r: int)
    ensures Below(keys, r) < |keys| ==> Below(keys + [last], r) == Below(keys, r)
    ensures Below(keys, r) >= |keys| ==> Below(keys + [last], r) == if last.rank < r then |keys| + 1 else |keys|
  {
    if keys == [] {
      assert (keys + [last])[1..] == [];
    } else {
      TailOfConcat(keys, [last]);
      BelowWithLast(keys[1..], last, r);
    }
  }

  // A scan that passes all keys passes them for a higher rank too.
  lemma {:induction false} BisectAbove<T>(keys: seq<Key<T>>, base: nat, size: nat, r: int, s: int)
    requires size >= 1 && base + size <= |keys| && r <= s
    requires BisectFrom(keys, base, size, r) == base + size
    ensures BisectFrom(keys, base, size, s) == base + size
    decreases size
  {
    if size > 1 {
      var half := size / 2;
      assert keys[base + half].rank < r;
      BisectAbove(keys, base + half, size - half, r, s);
    }
  }

  lemma {:induction false} ScanAbove<T>(keys: seq<Key<T>>, r: int, s: int, tall: bool)
    requires r <= s && Scan(keys, r, tall) == |keys|
    ensures Scan(keys, s, tall) == |keys|
  {
    if tall {
      if keys != [] {
        BisectAbove(keys, 0, |keys|, r, s);
      }
    } else {
      BelowAbove(keys, r, s);
    }
  }

  lemma {:induction false} BelowAbove<T>(keys: seq<Key<T>>, r: int, s: int)
    requires r <= s && Below(keys, r) == |keys|
    ensures Below(keys, s) == |keys|
  {
    if keys != [] {
      BelowAbove(keys[1..], r, s);
    }
  }

  lemma {:induction false} BisectAll<T>(keys: seq<Key<T>>, base: nat, size: nat, r: int)
    requires size >= 1 && base + size <= |keys| && forall k :: k in keys ==> k.rank < r
    ensures BisectFrom(keys, base, size, r) == base + size
    decreases size
  {
    if size > 1 {
      BisectAll(keys, base + size / 2, size - size / 2, r);
    }
  }

  // --- The child chosen ------------------------------------------------------

  lemma {:induction false} ChildForIsBelow<T>(first: Node<T>, rest: seq<Branch<T>>, r: int)
    ensures Below(NodeKeys(rest), r) <= |rest|
    ensures ChildFor(first, rest, r) == ChildAt(first, rest, Below(NodeKeys(rest), r))
    decreases |rest|
  {
    if rest != [] {
      var tail := rest[1..];
      assert NodeKeys(rest)[1..] == NodeKeys(tail);
      ChildForIsBelow(rest[0].child, tail, r);
      var i := Below(NodeKeys(tail), r);
      assert i > 0 ==> tail[i - 1] == rest[i];
    }
  }

  lemma {:induction false} KeysAreSorted<T>(rest: seq<Branch<T>>)
    requires KeysOrdered(rest)
    ensures Sorted(NodeKeys(rest))
  {
    KeysOrderedHolds(rest);
  }

  lemma {:induction false} ScansAgree<T>(first: Node<T>, rest: seq<Branch<T>>, r: int, tall: bool)
    requires KeysOrdered(rest)
    ensures ChildBy(first, rest, r, tall) == ChildFor(first, rest, r)
  {
    KeysAreSorted(rest);
    ScanOfSorted(NodeKeys(rest), r, tall);
    ChildForIsBelow(first, rest, r);
  }

  lemma {:induction false} ChildOrdered<T>(first: Node<T>, rest: seq<Branch<T>>, r: int)
    requires NonDecreasing(Seps(first) + BranchSeps(rest))
    ensures NonDecreasing(Seps(ChildFor(first, rest, r)))
    decreases |rest|
  {
    if rest == [] {
      NothingBehind(Seps(first));
    } else {
      var key, child, more := rest[0].key, rest[0].child, rest[1..];
      NonDecreasingTail(Seps(first), key, Seps(child) + BranchSeps(more));
      ChildOrdered(child, more, r);
    }
  }

  // When all separators are in order it does not matter how nodes are scanned.
  lemma {:induction false} RoutesAgree<T>(n: Node<T>, r: int, tall: bool)
    requires NonDecreasing(Seps(n))
    ensures RouteBy(n, r, tall) == Route(n, r)
    decreases Size(n)
  {
    if n.Inner? {
      NodeKeysOrdered(n.first, n.rest);
      ScansAgree(n.first, n.rest, r, tall);
      ChildOrdered(n.first, n.rest, r);
      RoutesAgree(ChildFor(n.first, n.rest, r), r, tall);
    }
  }

  lemma {:induction false} ShortRoute<T>(n: Node<T>, r: int)
    ensures RouteBy(n, r, false) == Route(n, r)
    decreases Size(n)
  {
    if n.Inner? {
      ShortRoute(ChildFor(n.first, n.rest, r), r);
    }
  }

  // A descent always ends in one of the leaves, whatever the separators are.
  lemma {:induction false} RouteByIsLeaf<T>(n: Node<T>, r: int, tall: bool)
    ensures RouteBy(n, r, tall) in Leaves(n)
    decreases Size(n)
  {
    if n.Inner? {
      ChildForIsBelow(n.first, n.rest, r);
      var i := Scan(NodeKeys(n.rest), r, tall);
      RouteByIsLeaf(ChildBy(n.first, n.rest, r, tall), r, tall);
      ChildHasLeaves(n.first, n.rest, i);
    }
  }

  lemma {:induction false} ChildHasLeaves<T>(first: Node<T>, rest: seq<Branch<T>>, i: nat)
    requires i <= |rest|
    ensures forall c :: c in Leaves(ChildAt(first, rest, i)) ==> c in Leaves(first) + BranchLeaves(rest)
    decreases |rest|
  {
    if i > 0 {
      var tail := rest[1..];
      ChildHasLeaves(rest[0].child, tail, i - 1);
      assert i > 1 ==> tail[i - 2] == rest[i - 1];
    }
  }

  lemma {:induction false} ChosenIsShaped<T>(first: Node<T>, rest: seq<Branch<T>>, h: nat, cap: nat, i: nat)
    requires Shaped(first, h, cap) && BranchesShaped(rest, h, cap) && i <= |rest|
    ensures Shaped(ChildAt(first, rest, i), h, cap)
    decreases |rest|
  {
    if i > 0 {
      var tail := rest[1..];
      ChosenIsShaped(rest[0].child, tail, h, cap, i - 1);
      assert i > 1 ==> tail[i - 2] == rest[i - 1];
    }
  }

  lemma {:induction false} ChildByShaped<T>(first: Node<T>, rest: seq<Branch<T>>, h: nat, cap: nat, r: int, tall: bool)
    requires Shaped(first, h, cap) && BranchesShaped(rest, h, cap)
    ensures Shaped(ChildBy(first, rest, r, tall), h, cap)
  {
    ChildForIsBelow(first, rest, r);
    ChosenIsShaped(first, rest, h, cap, Scan(NodeKeys(rest), r, tall));
  }

  // --- Growing at the right edge ---------------------------------------------

  // The last child of a node given as a first child and branches.
  function LastChild<T>(first: Node<T>, rest: seq<Branch<T>>): (c: Node<T>)
    ensures Size(c) <= Size(first) + Sizes(rest)
    decreases |rest|
  {
    if rest == [] then first else LastChild(rest[0].child, rest[1..])
  }

  // All keys of the branches are below rank r.
  predicate KeysBelow<T>(rest: seq<Branch<T>>, r: int) {
    rest == [] || (rest[0].key.rank < r && KeysBelow(rest[1..], r))
  }

  // Whether the scan of the node that takes a new last key passes that key.  A
  // node that was full has been split around its middle key, and only the right
  // half takes the new one.
  ghost predicate SeamPassed<T>(rest: seq<Branch<T>>, key: Key<T>, cap: nat, r: int, tall: bool) {
    var keys, mid := NodeKeys(rest), cap / 2;
    if |rest| < cap || |rest| <= mid then Scan(keys + [key], r, tall) == |keys| + 1
    else keys[mid].rank < r && Scan(keys[mid + 1..] + [key], r, tall) == |keys| - mid
  }

  // Whether a descent for rank r goes on into a subtree hung in at the right
  // edge at height `stop` behind a key: above the node that takes the key it
  // keeps to the edge, and there it passes the key.
  ghost predicate Enters<T>(n: Node<T>, h: nat, stop: nat, key: Key<T>, cap: nat, r: int, tall: bool)
    decreases h
  {
    if h <= stop then key.rank < r
    else
      match n
      case LeafAt(_) => false
      case Inner(first, rest) =>
        if h == stop + 1 then SeamPassed(rest, key, cap, r, tall)
        else KeysBelow(rest, r) && Enters(LastChild(first, rest), h - 1, stop, key, cap, r, tall)
  }

  lemma {:induction false} KeysBelowAbove<T>(rest: seq<Branch<T>>, r: int, s: int)
    requires KeysBelow(rest, r) && r <= s
    ensures KeysBelow(rest, s)
  {
    if rest != [] {
      KeysBelowAbove(rest[1..], r, s);
    }
  }

  // What holds of a rank holds of every higher one.
  lemma {:induction false} EntersAbove<T>(n: Node<T>, h: nat, stop: nat, key: Key<T>, cap: nat, r: int, s: int,
                                          tall: bool)
    requires Enters(n, h, stop, key, cap, r, tall) && r <= s
    ensures Enters(n, h, stop, key, cap, s, tall)
    decreases h
  {
    if h > stop && n.Inner? {
      if h == stop + 1 {
        SeamPassedAbove(n.rest, key, cap, r, s, tall);
      } else {
        KeysBelowAbove(n.rest, r, s);
        EntersAbove(LastChild(n.first, n.rest), h - 1, stop, key, cap, r, s, tall);
      }
    }
  }

  lemma {:induction false} SeamPassedAbove<T>(rest: seq<Branch<T>>, key: Key<T>, cap: nat, r: int, s: int, tall: bool)
    requires SeamPassed(rest, key, cap, r, tall) && r <= s
    ensures SeamPassed(rest, key, cap, s, tall)
  {
    var keys, mid := NodeKeys(rest), cap / 2;
    if |rest| < cap || |rest| <= mid {
      ScanAbove(keys + [key], r, s, tall);
    } else {
      ScanAbove(keys[mid + 1..] + [key], r, s, tall);
    }
  }

  lemma {:induction false} BelowAll<T>(keys: seq<Key<T>>, r: int)
    ensures Below(keys, r) == |keys| <==> forall k :: k in keys ==> k.rank < r
  {
    if keys != [] {
      BelowBound(keys[1..], r);
      BelowAll(keys[1..], r);
      assert keys[0] in keys && keys == [keys[0]] + keys[1..];
    }
  }

  lemma {:induction false} KeysBelowHolds<T>(rest: seq<Branch<T>>, r: int)
    ensures KeysBelow(rest, r) <==> forall i :: 0 <= i < |rest| ==> rest[i].key.rank < r
  {
    if rest != [] {
      KeysBelowHolds(rest[1..], r);
      assert forall i :: 1 <= i < |rest| ==> rest[i] == rest[1..][i - 1];
    }
  }

  lemma {:induction false} AllKeysBelow<T>(rest: seq<Branch<T>>, keys: seq<Key<T>>, r: int)
    requires keys == NodeKeys(rest)
    ensures KeysBelow(rest, r) <==> forall i :: 0 <= i < |keys| ==> keys[i].rank < r
  {
    KeysBelowHolds(rest, r);
  }

  lemma {:induction false} ScanPassesAll<T>(keys: seq<Key<T>>, r: int, tall: bool)
    requires tall ==> Sorted(keys)
    ensures Scan(keys, r, tall) == |keys| <==> forall k :: k in keys ==> k.rank < r
  {
    if tall {
      ScanOfSorted(keys, r, tall);
    }
    BelowAll(keys, r);
  }

  // In a short tree, and in any tree when the new key is not below the last one
  // of the node that takes it, the key is passed exactly when it and all keys of
  // that node are below the rank.
  lemma {:induction false} SeamInOrder<T>(rest: seq<Branch<T>>, key: Key<T>, cap: nat, r: int, tall: bool)
    requires KeysOrdered(rest) && |rest| <= cap && cap >= 1
    requires tall && rest != [] ==> rest[|rest| - 1].key.rank <= key.rank
    ensures SeamPassed(rest, key, cap, r, tall) <==> KeysBelow(rest, r) && key.rank < r
  {
    var keys := NodeKeys(rest);
    KeysAreSorted(rest);
    AllKeysBelow(rest, keys, r);
    SeamKeysInOrder(keys, key, cap, cap / 2, r, tall);
  }

  lemma {:induction false} SeamKeysInOrder<T>(keys: seq<Key<T>>, key: Key<T>, cap: nat, mid: nat, r: int, tall: bool)
    requires Sorted(keys) && |keys| <= cap && mid < cap && (tall && keys != [] ==> keys[|keys| - 1].rank <= key.rank)
    ensures (if |keys| < cap then Scan(keys + [key], r, tall) == |keys| + 1
             else keys[mid].rank < r && Scan(keys[mid + 1..] + [key], r, tall) == |keys| - mid)
            <==> key.rank < r && forall i :: 0 <= i < |keys| ==> keys[i].rank < r
  {
    if |keys| < cap {
      PassesKeys(keys, key, r, tall);
    } else {
      LaterPassed(keys, mid, keys[mid + 1..], key, r, tall);
    }
  }

  lemma {:induction false} LaterPassed<T>(keys: seq<Key<T>>, mid: nat, later: seq<Key<T>>, key: Key<T>, r: int,
                                          tall: bool)
    requires Sorted(keys) && mid < |keys| && later == keys[mid + 1..]
    requires tall ==> keys[|keys| - 1].rank <= key.rank
    ensures keys[mid].rank < r && Scan(later + [key], r, tall) == |later| + 1
            <==> key.rank < r && forall i :: 0 <= i < |keys| ==> keys[i].rank < r
  {
    LaterSorted(keys, mid, later);
    PassesKeys(later, key, r, tall);
    MiddleAndLater(keys, mid, later, r);
  }

  lemma {:induction false} LaterSorted<T>(keys: seq<Key<T>>, mid: nat, later: seq<Key<T>>)
    requires Sorted(keys) && mid < |keys| && later == keys[mid + 1..]
    ensures Sorted(later) && (later != [] ==> later[|later| - 1] == keys[|keys| - 1])
  {
  }

  lemma {:induction false} MiddleAndLater<T>(keys: seq<Key<T>>, mid: nat, later: seq<Key<T>>, r: int)
    requires Sorted(keys) && mid < |keys| && later == keys[mid + 1..]
    ensures (forall i :: 0 <= i < |keys| ==> keys[i].rank < r) <==>
            keys[mid].rank < r && forall i :: 0 <= i < |later| ==> later[i].rank < r
  {
    if keys[mid].rank < r && forall i :: 0 <= i < |later| ==> later[i].rank < r {
      forall i | 0 <= i < |keys| ensures keys[i].rank < r {
        if i > mid {
          assert later[i - mid - 1] == keys[i];
        }
      }
    }
  }

  lemma {:induction false} PassesKeys<T>(keys: seq<Key<T>>, key: Key<T>, r: int, tall: bool)
    requires Sorted(keys) && (tall && keys != [] ==> keys[|keys| - 1].rank <= key.rank)
    ensures Scan(keys + [key], r, tall) == |keys| + 1 <==> key.rank < r && forall i :: 0 <= i < |keys| ==>
        keys[i].rank < r
  {
    var all := keys + [key];
    ScanPassesAll(all, r, tall);
    assert all[|keys|] == key && forall i :: 0 <= i < |keys| ==> all[i] == keys[i];
    if forall k :: k in all ==> k.rank < r {
      assert key in all && forall i :: 0 <= i < |keys| ==> keys[i] in all;
    }
  }

  // Where a descent ends that comes upon a grown node from above.
  function GrownRoute<T>(g: Grown<T>, r: int, tall: bool): nat {
    match g
    case Whole(n) => RouteBy(n, r, tall)
    case Halves(left, key, right) => if r <= key.rank then RouteBy(left, r, tall) else RouteBy(right, r, tall)
  }

  // Growing behind the last leaf changes where a descent ends exactly when it
  // enters the new subtree.
  lemma {:induction false} GrowRoutes<T>(n: Node<T>, h: nat, c: nat, stop: nat, key: Key<T>, added: Node<T>, cap: nat,
                                         r: int, tall: bool)
    requires Shaped(n, h, cap) && Shaped(added, stop, cap) && stop <= h && cap >= 1
    requires c == |Leaves(n)| - 1 && NonDecreasing(Seps(n))
    ensures GrownRoute(GrowAt(n, h, c, stop, key, added, cap), r, tall)
         == if Enters(n, h, stop, key, cap, r, tall) then RouteBy(added, r, tall) else Route(n, r)
    decreases Size(n), 0
  {
    if h == stop {
      RoutesAgree(n, r, tall);
    } else {
      assert Seps(n) == Seps(n.first) + BranchSeps(n.rest);
      if h == stop + 1 {
        SeamBranches(n.first, n.rest, stop, c, key, added, cap);
        SeamRoutes(n.first, n.rest, key, added, cap, r, tall);
      } else {
        GrowInnerRoutes(n.first, n.rest, h - 1, c, stop, key, added, cap, r, tall);
      }
    }
  }

  // --- The node that takes the key -------------------------------------------

  lemma {:induction false} SeamBranches<T>(first: Node<T>, rest: seq<Branch<T>>, stop: nat, c: nat, key: Key<T>,
                                           added: Node<T>, cap: nat)
    requires Shaped(first, stop, cap) && BranchesShaped(rest, stop, cap) && cap >= 1
    requires c == |Leaves(first)| + |BranchLeaves(rest)| - 1
    ensures GrowBranches(first, rest, stop, c, stop, key, added, cap) == (first, rest + [Branch(key, added)])
    decreases |rest|
  {
    if rest == [] {
      NothingBehind([Branch(key, added)]);
      NothingBefore(rest, [Branch(key, added)]);
    } else {
      OneMoreLeaf(rest[0].child);
      GrowLaterUnfolds(first, rest, stop, c, stop, key, added, cap);
      SeamBranches(rest[0].child, rest[1..], stop, c - |Leaves(first)|, key, added, cap);
      Assoc([rest[0]], rest[1..], [Branch(key, added)]);
      assert rest == [Branch(rest[0].key, rest[0].child)] + rest[1..];
    }
  }

  lemma {:induction false} ChildWithLast<T>(first: Node<T>, rest: seq<Branch<T>>, b: Branch<T>, i: nat)
    requires i <= |rest| + 1
    ensures ChildAt(first, rest + [b], i) == if i <= |rest| then ChildAt(first, rest, i) else b.child
  {
  }

  lemma {:induction false} SeamChild<T>(first: Node<T>, rest: seq<Branch<T>>, b: Branch<T>, r: int, tall: bool)
    requires KeysOrdered(rest)
    ensures ChildBy(first, rest + [b], r, tall)
         == if Scan(NodeKeys(rest) + [b.key], r, tall) == |rest| + 1 then b.child else ChildFor(first, rest, r)
  {
    var keys := NodeKeys(rest);
    assert NodeKeys(rest + [b]) == keys + [b.key];
    KeysAreSorted(rest);
    ScanWithLast(keys, b.key, r, tall);
    ChildForIsBelow(first, rest, r);
    ChildForIsBelow(first, rest + [b], r);
    ChildWithLast(first, rest, b, Scan(keys + [b.key], r, tall));
  }

  lemma {:induction false} SeamRoutes<T>(first: Node<T>, rest: seq<Branch<T>>, key: Key<T>, added: Node<T>, cap: nat,
                                         r: int, tall: bool)
    requires cap >= 1 && |rest| <= cap && NonDecreasing(Seps(first) + BranchSeps(rest))
    ensures GrownRoute(Pack(first, rest + [Branch(key, added)], cap), r, tall)
         == if SeamPassed(rest, key, cap, r, tall) then RouteBy(added, r, tall) else Route(ChildFor(first, rest, r), r)
  {
    var b := Branch(key, added);
    NodeKeysOrdered(first, rest);
    ChildOrdered(first, rest, r);
    RoutesAgree(ChildFor(first, rest, r), r, tall);
    if |rest| < cap {
      SeamChild(first, rest, b, r, tall);
    } else {
      FullSeamRoutes(first, rest, b, cap, cap / 2, rest[..cap / 2], rest[cap / 2 + 1..], r, tall);
    }
  }

  lemma {:induction false} FullSeamRoutes<T>(first: Node<T>, rest: seq<Branch<T>>, b: Branch<T>, cap: nat, mid: nat,
                                            left: seq<Branch<T>>, right: seq<Branch<T>>, r: int, tall: bool)
    requires cap >= 1 && |rest| == cap && mid == cap / 2 && KeysOrdered(rest)
    requires left == rest[..mid] && right == rest[mid + 1..]
    ensures GrownRoute(Pack(first, rest + [b], cap), r, tall)
         == if SeamPassed(rest, b.key, cap, r, tall) then RouteBy(b.child, r, tall)
             else RouteBy(ChildFor(first, rest, r), r, tall)
  {
    SeamHalves(rest, b, mid);
    PartsOrdered(rest, mid, left, right);
    SplitSeamRoutes(first, left, rest[mid], right, b, r, tall);
    SplitAtKey(first, rest, mid, left, right, r);
  }

  // A node whose keys are in order, and its parts around one of them.
  lemma {:induction false} PartsOrdered<T>(rest: seq<Branch<T>>, mid: nat, left: seq<Branch<T>>, right: seq<Branch<T>>)
    requires KeysOrdered(rest) && mid < |rest| && left == rest[..mid] && right == rest[mid + 1..]
    ensures KeysOrdered(left) && KeysOrdered(right)
  {
    KeysOrderedHolds(rest);
    OrderedKeys(left);
    OrderedKeys(right);
  }

  lemma {:induction false} SplitAtKey<T>(first: Node<T>, rest: seq<Branch<T>>, mid: nat, left: seq<Branch<T>>,
                                         right: seq<Branch<T>>, r: int)
    requires KeysOrdered(rest) && mid < |rest| && left == rest[..mid] && right == rest[mid + 1..]
    ensures NodeKeys(rest)[mid + 1..] == NodeKeys(right)
    ensures ChildFor(first, rest, r) == if r <= rest[mid].key.rank then ChildFor(first, left, r)
        else ChildFor(rest[mid].child, right, r)
  {
    KeysOrderedHolds(rest);
    ChildForSplit(first, rest, mid, r);
  }

  lemma {:induction false} SplitSeamRoutes<T>(first: Node<T>, a: seq<Branch<T>>, m: Branch<T>, rest: seq<Branch<T>>,
                                              b: Branch<T>,
                                             r: int, tall: bool)
    requires KeysOrdered(a) && KeysOrdered(rest)
    ensures GrownRoute(Halves(Inner(first, a), m.key, Inner(m.child, rest + [b])), r, tall)
         == if r <= m.key.rank then RouteBy(ChildFor(first, a, r), r, tall)
            else if Scan(NodeKeys(rest) + [b.key], r, tall) == |rest| + 1 then RouteBy(b.child, r, tall)
            else RouteBy(ChildFor(m.child, rest, r), r, tall)
  {
    ScansAgree(first, a, r, tall);
    SeamChild(m.child, rest, b, r, tall);
  }

  lemma {:induction false} SeamHalves<T>(rest: seq<Branch<T>>, b: Branch<T>, mid: nat)
    requires mid < |rest|
    ensures (rest + [b])[..mid] == rest[..mid] && (rest + [b])[mid] == rest[mid]
    ensures (rest + [b])[mid + 1..] == rest[mid + 1..] + [b]
  {
  }

  lemma {:induction false} OrderedKeys<T>(rest: seq<Branch<T>>)
    requires forall i, j :: 0 <= i < j < |rest| ==> rest[i].key.rank <= rest[j].key.rank
    ensures KeysOrdered(rest)
  {
    if |rest| > 1 {
      OrderedKeys(rest[1..]);
    }
  }

  // --- The nodes above it ----------------------------------------------------

  // Where the descent ends when it starts at a list of branches in order.
  function ListRoute<T>(nodes: (Node<T>, seq<Branch<T>>), r: int, tall: bool): nat {
    RouteBy(ChildFor(nodes.0, nodes.1, r), r, tall)
  }

  lemma {:induction false} GrowInnerRoutes<T>(first: Node<T>, rest: seq<Branch<T>>, h: nat, c: nat, stop: nat,
                                              key: Key<T>,
                                             added: Node<T>, cap: nat, r: int, tall: bool)
    requires Shaped(first, h, cap) && BranchesShaped(rest, h, cap) && Shaped(added, stop, cap) && stop < h && cap >= 1
    requires |rest| <= cap
    requires c == |Leaves(first)| + |BranchLeaves(rest)| - 1 && NonDecreasing(Seps(first) + BranchSeps(rest))
    ensures var nodes := GrowBranches(first, rest, h, c, stop, key, added, cap);
            GrownRoute(Pack(nodes.0, nodes.1, cap), r, tall)
            == if KeysBelow(rest, r) && Enters(LastChild(first, rest), h, stop, key, cap, r, tall)
                then RouteBy(added, r, tall)
               else Route(ChildFor(first, rest, r), r)
    decreases Size(first) + Sizes(rest), 2
  {
    var (f, more) := GrowBranches(first, rest, h, c, stop, key, added, cap);
    GrowBranchesRoute(first, rest, h, c, stop, key, added, cap, r, tall);
    GrownKeysOrdered(first, rest, h, c, stop, key, added, cap);
    PackRoutes(f, more, cap, r, tall);
  }

  lemma {:induction false} GrowBranchesRoute<T>(first: Node<T>, rest: seq<Branch<T>>, h: nat, c: nat, stop: nat,
                                                key: Key<T>,
                                               added: Node<T>, cap: nat, r: int, tall: bool)
    requires Shaped(first, h, cap) && BranchesShaped(rest, h, cap) && Shaped(added, stop, cap) && stop < h && cap >= 1
    requires c == |Leaves(first)| + |BranchLeaves(rest)| - 1 && NonDecreasing(Seps(first) + BranchSeps(rest))
    ensures ListRoute(GrowBranches(first, rest, h, c, stop, key, added, cap), r, tall)
         == if KeysBelow(rest, r) && Enters(LastChild(first, rest), h, stop, key, cap, r, tall)
             then RouteBy(added, r, tall)
            else Route(ChildFor(first, rest, r), r)
    decreases Size(first) + Sizes(rest), 1
  {
    if rest == [] {
      NothingBehind(Seps(first));
      NoBranches(rest);
      GrowRoutes(first, h, c, stop, key, added, cap, r, tall);
      GrowFirstUnfolds(first, rest, h, c, stop, key, added, cap, r, tall);
    } else {
      var key0, child, tail := rest[0].key, rest[0].child, rest[1..];
      var d := c - |Leaves(first)|;
      OneMoreLeaf(child);
      NonDecreasingTail(Seps(first), key0, Seps(child) + BranchSeps(tail));
      GrowLaterUnfolds(first, rest, h, c, stop, key, added, cap);
      GrowBranchesRoute(child, tail, h, d, stop, key, added, cap, r, tall);
      var (f, more) := GrowBranches(child, tail, h, d, stop, key, added, cap);
      RoutesAgree(first, r, tall);
      StepRoute(first, rest, f, more, Enters(LastChild(first, rest), h, stop, key, cap, r, tall), RouteBy(added, r,
          tall), r, tall);
    }
  }

  lemma {:induction false} StepRoute<T>(first: Node<T>, rest: seq<Branch<T>>, f: Node<T>, more: seq<Branch<T>>,
                                        taken: bool,
                                       target: nat, r: int, tall: bool)
    requires rest != [] && RouteBy(first, r, tall) == Route(first, r)
    requires ListRoute((f, more), r, tall)
          == if KeysBelow(rest[1..], r) && taken then target else Route(ChildFor(rest[0].child, rest[1..], r), r)
    ensures ListRoute((first, [Branch(rest[0].key, f)] + more), r, tall)
         == if KeysBelow(rest, r) && taken then target else Route(ChildFor(first, rest, r), r)
  {
    ChildFromHead(first, rest[0].key, f, more, r);
  }

  lemma {:induction false} ChildFromHead<T>(first: Node<T>, key: Key<T>, child: Node<T>, more: seq<Branch<T>>, r: int)
    ensures ChildFor(first, [Branch(key, child)] + more, r) == if r <= key.rank then first else ChildFor(child, more, r)
  {
    TailOfConcat([Branch(key, child)], more);
    NothingBefore([Branch(key, child)][1..], more);
  }

  lemma {:induction false} NoBranches<T>(rest: seq<Branch<T>>)
    requires rest == []
    ensures BranchLeaves(rest) == [] && BranchSeps(rest) == []
  {
  }

  lemma {:induction false} GrowFirstUnfolds<T>(first: Node<T>, rest: seq<Branch<T>>, h: nat, c: nat, stop: nat,
                                               key: Key<T>,
                                              added: Node<T>, cap: nat, r: int, tall: bool)
    requires rest == [] && Shaped(first, h, cap) && stop <= h && cap >= 1
    ensures BranchesShaped(rest, h, cap)
    ensures ListRoute(GrowBranches(first, rest, h, c, stop, key, added, cap), r, tall)
         == GrownRoute(GrowAt(first, h, c, stop, key, added, cap), r, tall)
  {
    GrownAsList(GrowAt(first, h, c, stop, key, added, cap), r, tall);
  }

  lemma {:induction false} GrownAsList<T>(g: Grown<T>, r: int, tall: bool)
    ensures match g
            case Whole(n) => ListRoute((n, []), r, tall) == GrownRoute(g, r, tall)
            case Halves(left, key, right) =>
              ListRoute((left, [Branch(key, right)] + []), r, tall) == GrownRoute(g, r, tall)
  {
    if g.Halves? {
      ChildFromHead(g.left, g.key, g.right, [], r);
    }
  }

  // --- Keys stay in order above the node that takes the new one ---------------

  // Growing leaves the keys of a node in place and adds at most one behind them.
  lemma {:induction false} GrowBranchesKeys<T>(first: Node<T>, rest: seq<Branch<T>>, h: nat, c: nat, stop: nat,
                                               key: Key<T>,
                                              added: Node<T>, cap: nat)
    requires Shaped(first, h, cap) && BranchesShaped(rest, h, cap) && stop <= h && cap >= 1
    requires c == |Leaves(first)| + |BranchLeaves(rest)| - 1
    ensures var more := GrowBranches(first, rest, h, c, stop, key, added, cap).1;
            && |rest| <= |more| <= |rest| + 1
            && forall i :: 0 <= i < |rest| ==> more[i].key == rest[i].key
    decreases |rest|
  {
    if rest != [] {
      OneMoreLeaf(rest[0].child);
      GrowLaterUnfolds(first, rest, h, c, stop, key, added, cap);
      GrowBranchesKeys(rest[0].child, rest[1..], h, c - |Leaves(first)|, stop, key, added, cap);
    }
  }

  lemma {:induction false} KeyIsSeparator<T>(rest: seq<Branch<T>>, i: nat)
    requires i < |rest|
    ensures rest[i].key in BranchSeps(rest)
    decreases |rest|
  {
    assert BranchSeps(rest)[0] == rest[0].key;
    if i > 0 {
      KeyIsSeparator(rest[1..], i - 1);
    }
  }

  // A key that comes up from a node above the one that takes the new key was there before.
  lemma {:induction false} PromotedWasThere<T>(n: Node<T>, h: nat, c: nat, stop: nat, key: Key<T>, added: Node<T>,
                                               cap: nat)
    requires Shaped(n, h, cap) && stop < h && cap >= 1 && c == |Leaves(n)| - 1
    ensures var g := GrowAt(n, h, c, stop, key, added, cap); g.Halves? ==> g.key in Seps(n)
  {
    var more := GrowBranches(n.first, n.rest, h - 1, c, stop, key, added, cap).1;
    GrowBranchesKeys(n.first, n.rest, h - 1, c, stop, key, added, cap);
    if |more| > cap {
      KeyIsSeparator(n.rest, cap / 2);
    }
  }

  lemma {:induction false} NewLastKey<T>(first: Node<T>, rest: seq<Branch<T>>, h: nat, c: nat, stop: nat, key: Key<T>,
                                        added: Node<T>, cap: nat)
    requires Shaped(first, h, cap) && BranchesShaped(rest, h, cap) && stop < h && cap >= 1
    requires c == |Leaves(first)| + |BranchLeaves(rest)| - 1
    ensures var more := GrowBranches(first, rest, h, c, stop, key, added, cap).1;
            |more| == |rest| + 1 ==> more[|rest|].key in Seps(LastChild(first, rest))
    decreases |rest|
  {
    if rest == [] {
      PromotedWasThere(first, h, c, stop, key, added, cap);
    } else {
      OneMoreLeaf(rest[0].child);
      GrowLaterUnfolds(first, rest, h, c, stop, key, added, cap);
      NewLastKey(rest[0].child, rest[1..], h, c - |Leaves(first)|, stop, key, added, cap);
    }
  }

  lemma {:induction false} LastChildAbove<T>(first: Node<T>, rest: seq<Branch<T>>, k: Key<T>)
    requires NonDecreasing(Seps(first) + BranchSeps(rest)) && rest != [] && k in Seps(LastChild(first, rest))
    ensures rest[|rest| - 1].key.rank <= k.rank
    decreases |rest|
  {
    var key, child, more := rest[0].key, rest[0].child, rest[1..];
    var seps := Seps(child) + BranchSeps(more);
    NonDecreasingTail(Seps(first), key, seps);
    if more == [] {
      assert LastChild(first, rest) == child;
      assert k in seps;
      HeadIsLeast(key, seps, k);
    } else {
      LastChildAbove(child, more, k);
      assert rest[|rest| - 1] == more[|more| - 1];
    }
  }

  lemma {:induction false} HeadIsLeast<T>(key: Key<T>, seps: seq<Key<T>>, k: Key<T>)
    requires NonDecreasing([key] + seps) && k in seps
    ensures key.rank <= k.rank
  {
    var all := [key] + seps;
    NonDecreasingOrdered(all);
    var i :| 0 <= i < |seps| && seps[i] == k;
    assert all[0] == key && all[1 + i] == k;
  }

  lemma {:induction false} GrownKeysOrdered<T>(first: Node<T>, rest: seq<Branch<T>>, h: nat, c: nat, stop: nat,
                                               key: Key<T>,
                                              added: Node<T>, cap: nat)
    requires Shaped(first, h, cap) && BranchesShaped(rest, h, cap) && stop < h && cap >= 1
    requires c == |Leaves(first)| + |BranchLeaves(rest)| - 1 && NonDecreasing(Seps(first) + BranchSeps(rest))
    ensures var more := GrowBranches(first, rest, h, c, stop, key, added, cap).1;
            |rest| <= |more| <= |rest| + 1 && KeysOrdered(more)
  {
    var more := GrowBranches(first, rest, h, c, stop, key, added, cap).1;
    GrowBranchesKeys(first, rest, h, c, stop, key, added, cap);
    NewLastKey(first, rest, h, c, stop, key, added, cap);
    NodeKeysOrdered(first, rest);
    if |more| == |rest| + 1 && rest != [] {
      LastChildAbove(first, rest, more[|rest|].key);
    }
    OneMoreKey(rest, more);
  }

  lemma {:induction false} OneMoreKey<T>(rest: seq<Branch<T>>, more: seq<Branch<T>>)
    requires KeysOrdered(rest) && |rest| <= |more| <= |rest| + 1
    requires forall i :: 0 <= i < |rest| ==> more[i].key == rest[i].key
    requires |more| == |rest| + 1 && rest != [] ==> rest[|rest| - 1].key.rank <= more[|rest|].key.rank
    ensures KeysOrdered(more)
  {
    KeysOrderedHolds(rest);
    OrderedKeys(more);
  }

  predicate KeysOrdered<T>(rest: seq<Branch<T>>) {
    |rest| <= 1 || (rest[0].key.rank <= rest[1].key.rank && KeysOrdered(rest[1..]))
  }

  // The keys of one node are in order when all separators under it are.
  lemma {:induction false} NodeKeysOrdered<T>(first: Node<T>, rest: seq<Branch<T>>)
    requires NonDecreasing(Seps(first) + BranchSeps(rest))
    ensures KeysOrdered(rest)
    decreases |rest|
  {
    if rest != [] {
      var key0, child, tail := rest[0].key, rest[0].child, rest[1..];
      NonDecreasingTail(Seps(first), key0, Seps(child) + BranchSeps(tail));
      NodeKeysOrdered(child, tail);
      if tail != [] {
        var key1, more := tail[0].key, Seps(tail[0].child) + BranchSeps(tail[1..]);
        Assoc([key0], Seps(child), [key1] + more);
        NonDecreasingTail([key0] + Seps(child), key1, more);
      }
    }
  }

  lemma {:induction false} KeysOrderedHolds<T>(rest: seq<Branch<T>>)
    requires KeysOrdered(rest)
    ensures forall i, j :: 0 <= i < j < |rest| ==> rest[i].key.rank <= rest[j].key.rank
  {
    if |rest| > 1 {
      KeysOrderedHolds(rest[1..]);
    }
  }

  // Splitting a node whose keys are in order does not change where a descent through it ends.
  lemma {:induction false} PackRoutes<T>(f: Node<T>, more: seq<Branch<T>>, cap: nat, r: int, tall: bool)
    requires cap >= 1 && |more| <= cap + 1 && KeysOrdered(more)
    ensures GrownRoute(Pack(f, more, cap), r, tall) == ListRoute((f, more), r, tall)
  {
    if |more| <= cap {
      ScansAgree(f, more, r, tall);
    } else {
      var mid := cap / 2;
      var left, right := more[..mid], more[mid + 1..];
      PartsOrdered(more, mid, left, right);
      SplitAtKey(f, more, mid, left, right, r);
      HalvesRoutes(f, left, more[mid], right, r, tall);
    }
  }

  lemma {:induction false} HalvesRoutes<T>(f: Node<T>, a: seq<Branch<T>>, m: Branch<T>, b: seq<Branch<T>>, r: int,
                                           tall: bool)
    requires KeysOrdered(a) && KeysOrdered(b)
    ensures GrownRoute(Halves(Inner(f, a), m.key, Inner(m.child, b)), r, tall)
         == if r <= m.key.rank then ListRoute((f, a), r, tall) else ListRoute((m.child, b), r, tall)
  {
    ScansAgree(f, a, r, tall);
    ScansAgree(m.child, b, r, tall);
  }

  lemma {:induction false} ChildForSplit<T>(first: Node<T>, rest: seq<Branch<T>>, mid: nat, r: int)
    requires mid < |rest| && forall i :: 0 <= i < mid ==> rest[i].key.rank <= rest[mid].key.rank
    ensures ChildFor(first, rest, r) == if r <= rest[mid].key.rank then ChildFor(first, rest[..mid], r)
                                        else ChildFor(rest[mid].child, rest[mid + 1..], r)
    decreases mid
  {
    if mid > 0 && rest[0].key.rank < r {
      var tail := rest[1..];
      ChildForSplit(rest[0].child, tail, mid - 1, r);
      assert tail[mid - 1] == rest[mid] && tail[mid..] == rest[mid + 1..];
      assert rest[..mid][1..] == tail[..mid - 1] && rest[..mid][0] == rest[0];
    }
  }

  // --- When the root is split ------------------------------------------------

  // Every node on the right edge above height `stop` is full.
  predicate EdgeFull<T>(n: Node<T>, h: nat, stop: nat, cap: nat)
    decreases h
  {
    h <= stop ||
    match n
    case LeafAt(_) => false
    case Inner(first, rest) => |rest| == cap && EdgeFull(LastChild(first, rest), h - 1, stop, cap)
  }

  lemma {:induction false} GrowSplits<T>(n: Node<T>, h: nat, c: nat, stop: nat, key: Key<T>, added: Node<T>, cap: nat)
    requires Shaped(n, h, cap) && stop <= h && cap >= 1 && c == |Leaves(n)| - 1
    ensures GrowAt(n, h, c, stop, key, added, cap).Halves? <==> EdgeFull(n, h, stop, cap)
    decreases Size(n), 0
  {
    if h > stop {
      GrowAddsBranch(n.first, n.rest, h - 1, c, stop, key, added, cap);
    }
  }

  lemma {:induction false} GrowAddsBranch<T>(first: Node<T>, rest: seq<Branch<T>>, h: nat, c: nat, stop: nat,
                                             key: Key<T>,
                                            added: Node<T>, cap: nat)
    requires Shaped(first, h, cap) && BranchesShaped(rest, h, cap) && stop <= h && cap >= 1
    requires c == |Leaves(first)| + |BranchLeaves(rest)| - 1
    ensures |GrowBranches(first, rest, h, c, stop, key, added, cap).1|
         == if EdgeFull(LastChild(first, rest), h, stop, cap) then |rest| + 1 else |rest|
    decreases Size(first) + Sizes(rest), 1
  {
    if rest == [] {
      GrowSplits(first, h, c, stop, key, added, cap);
    } else {
      OneMoreLeaf(rest[0].child);
      GrowLaterUnfolds(first, rest, h, c, stop, key, added, cap);
      GrowAddsBranch(rest[0].child, rest[1..], h, c - |Leaves(first)|, stop, key, added, cap);
    }
  }
}
