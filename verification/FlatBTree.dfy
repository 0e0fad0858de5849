// The ordered map: construction, appending in its several forms, and splitting.

module FlatBTree {
  import opened Wrappers
  import opened Seqs
  import opened LeafChain
  import opened SortedEntries
  import opened Interior
  import opened Descent
  import opened Guides
  import opened Raw = RawBTree
  import Drains
  import FromIter
  import Retain
  import TreeInsert
  import Graft

  // Merges two sorted runs; on equal keys the left head is discarded.
  method MergeRuns<T(!new), V(!new)>(a: seq<Entry<T, V>>, b: seq<Entry<T, V>>) returns (out: seq<Entry<T, V>>)
    ensures out == Merged(a, b)
  {
    out := [];
    var aRest, bRest := a, b;
    while aRest != [] || bRest != []
      invariant out + Merged(aRest, bRest) == Merged(a, b)
      decreases |aRest| + |bRest|
    {
      if bRest == [] {
        TakeLeft(out, aRest, bRest);
        out, aRest := out + [aRest[0]], aRest[1..];
      } else if aRest == [] {
        TakeRight(out, aRest, bRest);
        out, bRest := out + [bRest[0]], bRest[1..];
      } else if aRest[0].key.rank < bRest[0].key.rank {
        TakeLeft(out, aRest, bRest);
        out, aRest := out + [aRest[0]], aRest[1..];
      } else if bRest[0].key.rank < aRest[0].key.rank {
        TakeRight(out, aRest, bRest);
        out, bRest := out + [bRest[0]], bRest[1..];
      } else {
        Assoc(out, [bRest[0]], Merged(aRest[1..], bRest[1..]));
        out, aRest, bRest := out + [bRest[0]], aRest[1..], bRest[1..];
      }
    }
  }

  lemma {:induction false} TakeLeft<T, V>(out: seq<Entry<T, V>>, a: seq<Entry<T, V>>, b: seq<Entry<T, V>>)
    requires a != [] && (b == [] || a[0].key.rank < b[0].key.rank)
    ensures out + Merged(a, b) == (out + [a[0]]) + Merged(a[1..], b)
  {
    Assoc(out, [a[0]], Merged(a[1..], b));
    assert b == [] ==> Merged(a[1..], b) == a[1..];
  }

  lemma {:induction false} TakeRight<T, V>(out: seq<Entry<T, V>>, a: seq<Entry<T, V>>, b: seq<Entry<T, V>>)
    requires b != [] && (a == [] || b[0].key.rank < a[0].key.rank)
    ensures out + Merged(a, b) == (out + [b[0]]) + Merged(a, b[1..])
  {
    Assoc(out, [b[0]], Merged(a, b[1..]));
    assert a == [] ==> Merged(a, b[1..]) == b[1..];
    assert b[1..] == [] ==> Merged(a, b[1..]) == a;
  }

  // Inserting an ordered run entry by entry gives the same values as merging
  // it; where a key was there already, the insert keeps the old key and the
  // merge takes the new one.
  lemma {:induction false} InsertAllIsUnion<T(!new), V(!new)>(a: seq<Entry<T, V>>, b: seq<Entry<T, V>>, r: int)
    requires Ascending(a) && Ascending(b)
    ensures Ascending(InsertAll(a, b))
    ensures Lookup(InsertAll(a, b), r) ==
            match Lookup(b, r)
            case None => Lookup(a, r)
            case Some(e) => Some(Inserted(Lookup(a, r), e))
    ensures ValueOf(InsertAll(a, b), r) == ValueOf(Merged(a, b), r)
  {
    MergedIsUnion(a, b, r);
    InsertAllOneByOne(a, b, r);
  }

  lemma {:induction false} InsertAllOneByOne<T(!new), V(!new)>(a: seq<Entry<T, V>>, b: seq<Entry<T, V>>, r: int)
    requires Ascending(a) && Ascending(b)
    ensures Ascending(InsertAll(a, b))
    ensures Lookup(InsertAll(a, b), r) ==
            match Lookup(b, r)
            case None => Lookup(a, r)
            case Some(e) => Some(Inserted(Lookup(a, r), e))
    decreases |b|
  {
    if b != [] {
      InsertKeepsOrder(a, b[0]);
      InsertLookup(a, b[0], r);
      InsertAllOneByOne(Insert(a, b[0]), b[1..], r);
      if r == b[0].key.rank {
        BelowAllMissing(b[1..], r);
      }
    }
  }

  class FlatBTree<T(!new), V(!new)> {
    const leafCap: nat
    const innerCap: nat
    var tree: RawBTree<T, V>

    ghost predicate Valid()
      reads this, tree
    {
      tree.Valid() && tree.leafCap == leafCap && tree.innerCap == innerCap
    }

    // A map on which searches work.
    ghost predicate Searchable()
      reads this, tree
    {
      Valid() && tree.Searchable()
    }

    ghost function Contents(): seq<Entry<T, V>>
      reads this, tree
    {
      tree.Contents()
    }

    // Two maps of one type that share nothing.
    ghost predicate Apart(other: FlatBTree<T, V>)
      reads this, other
    {
      this != other && tree != other.tree && leafCap == other.leafCap && innerCap == other.innerCap
    }

    constructor (leafCap: nat, innerCap: nat)
      requires leafCap >= 1 && innerCap >= 2
      ensures Searchable() && Contents() == [] && fresh(tree)
      ensures this.leafCap == leafCap && this.innerCap == innerCap
    {
      this.leafCap, this.innerCap := leafCap, innerCap;
      tree := new RawBTree(leafCap, innerCap);
    }

    constructor FromTree(tree: RawBTree<T, V>)
      requires tree.Valid()
      ensures Valid() && this.tree == tree
      ensures this.leafCap == tree.leafCap && this.innerCap == tree.innerCap
    {
      this.leafCap, this.innerCap := tree.leafCap, tree.innerCap;
      this.tree := tree;
    }

    // Building from an iterator gives the map that inserting everything would.
    static method FromPairs(pairs: seq<Entry<T, V>>, leafCap: nat, innerCap: nat) returns (m: FlatBTree<T, V>)
      requires leafCap >= 1 && innerCap >= 2
      ensures fresh(m) && fresh(m.tree) && m.Searchable()
      ensures m.Contents() == InsertAll([], pairs)
      ensures m.leafCap == leafCap && m.innerCap == innerCap
    {
      var kept := FromIter.Collect(pairs);
      m := Load(kept, leafCap, innerCap);
    }

    // Inserts every entry, in order.
    method Extend(pairs: seq<Entry<T, V>>)
      requires Searchable()
      modifies tree
      ensures Searchable() && Contents() == InsertAll(old(Contents()), pairs)
    {
      var rest := pairs;
      while rest != []
        invariant Searchable()
        invariant InsertAll(Contents(), rest) == InsertAll(old(Contents()), pairs)
        decreases |rest|
      {
        var prev := TreeInsert.Insert(tree, rest[0]);
        rest := rest[1..];
      }
    }

    // Keeps the entries that the predicate accepts.
    method RetainAll(f: Retain.Judge<T, V>)
      requires Searchable()
      modifies tree
      ensures Searchable() && Contents() == Retain.Retained(f, 0, old(Contents())) && tree == old(tree)
      ensures Retain.JudgedBy(f, old(Contents()), Contents())
      ensures tree.len == 0 ==> tree.root == None && tree.chain == []
      ensures tree.len > 0 ==> tree.chain == old(tree.chain) && tree.root == old(tree.root)
      ensures tree.len > 0 ==> tree.height == old(tree.height)
      ensures tree.len > 0 ==> Retain.Compacted(f, old(tree.arena), tree.arena, tree.chain, |tree.chain|)
      ensures tree.len > 0 ==> Retain.ShowLast(old(tree.arena), tree.arena, tree.chain, |tree.chain|)
    {
      Retain.Retain(tree, f);
    }

    method SwapTrees(other: FlatBTree<T, V>)
      requires Apart(other)
      modifies this`tree, other`tree
      ensures tree == old(other.tree) && other.tree == old(tree)
    {
      tree, other.tree := other.tree, tree;
    }

    // Drain both, merge, rebuild: the union of the two maps in which `other` wins.
    method AppendDrain(other: FlatBTree<T, V>)
      requires Searchable() && other.Searchable() && Apart(other)
      modifies this, other, tree, other.tree
      ensures Searchable() && other.Searchable() && tree != other.tree
      ensures Contents() == Merged(old(Contents()), old(other.Contents()))
      ensures other.Contents() == []
    {
      if other.tree.len == 0 {
        return;
      }
      if tree.len == 0 {
        SwapTrees(other);
        return;
      }
      var a := Drains.DrainAll(tree);
      var b := Drains.DrainAll(other.tree);
      var out := MergeRuns(a, b);
      MergedAscends(a, b);
      tree := RawBTree<T, V>.BulkLoad(out, leafCap, innerCap);
    }

    // Drain both, chain, rebuild.  In order only when self's keys lie below other's.
    method AppendConcat(other: FlatBTree<T, V>)
      requires Searchable() && other.Searchable() && Apart(other)
      modifies this, other, tree, other.tree
      ensures Valid() && other.Searchable() && tree != other.tree
      ensures Contents() == old(Contents()) + old(other.Contents())
      ensures AllBelow(old(Contents()), old(other.Contents())) ==> Searchable()
      ensures other.Contents() == []
    {
      if other.tree.len == 0 {
        return;
      }
      if tree.len == 0 {
        SwapTrees(other);
        return;
      }
      var a := Drains.DrainAll(tree);
      var b := Drains.DrainAll(other.tree);
      AscendingConcat(a, b);
      tree := RawBTree<T, V>.BulkLoad(a + b, leafCap, innerCap);
    }

    // Drain other and insert its entries one by one.
    method AppendExtend(other: FlatBTree<T, V>)
      requires Searchable() && other.Searchable() && Apart(other)
      modifies this, other, tree, other.tree
      ensures Searchable() && other.Searchable() && tree != other.tree
      ensures Contents() == InsertAll(old(Contents()), old(other.Contents()))
      ensures other.Contents() == []
    {
      if other.tree.len == 0 {
        return;
      }
      if tree.len == 0 {
        InsertAllIntoEmpty(other.Contents());
        SwapTrees(other);
        return;
      }
      var pairs := Drains.DrainAll(other.tree);
      Extend(pairs);
    }

    // Graft other's tree onto the right edge, or fall back to the merge when
    // other is the taller one.  The entries are always all there and in order.
    // Which searches still answer right is told rank by rank, and so is whether
    // all separators keep their places.
    method AppendGraft(other: FlatBTree<T, V>)
      requires Searchable() && other.Searchable() && Apart(other)
      requires AllBelow(Contents(), other.Contents())
      modifies this, other, tree, other.tree
      ensures Valid() && other.Searchable() && tree != other.tree
      ensures Contents() == old(Contents()) + old(other.Contents())
      ensures other.Contents() == []
      ensures Searchable() == old(GraftKeepsSeparators(tree, other.tree))
      ensures forall r :: tree.Finds(r) == old(GraftFinds(tree, other.tree, r))
    {
      if other.tree.len == 0 {
        AllFound(tree);
        return;
      }
      if tree.len == 0 {
        SwapTrees(other);
        AllFound(tree);
        return;
      }
      GraftOrMerge(other);
    }

    method GraftOrMerge(other: FlatBTree<T, V>)
      requires Searchable() && other.Searchable() && Apart(other)
      requires AllBelow(Contents(), other.Contents()) && tree.len > 0 && other.tree.len > 0
      modifies this, other, tree, other.tree
      ensures Valid() && other.Searchable() && tree != other.tree
      ensures Contents() == old(Contents()) + old(other.Contents())
      ensures other.Contents() == []
      ensures Searchable() == old(GraftKeepsSeparators(tree, other.tree))
      ensures forall r :: tree.Finds(r) == old(GraftFinds(tree, other.tree, r))
    {
      NonEmptyHasRoot(tree);
      NonEmptyHasRoot(other.tree);
      if tree.height < other.tree.height {
        MergedWhenDisjoint(Contents(), other.Contents());
        AppendDrain(other);
        AllFound(tree);
      } else {
        GraftFitting(other);
      }
    }

    method GraftFitting(other: FlatBTree<T, V>)
      requires Searchable() && other.Searchable() && Apart(other)
      requires AllBelow(Contents(), other.Contents()) && tree.len > 0 && other.tree.len > 0
      requires tree.root.Some? && other.tree.root.Some? && tree.height >= other.tree.height
      modifies tree, other.tree
      ensures Valid() && other.Searchable()
      ensures Contents() == old(Contents()) + old(other.Contents())
      ensures other.Contents() == []
      ensures Searchable() == old(GraftKeepsSeparators(tree, other.tree))
      ensures forall r :: tree.Finds(r) == old(GraftFinds(tree, other.tree, r))
    {
      ghost var a, b := Contents(), other.Contents();
      ghost var x, y := Snapshot(tree), Snapshot(other.tree);
      AscendingConcat(a, b);
      SnapshotReady(tree);
      SnapshotReady(other.tree);
      var ok, sep := Graft.AppendGraftDisjoint(tree, other.tree);
      ghost var tall := TallAfter(x.root, x.height, y.height, tree.innerCap);
      Graft.GraftedFlat(x.root, x.height, y.root, y.height, sep, |x.arena|, tree.innerCap);
      Graft.GraftRaises(x.root, x.height, y.root, y.height, sep, |x.arena|, tree.innerCap);
      Graft.GraftGuided(x.arena, Leaves(x.root), Seps(x.root), tree.arena, y.arena, Leaves(y.root), Seps(y.root), sep);
      AllAfterGraft(x, y, tree.arena, sep, tree.innerCap, tall);
    }

    // Chooses between grafting, grafting the other way round, and merging.
    method Append(other: FlatBTree<T, V>)
      requires Searchable() && other.Searchable() && Apart(other)
      modifies this, other, tree, other.tree
      ensures Valid() && other.Searchable() && tree != other.tree
      ensures Contents() == Merged(old(Contents()), old(other.Contents()))
      ensures other.Contents() == []
      ensures Searchable() == old(AppendKeepsSeparators(tree, other.tree))
      ensures forall r :: tree.Finds(r) == old(AppendFinds(tree, other.tree, r))
    {
      if other.tree.len == 0 {
        AllFound(tree);
        return;
      }
      if tree.len == 0 {
        SwapTrees(other);
        AllFound(tree);
        return;
      }
      AppendNonEmpty(other);
    }

    method AppendNonEmpty(other: FlatBTree<T, V>)
      requires Searchable() && other.Searchable() && Apart(other)
      requires tree.len > 0 && other.tree.len > 0
      modifies this, other, tree, other.tree
      ensures Valid() && other.Searchable() && tree != other.tree
      ensures Contents() == Merged(old(Contents()), old(other.Contents()))
      ensures other.Contents() == []
      ensures Searchable() == old(AppendKeepsSeparators(tree, other.tree))
      ensures forall r :: tree.Finds(r) == old(AppendFinds(tree, other.tree, r))
    {
      var route := ChooseRoute(tree, other.tree);
      assert AppendKeepsSeparators(tree, other.tree) == old(AppendKeepsSeparators(tree, other.tree));
      assert forall r :: AppendFinds(tree, other.tree, r) == old(AppendFinds(tree, other.tree, r));
      match route {
        case Forward => AppendForward(other);
        case Reverse => AppendReverse(other);
        case Overlap => AppendOverlap(other);
      }
    }

    method AppendForward(other: FlatBTree<T, V>)
      requires Searchable() && other.Searchable() && Apart(other)
      requires RouteOf(Contents(), other.Contents()) == Forward
      modifies this, other, tree, other.tree
      ensures Valid() && other.Searchable() && tree != other.tree
      ensures Contents() == Merged(old(Contents()), old(other.Contents()))
      ensures other.Contents() == []
      ensures Searchable() == old(AppendKeepsSeparators(tree, other.tree))
      ensures forall r :: tree.Finds(r) == old(AppendFinds(tree, other.tree, r))
    {
      DisjointRuns(Contents(), other.Contents());
      AppendGraft(other);
    }

    // Other's keys all lie below self's: the trees change places first.
    method AppendReverse(other: FlatBTree<T, V>)
      requires Searchable() && other.Searchable() && Apart(other)
      requires RouteOf(Contents(), other.Contents()) == Reverse
      modifies this, other, tree, other.tree
      ensures Valid() && other.Searchable() && tree != other.tree
      ensures Contents() == Merged(old(Contents()), old(other.Contents()))
      ensures other.Contents() == []
      ensures Searchable() == old(AppendKeepsSeparators(tree, other.tree))
      ensures forall r :: tree.Finds(r) == old(AppendFinds(tree, other.tree, r))
    {
      DisjointRuns(other.Contents(), Contents());
      SwapTrees(other);
      AppendGraft(other);
    }

    method AppendOverlap(other: FlatBTree<T, V>)
      requires Searchable() && other.Searchable() && Apart(other)
      requires RouteOf(Contents(), other.Contents()) == Overlap
      modifies this, other, tree, other.tree
      ensures Valid() && other.Searchable() && tree != other.tree
      ensures Contents() == Merged(old(Contents()), old(other.Contents()))
      ensures other.Contents() == []
      ensures Searchable() == old(AppendKeepsSeparators(tree, other.tree))
      ensures forall r :: tree.Finds(r) == old(AppendFinds(tree, other.tree, r))
    {
      AppendDrain(other);
      AllFound(tree);
    }

    // Splits at a key: what lies below stays, the rest is returned.  When the
    // search misses, everything stays.
    method SplitOffDrain(at: int) returns (right: FlatBTree<T, V>)
      requires Searchable()
      modifies this, tree
      ensures fresh(right) && right.Searchable() && Searchable() && Apart(right)
      ensures fresh({tree, right.tree} - {old(tree)})
      ensures var all, k := old(Contents()), RankIn(old(Contents()), at);
              if old(tree.Misses(at)) then Contents() == all && right.Contents() == [] && k < |all|
              else k <= |all| && Contents() == all[..k] && right.Contents() == all[k..]
    {
      RankInBound(Contents(), at);
      if tree.len == 0 {
        EmptyMissesNothing(tree, at);
        right := new FlatBTree(leafCap, innerCap);
        return;
      }
      var bound, p := tree.LowerBound(at);
      if bound == None {
        MissedOrAllBelow(tree, at);
        right := new FlatBTree(leafCap, innerCap);
      } else if bound.value == (tree.firstLeaf, 0) {
        BoundAtStart(tree, p, at);
        right := new FlatBTree.FromTree(tree);
        tree := new RawBTree(leafCap, innerCap);
      } else {
        right := DrainAndSplit(at);
      }
    }

    method DrainAndSplit(at: int) returns (right: FlatBTree<T, V>)
      requires Searchable()
      modifies this, tree
      ensures fresh(right) && right.Searchable() && Searchable() && Apart(right)
      ensures fresh({tree, right.tree} - {old(tree)})
      ensures RankIn(old(Contents()), at) <= |old(Contents())|
      ensures Contents() == old(Contents())[..RankIn(old(Contents()), at)]
      ensures right.Contents() == old(Contents())[RankIn(old(Contents()), at)..]
    {
      var pairs := Drains.DrainAll(tree);
      var split := PartitionPoint(pairs, at);
      CutRun(pairs, split);
      Reload(pairs[..split]);
      right := Load(pairs[split..], leafCap, innerCap);
    }

    // The drained map takes an ordered run; an empty run leaves it as it is.
    method Reload(pairs: seq<Entry<T, V>>)
      requires Searchable() && Contents() == [] && Ascending(pairs)
      modifies this
      ensures Searchable() && Contents() == pairs && fresh({tree} - {old(tree)})
    {
      if pairs != [] {
        tree := RawBTree<T, V>.BulkLoad(pairs, leafCap, innerCap);
      }
    }

    static method Load(pairs: seq<Entry<T, V>>, leafCap: nat, innerCap: nat) returns (m: FlatBTree<T, V>)
      requires leafCap >= 1 && innerCap >= 2 && Ascending(pairs)
      ensures fresh(m) && fresh(m.tree) && m.Searchable() && m.Contents() == pairs
      ensures m.leafCap == leafCap && m.innerCap == innerCap
      ensures m.tree.NoEmptyLeaf() && (m.tree.root.Some? ==> m.tree.SplitByFirstKeys())
      ensures |m.tree.chain| == 1 ==> m.tree.height == 0
    {
      var tree := RawBTree<T, V>.BulkLoad(pairs, leafCap, innerCap);
      m := new FlatBTree.FromTree(tree);
    }

    // Splitting at any key and appending what came off restores the entries.
    method SplitAndRejoin(at: int)
      requires Searchable()
      modifies this, tree
      ensures Valid() && Contents() == old(Contents())
    {
      ghost var all := Contents();
      var right := SplitOffDrain(at);
      RankInBound(all, at);
      CutRun(all, RankIn(all, at));
      CutRun(all, |all|);
      assert all[..|all|] == all && all[|all|..] == [];
      Append(right);
    }
  }

  // The two parts of an ordered run are in order, and merging them gives the run back.
  lemma {:induction false} CutRun<T, V>(s: seq<Entry<T, V>>, k: nat)
    requires Ascending(s) && k <= |s|
    ensures Ascending(s[..k]) && Ascending(s[k..]) && Merged(s[..k], s[k..]) == s
  {
    assert s == s[..k] + s[k..];
    AscendingConcat(s[..k], s[k..]);
    MergedWhenDisjoint(s[..k], s[k..]);
  }

  // How many leading entries are below `at`.
  method PartitionPoint<T, V>(pairs: seq<Entry<T, V>>, at: int) returns (n: nat)
    ensures n == RankIn(pairs, at) <= |pairs|
  {
    n := 0;
    while n < |pairs| && pairs[n].key.rank < at
      invariant n <= |pairs| && RankIn(pairs, at) == n + RankIn(pairs[n..], at)
    {
      n := n + 1;
    }
  }

  lemma {:induction false} EmptyMissesNothing<T(!new), V(!new)>(tree: RawBTree<T, V>, at: int)
    requires tree.Searchable() && tree.len == 0
    ensures !tree.Misses(at) && RankIn(tree.Contents(), at) == 0
  {
    OverlookedIsThere(tree.arena, tree.chain, tree.Seps(), at);
  }

  lemma {:induction false} OverlookedIsThere<T, V>(arena: seq<LeafOf<T, V>>, chain: seq<nat>, seps: seq<Key<T>>,
                                                   at: int)
    ensures Overlooks(arena, chain, seps, at) ==> Items(arena, chain) != []
  {
    var p := Below(seps, at);
    if p < |chain| {
      ItemsAround(arena, chain, p);
    }
  }

  lemma {:induction false} MissedOrAllBelow<T(!new), V(!new)>(tree: RawBTree<T, V>, at: int)
    requires RankIn(tree.Contents(), at) == |tree.Contents()| <==> !tree.Misses(at)
    requires RankIn(tree.Contents(), at) <= |tree.Contents()|
    ensures var all, k := tree.Contents(), RankIn(tree.Contents(), at);
            if tree.Misses(at) then k < |all| else k == |all| && all[..k] == all && all[k..] == []
  {
  }

  // A bound in slot 0 of the first leaf: everything lies at or above `at`.
  lemma {:induction false} BoundAtStart<T(!new), V(!new)>(tree: RawBTree<T, V>, p: nat, at: int)
    requires tree.Valid() && tree.firstLeaf >= 0 && tree.BoundAt(tree.firstLeaf, 0, p, at)
    ensures RankIn(tree.Contents(), at) == 0
  {
    DistinctAt(tree.chain, 0, p);
  }

  method FirstRank<T(!new), V(!new)>(tree: RawBTree<T, V>) returns (r: int)
    requires tree.Valid() && tree.len > 0
    ensures r == tree.Contents()[0].key.rank
  {
    var leaf := tree.FirstNonemptyLeaf();
    r := tree.arena[leaf.value].slots[0].key.rank;
  }

  method LastRank<T(!new), V(!new)>(tree: RawBTree<T, V>) returns (r: int)
    requires tree.Valid() && tree.len > 0
    ensures r == tree.Contents()[|tree.Contents()| - 1].key.rank
  {
    var leaf := tree.LastNonemptyLeaf();
    var l := tree.arena[leaf.value];
    r := l.slots[l.len - 1].key.rank;
  }

  // Two ordered runs whose last and first keys are in order lie one below the
  // other, and merging them either way is putting them one behind the other.
  lemma {:induction false} DisjointRuns<T, V>(a: seq<Entry<T, V>>, b: seq<Entry<T, V>>)
    requires Ascending(a) && Ascending(b) && a != [] && b != []
    requires a[|a| - 1].key.rank < b[0].key.rank
    ensures AllBelow(a, b) && Merged(a, b) == a + b && Merged(b, a) == a + b
  {
    forall i, j | 0 <= i < |a| && 0 <= j < |b| ensures a[i].key.rank < b[j].key.rank {
      assert i < |a| - 1 ==> a[i].key.rank < a[|a| - 1].key.rank;
      assert j > 0 ==> b[0].key.rank < b[j].key.rank;
    }
    MergedWhenDisjoint(a, b);
    MergedWhenAbove(b, a);
  }

  // Whether a tree is tall after a graft at height `low`, which may have split its root.
  ghost predicate TallAfter<T>(root: Node<T>, height: nat, low: nat, cap: nat) {
    IsTall(if EdgeFull(root, height, low, cap) then height + 1 else height)
  }

  // A rank of x must not be led into y's part, and a rank of y must.
  ghost predicate RightlyLed<T, V>(x: seq<Entry<T, V>>, y: seq<Entry<T, V>>, r: int, enters: bool) {
    (Lookup(x, r).Some? ==> !enters) && (Lookup(y, r).Some? ==> enters)
  }

  // What a search reads of a tree whose separators are in order.
  datatype Shot<T, V> = Shot(arena: seq<LeafOf<T, V>>, root: Node<T>, height: nat) {
    function Contents(): seq<Entry<T, V>> {
      Items(arena, Leaves(root))
    }

    function Found(r: int): Option<Entry<T, V>> {
      Lookup(HeldAt(arena, Route(root, r + 1)), r)
    }

    // In order, with every leaf there and every separator in place.
    ghost predicate Sound(cap: nat) {
      && cap >= 1 && Shaped(root, height, cap)
      && Guided(arena, Leaves(root), Seps(root))
      && (forall c :: c in Leaves(root) ==> c < |arena|)
      && (forall r :: Found(r) == Lookup(Contents(), r))
    }
  }

  ghost function Snapshot<T(!new), V(!new)>(tree: RawBTree<T, V>): Shot<T, V>
    requires tree.root.Some?
    reads tree
  {
    Shot(tree.arena, tree.root.value, tree.height)
  }

  lemma {:induction false} SnapshotReady<T(!new), V(!new)>(tree: RawBTree<T, V>)
    requires tree.Searchable() && tree.root.Some?
    ensures Snapshot(tree).Sound(tree.innerCap) && Snapshot(tree).Contents() == tree.Contents()
    ensures Leaves(tree.root.value) == tree.chain
  {
    Graft.ChainBounds(tree);
    forall r ensures Snapshot(tree).Found(r) == Lookup(tree.Contents(), r) {
      tree.SearchableFinds(r);
      RoutesAgree(tree.root.value, r + 1, IsTall(tree.height));
    }
  }

  lemma {:induction false} FoundAfterGraft<T, V>(x: Shot<T, V>, y: Shot<T, V>, arena: seq<LeafOf<T, V>>, sep: Key<T>,
                                                 cap: nat,
                                                r: int, tall: bool)
    requires x.Sound(cap) && y.Sound(cap) && y.height <= x.height
    requires Graft.Copied(x.arena, arena, y.arena, Leaves(y.root), |Leaves(y.root)|)
    requires AllBelow(x.Contents(), y.Contents())
    ensures |Leaves(x.root)| > 0
    ensures var node := Graft.GraftedNode(x.root, x.height, y.root, y.height, sep, |x.arena|, cap);
            Lookup(HeldAt(arena, RouteBy(node, r + 1, tall)), r) == Lookup(x.Contents() + y.Contents(), r)
            <==> RightlyLed(x.Contents(), y.Contents(), r, Enters(x.root, x.height, y.height, sep, cap, r + 1, tall))
  {
    Graft.GraftedLeaf(x.arena, arena, y.arena, x.root, x.height, y.root, y.height, sep, cap, r + 1, tall);
    assert x.Found(r) == Lookup(x.Contents(), r) && y.Found(r) == Lookup(y.Contents(), r);
    FoundInEither(x.Contents(), y.Contents(), r);
  }

  lemma {:induction false} AllAfterGraft<T, V>(x: Shot<T, V>, y: Shot<T, V>, arena: seq<LeafOf<T, V>>, sep: Key<T>,
                                               cap: nat, tall: bool)
    requires x.Sound(cap) && y.Sound(cap) && y.height <= x.height
    requires Graft.Copied(x.arena, arena, y.arena, Leaves(y.root), |Leaves(y.root)|)
    requires AllBelow(x.Contents(), y.Contents())
    ensures |Leaves(x.root)| > 0
    ensures var node := Graft.GraftedNode(x.root, x.height, y.root, y.height, sep, |x.arena|, cap);
            forall r :: Lookup(HeldAt(arena, RouteBy(node, r + 1, tall)), r) == Lookup(x.Contents() + y.Contents(), r)
                        <==> RightlyLed(x.Contents(), y.Contents(), r, Enters(x.root, x.height, y.height, sep, cap,
                            r + 1, tall))
  {
    OneMoreLeaf(x.root);
    var node := Graft.GraftedNode(x.root, x.height, y.root, y.height, sep, |x.arena|, cap);
    forall r
      ensures Lookup(HeldAt(arena, RouteBy(node, r + 1, tall)), r) == Lookup(x.Contents() + y.Contents(), r)
              <==> RightlyLed(x.Contents(), y.Contents(), r, Enters(x.root, x.height, y.height, sep, cap, r + 1, tall))
    {
      FoundAfterGraft(x, y, arena, sep, cap, r, tall);
    }
  }

  // Whether the search for r still answers right when b has been grafted
  // behind a: a key of b must be led into the grafted part, a key of a must not.
  ghost predicate GraftFinds<T(!new), V(!new)>(a: RawBTree<T, V>, b: RawBTree<T, V>, r: int)
    reads a, b
  {
    || a.len == 0 || b.len == 0 || a.height < b.height
    || (Graft.FirstSlotReady(b) && a.root.Some? &&
        RightlyLed(a.Contents(), b.Contents(), r,
                   Enters(a.root.value, a.height, b.height, Graft.FirstSlot(b), a.innerCap, r + 1,
                          TallAfter(a.root.value, a.height, b.height, a.innerCap))))
  }

  lemma {:induction false} AllFound<T(!new), V(!new)>(tree: RawBTree<T, V>)
    requires tree.Searchable()
    ensures forall r :: tree.Finds(r)
  {
    forall r ensures tree.Finds(r) {
      tree.SearchableFinds(r);
    }
  }

  // Of two runs one below the other, only one holds a rank; looking in the
  // right one is looking in both.
  lemma {:induction false} FoundInEither<T, V>(a: seq<Entry<T, V>>, b: seq<Entry<T, V>>, r: int)
    requires AllBelow(a, b)
    ensures Lookup(a, r) == Lookup(a + b, r) <==> Lookup(b, r) == None
    ensures Lookup(b, r) == Lookup(a + b, r) <==> Lookup(a, r) == None
  {
    LookupInConcat(a, b, r);
    LookupFindsRank(a, r);
    LookupFindsRank(b, r);
  }

  // When a graft of b behind a leaves every separator in its place: nothing is
  // grafted, or the separator taken from slot 0 of b's first leaf lies between
  // a's last separator and last leaf and b's first leaf and first separator.
  ghost predicate GraftKeepsSeparators<T(!new), V(!new)>(a: RawBTree<T, V>, b: RawBTree<T, V>)
    reads a, b
  {
    || a.len == 0 || b.len == 0 || a.height < b.height
    || (Graft.FirstSlotReady(b) && a.chain != [] &&
        Graft.SeparatorFits(a.Seps(), HeldAt(a.arena, a.chain[|a.chain| - 1]), Graft.FirstSlot(b),
                            HeldAt(b.arena, b.chain[0]), b.Seps()))
  }

  // How the key ranges of two non-empty maps lie.
  datatype RouteKind = Forward | Reverse | Overlap

  function RouteOf<T, V>(x: seq<Entry<T, V>>, y: seq<Entry<T, V>>): RouteKind {
    if x == [] || y == [] then Overlap
    else if x[|x| - 1].key.rank < y[0].key.rank then Forward
    else if y[|y| - 1].key.rank < x[0].key.rank then Reverse
    else Overlap
  }

  // They are grafted when one lies below the other, and merged otherwise.
  lemma {:induction false} RouteIsByKeys<T, V>(x: seq<Entry<T, V>>, y: seq<Entry<T, V>>)
    requires Ascending(x) && Ascending(y) && x != [] && y != []
    ensures RouteOf(x, y) == Forward <==> AllBelow(x, y)
    ensures RouteOf(x, y) == Reverse <==> AllBelow(y, x)
  {
    RouteFromEnds(x, y);
    RouteFromEnds(y, x);
  }

  lemma {:induction false} RouteFromEnds<T, V>(x: seq<Entry<T, V>>, y: seq<Entry<T, V>>)
    requires Ascending(x) && Ascending(y) && x != [] && y != []
    ensures x[|x| - 1].key.rank < y[0].key.rank <==> AllBelow(x, y)
    ensures AllBelow(x, y) ==> x[0].key.rank < y[|y| - 1].key.rank
  {
    if x[|x| - 1].key.rank < y[0].key.rank {
      DisjointRuns(x, y);
    }
  }

  method ChooseRoute<T(!new), V(!new)>(a: RawBTree<T, V>, b: RawBTree<T, V>) returns (route: RouteKind)
    requires a.Valid() && b.Valid() && a.len > 0 && b.len > 0
    ensures route == RouteOf(a.Contents(), b.Contents())
  {
    var aMax := LastRank(a);
    var bMin := FirstRank(b);
    if aMax < bMin {
      return Forward;
    }
    var aMin := FirstRank(a);
    var bMax := LastRank(b);
    route := if bMax < aMin then Reverse else Overlap;
  }

  // When appending b to a leaves every separator in its place.
  ghost predicate AppendKeepsSeparators<T(!new), V(!new)>(a: RawBTree<T, V>, b: RawBTree<T, V>)
    reads a, b
  {
    match RouteOf(a.Contents(), b.Contents())
    case Forward => GraftKeepsSeparators(a, b)
    case Reverse => GraftKeepsSeparators(b, a)
    case Overlap => true
  }

  // Whether the search for r still answers right after an append.
  ghost predicate AppendFinds<T(!new), V(!new)>(a: RawBTree<T, V>, b: RawBTree<T, V>, r: int)
    reads a, b
  {
    match RouteOf(a.Contents(), b.Contents())
    case Forward => GraftFinds(a, b, r)
    case Reverse => GraftFinds(b, a, r)
    case Overlap => true
  }

  // The descent for y's least key enters the graft, and that for x's greatest key does not.
  ghost predicate ClearEdge<T, V>(x: seq<Entry<T, V>>, y: seq<Entry<T, V>>, root: Node<T>, height: nat, low: nat,
                                  sep: Key<T>,
                                  cap: nat, tall: bool)
    requires x != [] && y != []
  {
    && Enters(root, height, low, sep, cap, y[0].key.rank + 1, tall)
    && !Enters(root, height, low, sep, cap, x[|x| - 1].key.rank + 1, tall)
  }

  lemma {:induction false} ClearEdgeLeads<T, V>(x: seq<Entry<T, V>>, y: seq<Entry<T, V>>, root: Node<T>, height: nat,
                                                low: nat,
                                               sep: Key<T>, cap: nat, tall: bool, r: int)
    requires Ascending(x) && Ascending(y) && x != [] && y != [] && ClearEdge(x, y, root, height, low, sep, cap, tall)
    ensures RightlyLed(x, y, r, Enters(root, height, low, sep, cap, r + 1, tall))
  {
    LookupFindsRank(x, r);
    LookupFindsRank(y, r);
    if Lookup(y, r).Some? {
      TreeInsert.RunBounds(y, Lookup(y, r).value);
      EntersAbove(root, height, low, sep, cap, y[0].key.rank + 1, r + 1, tall);
    }
    if Lookup(x, r).Some? && Enters(root, height, low, sep, cap, r + 1, tall) {
      TreeInsert.RunBounds(x, Lookup(x, r).value);
      EntersAbove(root, height, low, sep, cap, r + 1, x[|x| - 1].key.rank + 1, tall);
    }
  }

  // Every search answers right after a graft exactly when the edge is clear:
  // whether two searches do is enough.
  lemma {:induction false} GraftFindsAll<T(!new), V(!new)>(a: RawBTree<T, V>, b: RawBTree<T, V>)
    requires a.Searchable() && b.Searchable() && a.len > 0 && b.len > 0 && a.height >= b.height
    ensures a.root.Some? && Graft.FirstSlotReady(b)
    ensures (forall r :: GraftFinds(a, b, r)) <==>
            ClearEdge(a.Contents(), b.Contents(), a.root.value, a.height, b.height, Graft.FirstSlot(b), a.innerCap,
                      TallAfter(a.root.value, a.height, b.height, a.innerCap))
  {
    Graft.FirstSlotExists(b);
    var x, y, root, sep := a.Contents(), b.Contents(), a.root.value, Graft.FirstSlot(b);
    var tall := TallAfter(root, a.height, b.height, a.innerCap);
    if ClearEdge(x, y, root, a.height, b.height, sep, a.innerCap, tall) {
      forall r ensures GraftFinds(a, b, r) {
        ClearEdgeLeads(x, y, root, a.height, b.height, sep, a.innerCap, tall, r);
      }
    }
    if forall r :: GraftFinds(a, b, r) {
      assert GraftFinds(a, b, y[0].key.rank) && GraftFinds(a, b, x[|x| - 1].key.rank);
      LedNeedsClearEdge(x, y, root, a.height, b.height, sep, a.innerCap, tall);
    }
  }

  lemma {:induction false} LedNeedsClearEdge<T, V>(x: seq<Entry<T, V>>, y: seq<Entry<T, V>>, root: Node<T>,
                                                   height: nat, low: nat,
                                                  sep: Key<T>, cap: nat, tall: bool)
    requires Ascending(x) && Ascending(y) && x != [] && y != []
    requires var r := y[0].key.rank; RightlyLed(x, y, r, Enters(root, height, low, sep, cap, r + 1, tall))
    requires var r := x[|x| - 1].key.rank; RightlyLed(x, y, r, Enters(root, height, low, sep, cap, r + 1, tall))
    ensures ClearEdge(x, y, root, height, low, sep, cap, tall)
  {
    LookupAt(y, 0);
    LookupAt(x, |x| - 1);
  }

  lemma {:induction false} NonEmptyHasRoot<T(!new), V(!new)>(tree: RawBTree<T, V>)
    requires tree.Valid() && tree.len > 0
    ensures tree.root.Some?
  {
  }

  // Grafting two trees whose touching leaves are not empty keeps all separators in place.
  lemma {:induction false} FullEndsCanBeGrafted<T(!new), V(!new)>(a: RawBTree<T, V>, b: RawBTree<T, V>)
    requires a.Searchable() && b.Searchable() && AllBelow(a.Contents(), b.Contents())
    requires a.chain != [] ==> HeldAt(a.arena, a.chain[|a.chain| - 1]) != []
    requires b.chain != [] ==> HeldAt(b.arena, b.chain[0]) != []
    ensures GraftKeepsSeparators(a, b)
  {
    if a.len > 0 && b.len > 0 {
      Graft.FirstSlotExists(b);
      AscendingConcat(a.Contents(), b.Contents());
      LinksAt(b.arena, b.chain, 0);
      Graft.FullEndsFit(a.arena, a.chain, a.Seps(), b.arena, b.chain, b.Seps(), Graft.FirstSlot(b));
    }
  }

  lemma {:induction false} InsertAllIntoEmpty<T(!new), V(!new)>(b: seq<Entry<T, V>>)
    requires Ascending(b)
    ensures InsertAll([], b) == b
  {
    InsertAllIsUnion([], b, 0);
    forall r ensures Lookup(InsertAll([], b), r) == Lookup(b, r) {
      InsertAllIsUnion([], b, r);
    }
    SameMapSameEntries(InsertAll([], b), b);
  }
}
