// Building the interior of a tree bottom-up from its leaves.

module BulkLoad {
  import opened Seqs
  import opened SortedEntries
  import opened Interior

  // A level under construction is a list of subtrees, each with the smallest
  // key of its leftmost leaf.
  function LeafLevel<T>(leaves: seq<nat>, minKeys: seq<Key<T>>): seq<Branch<T>>
    requires |leaves| == |minKeys|
  {
    if leaves == [] then [] else [Branch(minKeys[0], LeafAt(leaves[0]))] + LeafLevel(leaves[1..], minKeys[1..])
  }

  lemma {:induction false} LeafLevelIsFlat<T>(leaves: seq<nat>, minKeys: seq<Key<T>>, cap: nat)
    requires |leaves| == |minKeys|
    ensures |LeafLevel(leaves, minKeys)| == |leaves|
    ensures BranchLeaves(LeafLevel(leaves, minKeys)) == leaves
    ensures BranchSeps(LeafLevel(leaves, minKeys)) == minKeys
    ensures BranchesShaped(LeafLevel(leaves, minKeys), 0, cap)
  {
    if leaves != [] {
      var more := LeafLevel(leaves[1..], minKeys[1..]);
      LeafLevelIsFlat(leaves[1..], minKeys[1..], cap);
      BranchHead(minKeys[0], LeafAt(leaves[0]), more);
      BranchInFront(minKeys[0], LeafAt(leaves[0]), more, 0, cap);
    }
  }

  // A run of subtrees under one parent, keyed by the first of them.
  function Parent<T>(group: seq<Branch<T>>): Branch<T>
    requires group != []
  {
    Branch(group[0].key, Inner(group[0].child, group[1..]))
  }

  // How many subtrees the next parent takes: as many as fit.
  function GroupSize<T>(level: seq<Branch<T>>, cap: nat): (n: nat)
    requires level != []
    ensures 1 <= n <= |level|
  {
    if |level| < cap + 1 then |level| else cap + 1
  }

  // The level above: full parents, and a last one with what is left, be it a single subtree.
  function Grouped<T>(level: seq<Branch<T>>, cap: nat): (parents: seq<Branch<T>>)
    ensures |parents| <= |level| && (level != [] ==> parents != [])
    ensures |level| > 1 && cap >= 1 ==> |parents| < |level|
  {
    if level == [] then []
    else
      var n := GroupSize(level, cap);
      [Parent(level[..n])] + Grouped(level[n..], cap)
  }

  // The subtree that is left when the levels are grouped until one remains.
  function Built<T>(level: seq<Branch<T>>, cap: nat): Node<T>
    requires level != [] && cap >= 1
    decreases |level|
  {
    if |level| == 1 then level[0].child else Built(Grouped(level, cap), cap)
  }

  // How many levels that takes.
  function Levels<T>(level: seq<Branch<T>>, cap: nat): nat
    requires level != [] && cap >= 1
    decreases |level|
  {
    if |level| == 1 then 0 else 1 + Levels(Grouped(level, cap), cap)
  }

  lemma {:induction false} GroupIsFlat<T>(group: seq<Branch<T>>, h: nat, cap: nat)
    requires 1 <= |group| <= cap + 1 && BranchesShaped(group, h, cap)
    ensures var parent := Parent(group);
            && BranchLeaves([parent]) == BranchLeaves(group)
            && BranchSeps([parent]) == BranchSeps(group)
            && BranchesShaped([parent], h + 1, cap)
  {
    var parent := Parent(group);
    assert [parent][1..] == [];
    assert Shaped(parent.child, h + 1, cap);
    assert BranchLeaves([parent]) == Leaves(parent.child) + [];
    assert BranchSeps([parent]) == [parent.key] + (Seps(parent.child) + []);
  }

  lemma {:induction false} GroupedIsFlat<T>(level: seq<Branch<T>>, h: nat, cap: nat)
    requires BranchesShaped(level, h, cap)
    ensures BranchLeaves(Grouped(level, cap)) == BranchLeaves(level)
    ensures BranchSeps(Grouped(level, cap)) == BranchSeps(level)
    ensures BranchesShaped(Grouped(level, cap), h + 1, cap)
  {
    if level != [] {
      var n := GroupSize(level, cap);
      var group, left := level[..n], level[n..];
      assert level == group + left;
      ShapedConcat(group, left, h, cap);
      GroupIsFlat(group, h, cap);
      GroupedIsFlat(left, h, cap);
      BranchesConcat(group, left);
      BranchesConcat([Parent(group)], Grouped(left, cap));
      ShapedConcat([Parent(group)], Grouped(left, cap), h + 1, cap);
    }
  }

  // Every parent is an inner node, and all but the last hold as many keys as fit.
  ghost predicate FullNodes<T>(parents: seq<Branch<T>>, cap: nat) {
    && (forall i :: 0 <= i < |parents| ==> parents[i].child.Inner? && |parents[i].child.rest| <= cap)
    && (forall i :: 0 <= i < |parents| - 1 ==> |parents[i].child.rest| == cap)
  }

  lemma {:induction false} GroupedIsFilled<T>(level: seq<Branch<T>>, cap: nat)
    ensures FullNodes(Grouped(level, cap), cap)
  {
    if level != [] {
      var n := GroupSize(level, cap);
      GroupedIsFilled(level[n..], cap);
    }
  }

  // The separators of the finished interior are the first keys of the leaves
  // after the first, each between its leaf and the one before, on every level.
  lemma {:induction false} BuiltIsFlat<T>(level: seq<Branch<T>>, h: nat, cap: nat)
    requires level != [] && cap >= 1 && BranchesShaped(level, h, cap)
    ensures Leaves(Built(level, cap)) == BranchLeaves(level)
    ensures Seps(Built(level, cap)) == BranchSeps(level)[1..]
    ensures Shaped(Built(level, cap), h + Levels(level, cap), cap)
    decreases |level|
  {
    if |level| == 1 {
      assert level == [Branch(level[0].key, level[0].child)] + [];
      BranchHead(level[0].key, level[0].child, []);
    } else {
      GroupedIsFlat(level, h, cap);
      BuiltIsFlat(Grouped(level, cap), h + 1, cap);
    }
  }

  // One level of parents over another.
  method BuildLevel<T>(level: seq<Branch<T>>, cap: nat) returns (parents: seq<Branch<T>>)
    ensures parents == Grouped(level, cap)
    ensures forall i :: 0 <= i < |parents| - 1 ==> parents[i].child.Inner? && |parents[i].child.rest| == cap
  {
    GroupedIsFilled(level, cap);
    parents := [];
    var i := 0;
    while i < |level|
      invariant 0 <= i <= |level|
      invariant parents + Grouped(level[i..], cap) == Grouped(level, cap)
    {
      var n := GroupSize(level[i..], cap);
      var group := level[i..][..n];
      assert level[i..][n..] == level[i + n..];
      Assoc(parents, [Parent(group)], Grouped(level[i + n..], cap));
      parents := parents + [Parent(group)];
      i := i + n;
    }
    assert Grouped(level[i..], cap) == [];
  }

  method BuildInterior<T>(leaves: seq<nat>, minKeys: seq<Key<T>>, cap: nat) returns (root: Node<T>, height: nat)
    requires |leaves| == |minKeys| > 0 && cap >= 1
    ensures root == Built(LeafLevel(leaves, minKeys), cap)
    ensures Leaves(root) == leaves && Seps(root) == minKeys[1..]
    ensures Shaped(root, height, cap) && height == Levels(LeafLevel(leaves, minKeys), cap)
  {
    LeafLevelIsFlat(leaves, minKeys, cap);
    var level := LeafLevel(leaves, minKeys);
    BuiltIsFlat(level, 0, cap);
    ghost var start := level;
    height := 0;
    while |level| > 1
      invariant |level| >= 1
      invariant Built(level, cap) == Built(start, cap) && height + Levels(level, cap) == Levels(start, cap)
      decreases |level|
    {
      level := BuildLevel(level, cap);
      height := height + 1;
    }
    root := level[0].child;
  }
}
