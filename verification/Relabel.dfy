// An interior over other leaves: same separators, same shape.

module Relabel {
  import opened Seqs
  import opened SortedEntries
  import opened Interior

  // The copy of an interior whose leaves are, from left to right, the given ones.
  function Relabelled<T>(n: Node<T>, ids: seq<nat>): Node<T>
    requires |ids| == |Leaves(n)|
    decreases Size(n), 0
  {
    match n
    case LeafAt(_) => LeafAt(ids[0])
    case Inner(first, rest) =>
      var k := |Leaves(first)|;
      Inner(Relabelled(first, ids[..k]), RelabelledBranches(rest, ids[k..]))
  }

  function RelabelledBranches<T>(rest: seq<Branch<T>>, ids: seq<nat>): (more: seq<Branch<T>>)
    requires |ids| == |BranchLeaves(rest)|
    ensures |more| == |rest|
    decreases Sizes(rest), 1
  {
    if rest == [] then []
    else
      var k := |Leaves(rest[0].child)|;
      [Branch(rest[0].key, Relabelled(rest[0].child, ids[..k]))] + RelabelledBranches(rest[1..], ids[k..])
  }

  lemma {:induction false} RelabelledIsSame<T>(n: Node<T>, ids: seq<nat>)
    requires |ids| == |Leaves(n)|
    ensures Leaves(Relabelled(n, ids)) == ids && Seps(Relabelled(n, ids)) == Seps(n)
    decreases Size(n), 0
  {
    match n
    case LeafAt(_) =>
      assert ids == [ids[0]];
    case Inner(first, rest) =>
      var k := |Leaves(first)|;
      RelabelledIsSame(first, ids[..k]);
      RelabelledBranchesAreSame(rest, ids[k..]);
      assert ids == ids[..k] + ids[k..];
  }

  lemma {:induction false} RelabelledBranchesAreSame<T>(rest: seq<Branch<T>>, ids: seq<nat>)
    requires |ids| == |BranchLeaves(rest)|
    ensures BranchLeaves(RelabelledBranches(rest, ids)) == ids
    ensures BranchSeps(RelabelledBranches(rest, ids)) == BranchSeps(rest)
    decreases Sizes(rest), 1
  {
    if rest != [] {
      var child, tail, k := rest[0].child, rest[1..], |Leaves(rest[0].child)|;
      RelabelledIsSame(child, ids[..k]);
      RelabelledBranchesAreSame(tail, ids[k..]);
      BranchHead(rest[0].key, Relabelled(child, ids[..k]), RelabelledBranches(tail, ids[k..]));
      assert ids == ids[..k] + ids[k..];
    }
  }

  lemma {:induction false} RelabelledShape<T>(n: Node<T>, ids: seq<nat>, h: nat, cap: nat)
    requires |ids| == |Leaves(n)|
    ensures Shaped(Relabelled(n, ids), h, cap) <==> Shaped(n, h, cap)
    decreases Size(n), 0
  {
    match n
    case LeafAt(_) =>
    case Inner(first, rest) =>
      if h > 0 {
        var k := |Leaves(first)|;
        RelabelledShape(first, ids[..k], h - 1, cap);
        RelabelledBranchesShape(rest, ids[k..], h - 1, cap);
      }
  }

  lemma {:induction false} RelabelledBranchesShape<T>(rest: seq<Branch<T>>, ids: seq<nat>, h: nat, cap: nat)
    requires |ids| == |BranchLeaves(rest)|
    ensures BranchesShaped(RelabelledBranches(rest, ids), h, cap) <==> BranchesShaped(rest, h, cap)
    decreases Sizes(rest), 1
  {
    if rest != [] {
      var child, tail, k := rest[0].child, rest[1..], |Leaves(rest[0].child)|;
      var head, more := Branch(rest[0].key, Relabelled(child, ids[..k])), RelabelledBranches(tail, ids[k..]);
      RelabelledShape(child, ids[..k], h, cap);
      RelabelledBranchesShape(tail, ids[k..], h, cap);
      TailOfConcat([head], more);
      NothingBefore([head][1..], more);
    }
  }
}
