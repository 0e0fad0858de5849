// The interior of a FlatBTree: nodes of separators over the leaves.  A node
// with keys k0..k(n-1) and children c0..cn is written as its first child and
// the list of (key, child) pairs that follow it.  Read left to right, the
// separators of the whole interior form one list, with one separator between
// every two neighbouring leaves.

module Interior {
  import opened Seqs
  import opened SortedEntries

  datatype Node<+T> = LeafAt(index: nat) | Inner(first: Node<T>, rest: seq<Branch<T>>)

  datatype Branch<+T> = Branch(key: Key<T>, child: Node<T>)

  // The measure that every recursion over an interior goes down by.
  function Size<T>(n: Node<T>): nat {
    match n
    case LeafAt(_) => 1
    case Inner(first, rest) => 1 + Size(first) + Sizes(rest)
  }

  function Sizes<T>(rest: seq<Branch<T>>): (total: nat)
    ensures rest != [] ==> total == BranchSize(rest[0]) + Sizes(rest[1..])
  {
    if rest == [] then 0 else BranchSize(rest[0]) + Sizes(rest[1..])
  }

  function BranchSize<T>(b: Branch<T>): (size: nat)
    ensures size == 1 + Size(b.child)
  {
    1 + Size(b.child)
  }

  function Leaves<T>(n: Node<T>): seq<nat>
    decreases Size(n)
  {
    match n
    case LeafAt(i) => [i]
    case Inner(first, rest) => Leaves(first) + BranchLeaves(rest)
  }

  function BranchLeaves<T>(rest: seq<Branch<T>>): seq<nat>
    decreases Sizes(rest)
  {
    if rest == [] then [] else Leaves(rest[0].child) + BranchLeaves(rest[1..])
  }

  function Seps<T>(n: Node<T>): seq<Key<T>>
    decreases Size(n)
  {
    match n
    case LeafAt(_) => []
    case Inner(first, rest) => Seps(first) + BranchSeps(rest)
  }

  function BranchSeps<T>(rest: seq<Branch<T>>): seq<Key<T>>
    decreases Sizes(rest)
  {
    if rest == [] then [] else [rest[0].key] + (Seps(rest[0].child) + BranchSeps(rest[1..]))
  }

  // All leaves lie at depth h, and no node holds more than cap separators.
  predicate Shaped<T>(n: Node<T>, h: nat, cap: nat)
    decreases Size(n)
  {
    match n
    case LeafAt(_) => h == 0
    case Inner(first, rest) => h > 0 && |rest| <= cap && Shaped(first, h - 1, cap) && BranchesShaped(rest, h - 1, cap)
  }

  predicate BranchesShaped<T>(rest: seq<Branch<T>>, h: nat, cap: nat)
    decreases Sizes(rest)
  {
    rest == [] || (Shaped(rest[0].child, h, cap) && BranchesShaped(rest[1..], h, cap))
  }

  lemma {:induction false} OneMoreLeaf<T>(n: Node<T>)
    ensures |Leaves(n)| == |Seps(n)| + 1
    decreases Size(n)
  {
    match n
    case LeafAt(_) =>
    case Inner(first, rest) =>
      OneMoreLeaf(first);
      BranchesMatch(rest);
  }

  lemma {:induction false} BranchesMatch<T>(rest: seq<Branch<T>>)
    ensures |BranchLeaves(rest)| == |BranchSeps(rest)|
    decreases Sizes(rest)
  {
    if rest != [] {
      OneMoreLeaf(rest[0].child);
      BranchesMatch(rest[1..]);
    }
  }

  lemma {:induction false} BranchesConcat<T>(a: seq<Branch<T>>, b: seq<Branch<T>>)
    ensures BranchLeaves(a + b) == BranchLeaves(a) + BranchLeaves(b)
    ensures BranchSeps(a + b) == BranchSeps(a) + BranchSeps(b)
  {
    if a == [] {
      NothingBefore(a, b);
      NothingBefore(BranchLeaves(a), BranchLeaves(b));
      NothingBefore(BranchSeps(a), BranchSeps(b));
    } else {
      var head := a[0].child;
      TailOfConcat(a, b);
      BranchesConcat(a[1..], b);
      Assoc(Leaves(head), BranchLeaves(a[1..]), BranchLeaves(b));
      Assoc(Seps(head), BranchSeps(a[1..]), BranchSeps(b));
      Assoc([a[0].key], Seps(head) + BranchSeps(a[1..]), BranchSeps(b));
    }
  }

  lemma {:induction false} ShapedConcat<T>(a: seq<Branch<T>>, b: seq<Branch<T>>, h: nat, cap: nat)
    ensures BranchesShaped(a + b, h, cap) <==> BranchesShaped(a, h, cap) && BranchesShaped(b, h, cap)
  {
    if a == [] {
      assert a + b == b;
    } else {
      var c := a + b;
      assert c[0] == a[0] && c[1..] == a[1..] + b;
      ShapedConcat(a[1..], b, h, cap);
    }
  }

  // --- Descending to a leaf ------------------------------------------------

  // No separator is above the bound.
  predicate AtMost<T>(seps: seq<Key<T>>, bound: int) {
    seps == [] || (seps[0].rank <= bound && AtMost(seps[1..], bound))
  }

  // Separators in order; equal neighbours are allowed.
  predicate NonDecreasing<T>(seps: seq<Key<T>>) {
    |seps| <= 1 || (seps[0].rank <= seps[1].rank && NonDecreasing(seps[1..]))
  }

  lemma {:induction false} OrderedIsNonDecreasing<T>(seps: seq<Key<T>>)
    requires forall i, j :: 0 <= i < j < |seps| ==> seps[i].rank <= seps[j].rank
    ensures NonDecreasing(seps)
  {
    if |seps| > 1 {
      OrderedIsNonDecreasing(seps[1..]);
    }
  }

  lemma {:induction false} NonDecreasingOrdered<T>(seps: seq<Key<T>>)
    requires NonDecreasing(seps)
    ensures forall i, j :: 0 <= i < j < |seps| ==> seps[i].rank <= seps[j].rank
  {
    if |seps| > 1 {
      NonDecreasingOrdered(seps[1..]);
    }
  }

  lemma {:induction false} NonDecreasingTail<T>(a: seq<Key<T>>, k: Key<T>, b: seq<Key<T>>)
    requires NonDecreasing(a + ([k] + b))
    ensures NonDecreasing(a) && NonDecreasing([k] + b) && NonDecreasing(b) && AtMost(a, k.rank)
  {
    if a == [] {
      NothingBefore(a, [k] + b);
      TailOfConcat([k], b);
      NothingBefore([k][1..], b);
    } else {
      TailOfConcat(a, [k] + b);
      NonDecreasingTail(a[1..], k, b);
      if |a| > 1 {
        assert (a + ([k] + b))[1] == a[1];
      }
    }
  }

  // How many leading separators are below rank r.
  function Below<T>(seps: seq<Key<T>>, r: int): nat {
    if seps == [] || r <= seps[0].rank then 0 else 1 + Below(seps[1..], r)
  }

  // The child an interior node sends rank r to: the one left of the first key
  // that is not below r.
  function ChildFor<T>(first: Node<T>, rest: seq<Branch<T>>, r: int): (c: Node<T>)
    ensures Size(c) <= Size(first) + Sizes(rest)
    decreases |rest|
  {
    if rest == [] || r <= rest[0].key.rank then first
    else ChildFor(rest[0].child, rest[1..], r)
  }

  // The leaf that the descent for rank r ends in.  A lower-bound descent for a
  // key goes left at an equal separator and uses the key's rank; a search goes
  // right at an equal separator and so uses the rank above it.
  function Route<T>(n: Node<T>, r: int): nat
    decreases Size(n)
  {
    match n
    case LeafAt(i) => i
    case Inner(first, rest) => Route(ChildFor(first, rest, r), r)
  }

  lemma {:induction false} BelowBound<T>(seps: seq<Key<T>>, r: int)
    ensures Below(seps, r) <= |seps|
    ensures forall i :: 0 <= i < Below(seps, r) ==> seps[i].rank < r
    ensures Below(seps, r) < |seps| ==> r <= seps[Below(seps, r)].rank
  {
    if seps != [] && seps[0].rank < r {
      BelowBound(seps[1..], r);
    }
  }

  // The leaf that the flat lists send rank r to: skip a leaf for every leading
  // separator below r.
  function FlatRoute<T>(leaves: seq<nat>, seps: seq<Key<T>>, r: int): nat {
    if leaves == [] then 0
    else if seps == [] || r <= seps[0].rank then leaves[0]
    else FlatRoute(leaves[1..], seps[1..], r)
  }

  lemma {:induction false} FlatRouteIsIndex<T>(leaves: seq<nat>, seps: seq<Key<T>>, r: int)
    requires |leaves| == |seps| + 1
    ensures Below(seps, r) < |leaves| && FlatRoute(leaves, seps, r) == leaves[Below(seps, r)]
  {
    if seps != [] && seps[0].rank < r {
      FlatRouteIsIndex(leaves[1..], seps[1..], r);
    }
  }

  // A rank that does not pass the first separator of the right part stays left.
  lemma {:induction false} StaysLeft<T>(l: seq<nat>, s: seq<Key<T>>, m: seq<nat>, t: seq<Key<T>>, r: int)
    requires |l| == |s| + 1 && (t == [] || r <= t[0].rank)
    ensures FlatRoute(l + m, s + t, r) == FlatRoute(l, s, r)
  {
    TailOfConcat(l, m);
    if s == [] {
      NothingBefore(s, t);
    } else {
      TailOfConcat(s, t);
      StaysLeft(l[1..], s[1..], m, t, r);
    }
  }

  // A rank above every separator up to and including `key` goes on to the right part.
  lemma {:induction false} PassesRight<T>(l: seq<nat>, s: seq<Key<T>>, key: Key<T>, m: seq<nat>, u: seq<Key<T>>, r: int)
    requires |l| == |s| + 1 && key.rank < r && AtMost(s, key.rank)
    ensures FlatRoute(l + m, s + ([key] + u), r) == FlatRoute(m, u, r)
  {
    TailOfConcat(l, m);
    if s == [] {
      NothingBefore(s, [key] + u);
      NothingBefore(l[1..], m);
      TailOfConcat([key], u);
      NothingBefore([key][1..], u);
    } else {
      TailOfConcat(s, [key] + u);
      PassesRight(l[1..], s[1..], key, m, u, r);
    }
  }

  // A descent through the levels ends in the leaf that the flat list of
  // separators points at.
  lemma {:induction false} RouteIsFlat<T>(n: Node<T>, r: int)
    requires NonDecreasing(Seps(n))
    ensures Route(n, r) == FlatRoute(Leaves(n), Seps(n), r)
    decreases Size(n), 0
  {
    match n
    case LeafAt(_) =>
    case Inner(first, rest) => RouteInBranches(first, rest, r);
  }

  lemma {:induction false} RouteInBranches<T>(first: Node<T>, rest: seq<Branch<T>>, r: int)
    requires NonDecreasing(Seps(first) + BranchSeps(rest))
    ensures Route(ChildFor(first, rest, r), r)
         == FlatRoute(Leaves(first) + BranchLeaves(rest), Seps(first) + BranchSeps(rest), r)
    decreases Size(first) + Sizes(rest), 1
  {
    OneMoreLeaf(first);
    if rest == [] {
      assert BranchSeps(rest) == [] && Seps(first) + [] == Seps(first);
      RouteIsFlat(first, r);
      StaysLeft(Leaves(first), Seps(first), BranchLeaves(rest), BranchSeps(rest), r);
    } else {
      var key, child, more := rest[0].key, rest[0].child, rest[1..];
      NonDecreasingTail(Seps(first), key, Seps(child) + BranchSeps(more));
      if r <= key.rank {
        RouteIsFlat(first, r);
        StaysLeft(Leaves(first), Seps(first), BranchLeaves(rest), BranchSeps(rest), r);
      } else {
        RouteInBranches(child, more, r);
        PassesRight(Leaves(first), Seps(first), key, BranchLeaves(rest), Seps(child) + BranchSeps(more), r);
      }
    }
  }

  // A descent always ends in one of the leaves, whatever the separators are.
  lemma {:induction false} RouteIsLeaf<T>(n: Node<T>, r: int)
    ensures Route(n, r) in Leaves(n)
    decreases Size(n), 0
  {
    match n
    case LeafAt(_) =>
    case Inner(first, rest) => ChildLeaf(first, rest, r);
  }

  lemma {:induction false} ChildLeaf<T>(first: Node<T>, rest: seq<Branch<T>>, r: int)
    ensures Route(ChildFor(first, rest, r), r) in Leaves(first) + BranchLeaves(rest)
    decreases Size(first) + Sizes(rest), 1
  {
    if rest == [] || r <= rest[0].key.rank {
      RouteIsLeaf(first, r);
    } else {
      ChildLeaf(rest[0].child, rest[1..], r);
    }
  }

  // The leaf a descent ends in has as many leaves in front of it as there are
  // separators below the rank.
  lemma {:induction false} DescentCountsSeparators<T>(n: Node<T>, r: int)
    requires NonDecreasing(Seps(n))
    ensures |Leaves(n)| == |Seps(n)| + 1
    ensures Below(Seps(n), r) < |Leaves(n)| && Route(n, r) == Leaves(n)[Below(Seps(n), r)]
  {
    OneMoreLeaf(n);
    RouteIsFlat(n, r);
    FlatRouteIsIndex(Leaves(n), Seps(n), r);
  }

  // --- Growing by one subtree ----------------------------------------------

  // A node after an insertion below it: still one node, or split in two
  // around a promoted key.
  datatype Grown<+T> = Whole(node: Node<T>) | Halves(left: Node<T>, key: Key<T>, right: Node<T>)

  function GrownLeaves<T>(g: Grown<T>): seq<nat> {
    match g
    case Whole(n) => Leaves(n)
    case Halves(l, _, r) => Leaves(l) + Leaves(r)
  }

  function GrownSeps<T>(g: Grown<T>): seq<Key<T>> {
    match g
    case Whole(n) => Seps(n)
    case Halves(l, k, r) => Seps(l) + [k] + Seps(r)
  }

  predicate GrownShaped<T>(g: Grown<T>, h: nat, cap: nat) {
    match g
    case Whole(n) => Shaped(n, h, cap)
    case Halves(l, _, r) => Shaped(l, h, cap) && Shaped(r, h, cap)
  }

  // Puts the key and the subtree `added` right behind the subtree of height
  // `stop` that ends in leaf number c, splitting full nodes on the way up.
  function GrowAt<T>(n: Node<T>, h: nat, c: nat, stop: nat, key: Key<T>, added: Node<T>, cap: nat): Grown<T>
    requires Shaped(n, h, cap) && stop <= h && cap >= 1
    decreases Size(n), 0
  {
    if h == stop then Halves(n, key, added)
    else
      match n
      case LeafAt(_) => Whole(n)
      case Inner(first, rest) =>
        var (f, more) := GrowBranches(first, rest, h - 1, c, stop, key, added, cap);
        Pack(f, more, cap)
  }

  function GrowBranches<T>(first: Node<T>, rest: seq<Branch<T>>, h: nat, c: nat, stop: nat, key: Key<T>,
                           added: Node<T>, cap: nat): (Node<T>, seq<Branch<T>>)
    requires Shaped(first, h, cap) && BranchesShaped(rest, h, cap) && stop <= h && cap >= 1
    decreases Size(first) + Sizes(rest), 1
  {
    if rest == [] || c < |Leaves(first)| then
      match GrowAt(first, h, c, stop, key, added, cap)
      case Whole(n) => (n, rest)
      case Halves(l, k, r) => (l, [Branch(k, r)] + rest)
    else
      var (f, more) := GrowBranches(rest[0].child, rest[1..], h, c - |Leaves(first)|, stop, key, added, cap);
      (first, [Branch(rest[0].key, f)] + more)
  }

  // A node that has come to hold one key too many is split around its middle key.
  function Pack<T>(first: Node<T>, rest: seq<Branch<T>>, cap: nat): Grown<T>
    requires cap >= 1
  {
    if |rest| <= cap then Whole(Inner(first, rest))
    else
      var mid := cap / 2;
      Halves(Inner(first, rest[..mid]), rest[mid].key, Inner(rest[mid].child, rest[mid + 1..]))
  }

  lemma {:induction false} Regroup<X>(a: seq<X>, b: seq<X>, k: seq<X>, c: seq<X>, d: seq<X>)
    ensures (a + b) + k + (c + d) == a + (b + (k + (c + d)))
    ensures (a + b) + (c + d) == a + (b + (c + d))
  {
  }

  lemma {:induction false} HalvesAreFlat<T>(first: Node<T>, a: seq<Branch<T>>, key: Key<T>, child: Node<T>,
                                            b: seq<Branch<T>>)
    ensures GrownLeaves(Halves(Inner(first, a), key, Inner(child, b)))
         == Leaves(first) + (BranchLeaves(a) + (Leaves(child) + BranchLeaves(b)))
    ensures GrownSeps(Halves(Inner(first, a), key, Inner(child, b)))
         == Seps(first) + (BranchSeps(a) + ([key] + (Seps(child) + BranchSeps(b))))
  {
    Regroup(Leaves(first), BranchLeaves(a), [], Leaves(child), BranchLeaves(b));
    Regroup(Seps(first), BranchSeps(a), [key], Seps(child), BranchSeps(b));
  }

  // Two nodes, with that many keys each; the one between them has gone up.
  predicate SplitIn<T>(g: Grown<T>, left: nat, right: nat) {
    g.Halves? && g.left.Inner? && g.right.Inner? && |g.left.rest| == left && |g.right.rest| == right
  }

  lemma {:induction false} PackKeepsFlat<T>(first: Node<T>, rest: seq<Branch<T>>, h: nat, cap: nat)
    requires cap >= 1 && |rest| <= cap + 1
    requires Shaped(first, h, cap) && BranchesShaped(rest, h, cap)
    ensures GrownLeaves(Pack(first, rest, cap)) == Leaves(first) + BranchLeaves(rest)
    ensures GrownSeps(Pack(first, rest, cap)) == Seps(first) + BranchSeps(rest)
    ensures GrownShaped(Pack(first, rest, cap), h + 1, cap)
  {
    if |rest| > cap {
      var mid := cap / 2;
      var a, b := rest[..mid], rest[mid..];
      assert rest == a + b;
      BranchesConcat(a, b);
      ShapedConcat(a, b, h, cap);
      var key, child, more := b[0].key, b[0].child, b[1..];
      assert more == rest[mid + 1..];
      assert Pack(first, rest, cap) == Halves(Inner(first, a), key, Inner(child, more));
      HalvesAreFlat(first, a, key, child, more);
      assert BranchSeps(b) == [key] + (Seps(child) + BranchSeps(more));
      assert BranchLeaves(b) == Leaves(child) + BranchLeaves(more);
    }
  }

  // A node with no key too many stays whole; one with a key too many is halved, the smaller half left.
  lemma {:induction false} PackHalves<T>(first: Node<T>, rest: seq<Branch<T>>, cap: nat)
    requires cap >= 1
    ensures |rest| <= cap ==> Pack(first, rest, cap) == Whole(Inner(first, rest))
    ensures |rest| == cap + 1 ==> SplitIn(Pack(first, rest, cap), cap / 2, cap - cap / 2)
  {
  }

  // Growing inserts exactly the new leaves behind leaf c and the new
  // separators in the same place, and keeps all leaves at one depth.
  lemma {:induction false} GrowIsSplice<T>(n: Node<T>, h: nat, c: nat, stop: nat, key: Key<T>, added: Node<T>, cap: nat)
    requires Shaped(n, h, cap) && Shaped(added, stop, cap) && stop <= h && cap >= 1
    requires c < |Leaves(n)| && (stop > 0 ==> c == |Leaves(n)| - 1)
    ensures |Leaves(n)| == |Seps(n)| + 1
    ensures GrownLeaves(GrowAt(n, h, c, stop, key, added, cap)) == Spliced(Leaves(n), c + 1, Leaves(added))
    ensures GrownSeps(GrowAt(n, h, c, stop, key, added, cap)) == Spliced(Seps(n), c, [key] + Seps(added))
    ensures GrownShaped(GrowAt(n, h, c, stop, key, added, cap), h, cap)
    decreases Size(n), 0
  {
    OneMoreLeaf(n);
    var leaves, seps := Leaves(n), Seps(n);
    if h == stop {
      ShapedLeafCount(n, h, cap);
      SplicedAtEnd(leaves, Leaves(added));
      SplicedAtEnd(seps, [key] + Seps(added));
      assert (seps + [key]) + Seps(added) == seps + ([key] + Seps(added));
    } else {
      var Inner(first, rest) := n;
      var (f, more) := GrowBranches(first, rest, h - 1, c, stop, key, added, cap);
      GrowBranchesIsSplice(first, rest, h - 1, c, stop, key, added, cap);
      PackKeepsFlat(f, more, h - 1, cap);
      assert FlatOf(first, rest) == Flat(leaves, seps);
    }
  }

  lemma {:induction false} ShapedLeafCount<T>(n: Node<T>, h: nat, cap: nat)
    requires Shaped(n, h, cap)
    ensures h == 0 ==> |Leaves(n)| == 1
  {
  }

  lemma {:induction false} BranchHead<T>(key: Key<T>, child: Node<T>, rest: seq<Branch<T>>)
    ensures BranchLeaves([Branch(key, child)] + rest) == Leaves(child) + BranchLeaves(rest)
    ensures BranchSeps([Branch(key, child)] + rest) == [key] + (Seps(child) + BranchSeps(rest))
  {
    TailOfConcat([Branch(key, child)], rest);
    NothingBefore([Branch(key, child)][1..], rest);
  }

  lemma {:induction false} BranchInFront<T>(key: Key<T>, child: Node<T>, rest: seq<Branch<T>>, h: nat, cap: nat)
    requires Shaped(child, h, cap) && BranchesShaped(rest, h, cap)
    ensures BranchesShaped([Branch(key, child)] + rest, h, cap)
  {
    TailOfConcat([Branch(key, child)], rest);
    NothingBefore([Branch(key, child)][1..], rest);
  }

  lemma {:induction false} GrownInFront<T>(g: Grown<T>, rest: seq<Branch<T>>)
    ensures g.Halves? ==>
      && Leaves(g.left) + BranchLeaves([Branch(g.key, g.right)] + rest) == GrownLeaves(g) + BranchLeaves(rest)
      && Seps(g.left) + BranchSeps([Branch(g.key, g.right)] + rest) == GrownSeps(g) + BranchSeps(rest)
  {
    if g.Halves? {
      BranchHead(g.key, g.right, rest);
      Assoc(Leaves(g.left), Leaves(g.right), BranchLeaves(rest));
      Assoc(Seps(g.left) + [g.key], Seps(g.right), BranchSeps(rest));
      Assoc(Seps(g.left), [g.key], Seps(g.right) + BranchSeps(rest));
    }
  }

  lemma {:induction false} FirstShaped<T>(g: Grown<T>, rest: seq<Branch<T>>, h: nat, cap: nat)
    requires GrownShaped(g, h, cap) && BranchesShaped(rest, h, cap)
    ensures g.Halves? ==> BranchesShaped([Branch(g.key, g.right)] + rest, h, cap)
  {
    if g.Halves? {
      BranchInFront(g.key, g.right, rest, h, cap);
    }
  }

  lemma {:induction false} LaterLeaves<T>(first: Node<T>, rest: seq<Branch<T>>, f: Node<T>, more: seq<Branch<T>>,
                                          i: nat, x: seq<nat>, at: nat)
    requires rest != [] && at == |Leaves(first)| + i
    requires i <= |Leaves(rest[0].child) + BranchLeaves(rest[1..])|
    requires Leaves(f) + BranchLeaves(more) == Spliced(Leaves(rest[0].child) + BranchLeaves(rest[1..]), i, x)
    ensures at <= |Leaves(first) + BranchLeaves(rest)|
    ensures Leaves(first) + BranchLeaves([Branch(rest[0].key, f)] + more) ==
        Spliced(Leaves(first) + BranchLeaves(rest), at, x)
  {
    BranchHead(rest[0].key, f, more);
    SplicedBehind(Leaves(first), BranchLeaves(rest), i, x, at, Leaves(f) + BranchLeaves(more));
  }

  lemma {:induction false} LaterSeps<T>(first: Node<T>, rest: seq<Branch<T>>, f: Node<T>, more: seq<Branch<T>>,
                                        i: nat, x: seq<Key<T>>, at: nat)
    requires rest != [] && at == |Seps(first)| + 1 + i
    requires i <= |Seps(rest[0].child) + BranchSeps(rest[1..])|
    requires Seps(f) + BranchSeps(more) == Spliced(Seps(rest[0].child) + BranchSeps(rest[1..]), i, x)
    ensures at <= |Seps(first) + BranchSeps(rest)|
    ensures Seps(first) + BranchSeps([Branch(rest[0].key, f)] + more) == Spliced(Seps(first) + BranchSeps(rest), at, x)
  {
    BranchHead(rest[0].key, f, more);
    SplicedPast(Seps(first), rest[0].key, Seps(rest[0].child) + BranchSeps(rest[1..]), i, x, at,
        Seps(f) + BranchSeps(more));
  }

  // The two flat lists of a node given as a first child and branches.
  datatype Flat<T> = Flat(leaves: seq<nat>, seps: seq<Key<T>>)

  function FlatOf<T>(first: Node<T>, rest: seq<Branch<T>>): Flat<T> {
    Flat(Leaves(first) + BranchLeaves(rest), Seps(first) + BranchSeps(rest))
  }

  // The flat lists with a subtree put in behind leaf c.
  function FlatAfter<T>(flat: Flat<T>, c: nat, key: Key<T>, added: Node<T>): Flat<T> {
    if c < |flat.leaves| && c <= |flat.seps| then
      Flat(Spliced(flat.leaves, c + 1, Leaves(added)), Spliced(flat.seps, c, [key] + Seps(added)))
    else flat
  }

  lemma {:induction false} LaterFlat<T>(first: Node<T>, rest: seq<Branch<T>>, f: Node<T>, more: seq<Branch<T>>, d: nat,
                     key: Key<T>, added: Node<T>, c: nat)
    requires rest != [] && c == |Leaves(first)| + d && |Seps(first)| + 1 == |Leaves(first)|
    requires d < |Leaves(rest[0].child) + BranchLeaves(rest[1..])| && d <= |Seps(rest[0].child) + BranchSeps(rest[1..])|
    requires FlatOf(f, more) == FlatAfter(FlatOf(rest[0].child, rest[1..]), d, key, added)
    ensures FlatOf(first, [Branch(rest[0].key, f)] + more) == FlatAfter(FlatOf(first, rest), c, key, added)
  {
    var u := FlatOf(rest[0].child, rest[1..]);
    assert d < |u.leaves| && d <= |u.seps|;
    assert Leaves(f) + BranchLeaves(more) == Spliced(u.leaves, d + 1, Leaves(added));
    LaterLeaves(first, rest, f, more, d + 1, Leaves(added), c + 1);
    assert Seps(f) + BranchSeps(more) == Spliced(u.seps, d, [key] + Seps(added));
    LaterSeps(first, rest, f, more, d, [key] + Seps(added), c);
  }

  lemma {:induction false} FirstFlat<T>(first: Node<T>, rest: seq<Branch<T>>, g: Grown<T>, c: nat, key: Key<T>,
                                        added: Node<T>)
    requires c < |Leaves(first)| && c <= |Seps(first)|
    requires GrownLeaves(g) == Spliced(Leaves(first), c + 1, Leaves(added))
    requires GrownSeps(g) == Spliced(Seps(first), c, [key] + Seps(added))
    ensures match g
            case Whole(n) => FlatOf(n, rest) == FlatAfter(FlatOf(first, rest), c, key, added)
            case Halves(l, k, r) => FlatOf(l, [Branch(k, r)] + rest) == FlatAfter(FlatOf(first, rest), c, key, added)
  {
    SplicedLeft(Leaves(first), BranchLeaves(rest), c + 1, Leaves(added));
    SplicedLeft(Seps(first), BranchSeps(rest), c, [key] + Seps(added));
    GrownInFront(g, rest);
  }

  lemma {:induction false} GrowBranchesIsSplice<T>(first: Node<T>, rest: seq<Branch<T>>, h: nat, c: nat, stop: nat,
                                                  key: Key<T>, added: Node<T>, cap: nat)
    requires Shaped(first, h, cap) && BranchesShaped(rest, h, cap) && Shaped(added, stop, cap) && stop <= h && cap >= 1
    requires c < |Leaves(first)| + |BranchLeaves(rest)|
    requires stop > 0 ==> c == |Leaves(first)| + |BranchLeaves(rest)| - 1
    ensures var (f, more) := GrowBranches(first, rest, h, c, stop, key, added, cap);
            && FlatOf(f, more) == FlatAfter(FlatOf(first, rest), c, key, added)
            && Shaped(f, h, cap) && BranchesShaped(more, h, cap) && |more| <= |rest| + 1
    decreases Size(first) + Sizes(rest), 1
  {
    OneMoreLeaf(first);
    if rest == [] || c < |Leaves(first)| {
      if rest != [] {
        OneMoreLeaf(rest[0].child);
      }
      var g := GrowAt(first, h, c, stop, key, added, cap);
      GrowIsSplice(first, h, c, stop, key, added, cap);
      FirstFlat(first, rest, g, c, key, added);
      FirstShaped(g, rest, h, cap);
    } else {
      var child, tail := rest[0].child, rest[1..];
      var d := c - |Leaves(first)|;
      OneMoreLeaf(child);
      BranchesMatch(tail);
      GrowLaterUnfolds(first, rest, h, c, stop, key, added, cap);
      GrowBranchesIsSplice(child, tail, h, d, stop, key, added, cap);
      var (f, more) := GrowBranches(child, tail, h, d, stop, key, added, cap);
      LaterFlat(first, rest, f, more, d, key, added, c);
      BranchInFront(rest[0].key, f, more, h, cap);
    }
  }

  lemma {:induction false} GrowLaterUnfolds<T>(first: Node<T>, rest: seq<Branch<T>>, h: nat, c: nat, stop: nat,
                                               key: Key<T>,
                            added: Node<T>, cap: nat)
    requires Shaped(first, h, cap) && BranchesShaped(rest, h, cap) && stop <= h && cap >= 1
    requires rest != [] && |Leaves(first)| <= c
    ensures Shaped(rest[0].child, h, cap) && BranchesShaped(rest[1..], h, cap)
    ensures var (f, more) := GrowBranches(rest[0].child, rest[1..], h, c - |Leaves(first)|, stop, key, added, cap);
            GrowBranches(first, rest, h, c, stop, key, added, cap) == (first, [Branch(rest[0].key, f)] + more)
  {
  }
}
