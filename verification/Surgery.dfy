// Cutting an interior in two between its leaves, as the surgical splits do,
// and what the removal of one-child nodes along the cut then does to the
// depths of the leaves.

module Surgery {
  import opened Wrappers
  import opened Seqs
  import opened SortedEntries
  import opened Interior
  import opened Descent
  import opened Relabel

  lemma {:induction false} PrefixOfConcat<X>(a: seq<X>, b: seq<X>, m: nat)
    requires m <= |a| + |b|
    ensures (a + b)[..m] == if m <= |a| then a[..m] else a + b[..m - |a|]
  {
  }

  lemma {:induction false} SuffixOfConcat<X>(a: seq<X>, b: seq<X>, m: nat)
    requires m <= |a| + |b|
    ensures (a + b)[m..] == if m < |a| then a[m..] + b else b[m - |a|..]
  {
  }

  // --- The way to a leaf -----------------------------------------------------

  // One node on the way to a leaf: the position of the child taken, and the
  // position of the last child.
  datatype Step = Step(pos: nat, last: nat)

  // The child that leaf number c lies under, its position, and the leaf's number there.
  datatype Fork<+T> = Fork(pos: nat, child: Node<T>, c: nat)

  function ForkAt<T>(first: Node<T>, rest: seq<Branch<T>>, c: nat): (f: Fork<T>)
    ensures Size(f.child) <= Size(first) + Sizes(rest) && f.pos <= |rest| && f.c <= c
    decreases |rest|
  {
    if rest == [] || c < |Leaves(first)| then Fork(0, first, c)
    else
      var f := ForkAt(rest[0].child, rest[1..], c - |Leaves(first)|);
      f.(pos := f.pos + 1)
  }

  function Path<T>(n: Node<T>, c: nat): seq<Step>
    decreases Size(n)
  {
    match n
    case LeafAt(_) => []
    case Inner(first, rest) =>
      var f := ForkAt(first, rest, c);
      [Step(f.pos, |rest|)] + Path(f.child, f.c)
  }

  lemma {:induction false} ForkHasLeaf<T>(first: Node<T>, rest: seq<Branch<T>>, c: nat)
    requires c < |Leaves(first)| + |BranchLeaves(rest)|
    ensures var f := ForkAt(first, rest, c);
            && f.c < |Leaves(f.child)|
            && (Leaves(first) + BranchLeaves(rest))[..c] ==
               (Leaves(first) + BranchLeaves(rest))[..c - f.c] + Leaves(f.child)[..f.c]
            && (Leaves(first) + BranchLeaves(rest))[c] == Leaves(f.child)[f.c]
    decreases |rest|
  {
    if !(rest == [] || c < |Leaves(first)|) {
      var d := c - |Leaves(first)|;
      var later := Leaves(rest[0].child) + BranchLeaves(rest[1..]);
      ForkHasLeaf(rest[0].child, rest[1..], d);
      var f := ForkAt(rest[0].child, rest[1..], d);
      PrefixInLater(Leaves(first), later, c, d, f.c, Leaves(f.child)[..f.c]);
    }
  }

  lemma {:induction false} ForkLeaves<T>(first: Node<T>, rest: seq<Branch<T>>, c: nat)
    ensures forall x :: x in Leaves(ForkAt(first, rest, c).child) ==> x in Leaves(first) + BranchLeaves(rest)
    decreases |rest|
  {
    if !(rest == [] || c < |Leaves(first)|) {
      ForkLeaves(rest[0].child, rest[1..], c - |Leaves(first)|);
    }
  }

  lemma {:induction false} PrefixInLater<X>(l: seq<X>, later: seq<X>, c: nat, d: nat, e: nat, sub: seq<X>)
    requires c == |l| + d && e <= d < |later| && later[..d] == later[..d - e] + sub
    ensures (l + later)[..c] == (l + later)[..c - e] + sub
    ensures (l + later)[c] == later[d]
  {
    PrefixOfConcat(l, later, c);
    PrefixOfConcat(l, later, c - e);
    Assoc(l, later[..d - e], sub);
  }

  lemma {:induction false} ForkShaped<T>(first: Node<T>, rest: seq<Branch<T>>, c: nat, h: nat, cap: nat)
    requires Shaped(first, h, cap) && BranchesShaped(rest, h, cap)
    ensures Shaped(ForkAt(first, rest, c).child, h, cap)
    decreases |rest|
  {
    if !(rest == [] || c < |Leaves(first)|) {
      ForkShaped(rest[0].child, rest[1..], c - |Leaves(first)|, h, cap);
    }
  }

  // --- The part in front of a leaf -------------------------------------------

  // What a split keeps on the left of leaf number c, and with `keep` that leaf
  // as well: a node that has lost all its children goes, and one whose last
  // child goes loses the key in front of it.
  function CutLeft<T>(n: Node<T>, c: nat, keep: bool): Option<Node<T>>
    decreases Size(n), 0
  {
    match n
    case LeafAt(_) => if keep then Some(n) else None
    case Inner(first, rest) =>
      match CutLeftIn(first, rest, c, keep)
      case None => None
      case Some(nodes) => Some(Inner(nodes.0, nodes.1))
  }

  function CutLeftIn<T>(first: Node<T>, rest: seq<Branch<T>>, c: nat, keep: bool): Option<(Node<T>, seq<Branch<T>>)>
    decreases Size(first) + Sizes(rest), 1
  {
    if rest == [] || c < |Leaves(first)| then
      match CutLeft(first, c, keep)
      case None => None
      case Some(below) => Some((below, []))
    else
      match CutLeftIn(rest[0].child, rest[1..], c - |Leaves(first)|, keep)
      case None => Some((first, []))
      case Some(nodes) => Some((first, [Branch(rest[0].key, nodes.0)] + nodes.1))
  }

  // The interior over the first m leaves.
  function Take<T>(n: Node<T>, m: nat): Node<T>
    decreases Size(n), 0
  {
    match n
    case LeafAt(_) => n
    case Inner(first, rest) =>
      var (f, more) := TakeIn(first, rest, m);
      Inner(f, more)
  }

  function TakeIn<T>(first: Node<T>, rest: seq<Branch<T>>, m: nat): (Node<T>, seq<Branch<T>>)
    decreases Size(first) + Sizes(rest), 1
  {
    if rest == [] || m <= |Leaves(first)| then (Take(first, m), [])
    else
      var (f, more) := TakeIn(rest[0].child, rest[1..], m - |Leaves(first)|);
      (first, [Branch(rest[0].key, f)] + more)
  }

  lemma {:induction false} TakeAll<T>(n: Node<T>)
    ensures Take(n, |Leaves(n)|) == n
    decreases Size(n), 0
  {
    if n.Inner? {
      TakeAllIn(n.first, n.rest, |Leaves(n)|);
    }
  }

  lemma {:induction false} TakeAllIn<T>(first: Node<T>, rest: seq<Branch<T>>, m: nat)
    requires m == |Leaves(first)| + |BranchLeaves(rest)|
    ensures TakeIn(first, rest, m) == (first, rest)
    decreases Size(first) + Sizes(rest), 1
  {
    if rest == [] {
      TakeAll(first);
    } else {
      OneMoreLeaf(rest[0].child);
      TakeAllIn(rest[0].child, rest[1..], m - |Leaves(first)|);
      assert rest == [Branch(rest[0].key, rest[0].child)] + rest[1..];
    }
  }

  // What the split keeps on the left is the interior over the leaves it keeps.
  lemma {:induction false} CutLeftIsTake<T>(n: Node<T>, c: nat, keep: bool, m: nat)
    requires c < |Leaves(n)| && m == if keep then c + 1 else c
    ensures CutLeft(n, c, keep) == if m == 0 then None else Some(Take(n, m))
    decreases Size(n), 0
  {
    if n.Inner? {
      CutLeftInIsTake(n.first, n.rest, c, keep, m);
    }
  }

  lemma {:induction false} CutLeftInIsTake<T>(first: Node<T>, rest: seq<Branch<T>>, c: nat, keep: bool, m: nat)
    requires c < |Leaves(first)| + |BranchLeaves(rest)| && m == if keep then c + 1 else c
    ensures CutLeftIn(first, rest, c, keep) == if m == 0 then None else Some(TakeIn(first, rest, m))
    decreases Size(first) + Sizes(rest), 1
  {
    OneMoreLeaf(first);
    if rest == [] || c < |Leaves(first)| {
      CutLeftIsTake(first, c, keep, m);
    } else {
      CutLeftInIsTake(rest[0].child, rest[1..], c - |Leaves(first)|, keep, m - |Leaves(first)|);
      if m == |Leaves(first)| {
        TakeAll(first);
      }
    }
  }

  lemma {:induction false} TakeShaped<T>(n: Node<T>, m: nat, h: nat, cap: nat)
    requires Shaped(n, h, cap)
    ensures Shaped(Take(n, m), h, cap)
    decreases Size(n), 0
  {
    if n.Inner? {
      TakeInShaped(n.first, n.rest, m, h - 1, cap);
    }
  }

  lemma {:induction false} TakeInShaped<T>(first: Node<T>, rest: seq<Branch<T>>, m: nat, h: nat, cap: nat)
    requires Shaped(first, h, cap) && BranchesShaped(rest, h, cap)
    ensures var (f, more) := TakeIn(first, rest, m);
            Shaped(f, h, cap) && BranchesShaped(more, h, cap) && |more| <= |rest|
    decreases Size(first) + Sizes(rest), 1
  {
    if rest == [] || m <= |Leaves(first)| {
      TakeShaped(first, m, h, cap);
    } else {
      TakeInShaped(rest[0].child, rest[1..], m - |Leaves(first)|, h, cap);
      var (f, more) := TakeIn(rest[0].child, rest[1..], m - |Leaves(first)|);
      BranchInFront(rest[0].key, f, more, h, cap);
    }
  }

  lemma {:induction false} TakeIsPrefix<T>(n: Node<T>, m: nat)
    requires 1 <= m <= |Leaves(n)|
    ensures |Leaves(n)| == |Seps(n)| + 1
    ensures Leaves(Take(n, m)) == Leaves(n)[..m] && Seps(Take(n, m)) == Seps(n)[..m - 1]
    decreases Size(n), 0
  {
    OneMoreLeaf(n);
    if n.Inner? {
      TakeInIsPrefix(n.first, n.rest, m);
    }
  }

  lemma {:induction false} LaterPrefix<T>(first: Node<T>, rest: seq<Branch<T>>, f: Node<T>, more: seq<Branch<T>>,
                                          d: nat, m: nat)
    requires rest != [] && d >= 1 && m == |Leaves(first)| + d && |Leaves(first)| == |Seps(first)| + 1
    requires var later := FlatOf(rest[0].child, rest[1..]);
             d <= |later.leaves| && d - 1 <= |later.seps| && FlatOf(f, more) ==
                 Flat(later.leaves[..d], later.seps[..d - 1])
    ensures m <= |Leaves(first) + BranchLeaves(rest)| && m - 1 <= |Seps(first) + BranchSeps(rest)|
    ensures FlatOf(first, [Branch(rest[0].key, f)] + more)
         == Flat((Leaves(first) + BranchLeaves(rest))[..m], (Seps(first) + BranchSeps(rest))[..m - 1])
  {
    var key, later := rest[0].key, FlatOf(rest[0].child, rest[1..]);
    BranchHead(key, f, more);
    PrefixOfConcat(Leaves(first), later.leaves, m);
    PrefixOfConcat([key], later.seps, d);
    PrefixOfConcat(Seps(first), [key] + later.seps, m - 1);
  }

  lemma {:induction false} TakeInIsPrefix<T>(first: Node<T>, rest: seq<Branch<T>>, m: nat)
    requires 1 <= m <= |Leaves(first)| + |BranchLeaves(rest)|
    ensures |Seps(first) + BranchSeps(rest)| >= m - 1
    ensures var (f, more) := TakeIn(first, rest, m);
            FlatOf(f, more) == Flat((Leaves(first) + BranchLeaves(rest))[..m],
                (Seps(first) + BranchSeps(rest))[..m - 1])
    decreases Size(first) + Sizes(rest), 1
  {
    OneMoreLeaf(first);
    BranchesMatch(rest);
    PrefixOfConcat(Leaves(first), BranchLeaves(rest), m);
    PrefixOfConcat(Seps(first), BranchSeps(rest), m - 1);
    if rest == [] || m <= |Leaves(first)| {
      TakeIsPrefix(first, m);
      NothingBehind(Leaves(first)[..m]);
      NothingBehind(Seps(first)[..m - 1]);
    } else {
      var child, tail, d := rest[0].child, rest[1..], m - |Leaves(first)|;
      TakeInIsPrefix(child, tail, d);
      var (f, more) := TakeIn(child, tail, d);
      LaterPrefix(first, rest, f, more, d, m);
    }
  }

  // --- The part from a leaf on -----------------------------------------------

  // What a split has on the right: leaf number c and all behind it.
  function CutRight<T>(n: Node<T>, c: nat): Node<T>
    decreases Size(n), 0
  {
    match n
    case LeafAt(_) => n
    case Inner(first, rest) =>
      var (f, more) := CutRightIn(first, rest, c);
      Inner(f, more)
  }

  function CutRightIn<T>(first: Node<T>, rest: seq<Branch<T>>, c: nat): (Node<T>, seq<Branch<T>>)
    decreases Size(first) + Sizes(rest), 1
  {
    if rest == [] || c < |Leaves(first)| then (CutRight(first, c), rest)
    else CutRightIn(rest[0].child, rest[1..], c - |Leaves(first)|)
  }

  lemma {:induction false} CutRightShaped<T>(n: Node<T>, c: nat, h: nat, cap: nat)
    requires Shaped(n, h, cap)
    ensures Shaped(CutRight(n, c), h, cap)
    decreases Size(n), 0
  {
    if n.Inner? {
      CutRightInShaped(n.first, n.rest, c, h - 1, cap);
    }
  }

  lemma {:induction false} CutRightInShaped<T>(first: Node<T>, rest: seq<Branch<T>>, c: nat, h: nat, cap: nat)
    requires Shaped(first, h, cap) && BranchesShaped(rest, h, cap)
    ensures var (f, more) := CutRightIn(first, rest, c);
            Shaped(f, h, cap) && BranchesShaped(more, h, cap) && |more| <= |rest|
    decreases Size(first) + Sizes(rest), 1
  {
    if rest == [] || c < |Leaves(first)| {
      CutRightShaped(first, c, h, cap);
    } else {
      CutRightInShaped(rest[0].child, rest[1..], c - |Leaves(first)|, h, cap);
    }
  }

  lemma {:induction false} CutRightIsSuffix<T>(n: Node<T>, c: nat)
    requires c < |Leaves(n)|
    ensures |Leaves(n)| == |Seps(n)| + 1
    ensures Leaves(CutRight(n, c)) == Leaves(n)[c..] && Seps(CutRight(n, c)) == Seps(n)[c..]
    decreases Size(n), 0
  {
    OneMoreLeaf(n);
    if n.Inner? {
      CutRightInIsSuffix(n.first, n.rest, c);
    }
  }

  lemma {:induction false} LaterSuffix<T>(first: Node<T>, rest: seq<Branch<T>>, d: nat, c: nat)
    requires rest != [] && c == |Leaves(first)| + d && |Leaves(first)| == |Seps(first)| + 1
    requires d <= |FlatOf(rest[0].child, rest[1..]).leaves| && d <= |FlatOf(rest[0].child, rest[1..]).seps|
    ensures c <= |Leaves(first) + BranchLeaves(rest)| && c <= |Seps(first) + BranchSeps(rest)|
    ensures (Leaves(first) + BranchLeaves(rest))[c..] == FlatOf(rest[0].child, rest[1..]).leaves[d..]
    ensures (Seps(first) + BranchSeps(rest))[c..] == FlatOf(rest[0].child, rest[1..]).seps[d..]
  {
    var key, later := rest[0].key, FlatOf(rest[0].child, rest[1..]);
    SuffixOfConcat(Leaves(first), later.leaves, c);
    SuffixOfConcat([key], later.seps, d + 1);
    SuffixOfConcat(Seps(first), [key] + later.seps, c);
  }

  lemma {:induction false} CutRightInIsSuffix<T>(first: Node<T>, rest: seq<Branch<T>>, c: nat)
    requires c < |Leaves(first)| + |BranchLeaves(rest)|
    ensures |Seps(first) + BranchSeps(rest)| >= c
    ensures var (f, more) := CutRightIn(first, rest, c);
            FlatOf(f, more) == Flat((Leaves(first) + BranchLeaves(rest))[c..], (Seps(first) + BranchSeps(rest))[c..])
    decreases Size(first) + Sizes(rest), 1
  {
    OneMoreLeaf(first);
    BranchesMatch(rest);
    if rest == [] || c < |Leaves(first)| {
      SuffixOfConcat(Leaves(first), BranchLeaves(rest), c);
      SuffixOfConcat(Seps(first), BranchSeps(rest), c);
      CutRightIsSuffix(first, c);
    } else {
      var child, tail, d := rest[0].child, rest[1..], c - |Leaves(first)|;
      CutRightInIsSuffix(child, tail, d);
      LaterSuffix(first, rest, d, c);
    }
  }

  // --- Taking one-child nodes out along an edge ------------------------------

  function CollapseLeft<T>(n: Node<T>): Node<T>
    decreases Size(n)
  {
    match n
    case LeafAt(_) => n
    case Inner(first, rest) => if rest == [] then CollapseLeft(first) else Inner(CollapseLeft(first), rest)
  }

  function CollapseRight<T>(n: Node<T>): Node<T>
    decreases Size(n), 0
  {
    match n
    case LeafAt(_) => n
    case Inner(first, rest) => if rest == [] then CollapseRight(first) else Inner(first, CollapseLast(rest))
  }

  function CollapseLast<T>(rest: seq<Branch<T>>): (more: seq<Branch<T>>)
    requires rest != []
    ensures |more| == |rest|
    decreases Sizes(rest), 1
  {
    if |rest| == 1 then [Branch(rest[0].key, CollapseRight(rest[0].child))]
    else [rest[0]] + CollapseLast(rest[1..])
  }

  lemma {:induction false} CollapseLeftIsFlat<T>(n: Node<T>)
    ensures Leaves(CollapseLeft(n)) == Leaves(n) && Seps(CollapseLeft(n)) == Seps(n)
    decreases Size(n)
  {
    if n.Inner? {
      CollapseLeftIsFlat(n.first);
      if n.rest == [] {
        NothingBehind(Leaves(n.first));
        NothingBehind(Seps(n.first));
      }
    }
  }

  lemma {:induction false} CollapseRightIsFlat<T>(n: Node<T>)
    ensures Leaves(CollapseRight(n)) == Leaves(n) && Seps(CollapseRight(n)) == Seps(n)
    decreases Size(n), 0
  {
    if n.Inner? {
      if n.rest == [] {
        CollapseRightIsFlat(n.first);
        NothingBehind(Leaves(n.first));
        NothingBehind(Seps(n.first));
      } else {
        CollapseLastIsFlat(n.rest);
      }
    }
  }

  lemma {:induction false} CollapseLastIsFlat<T>(rest: seq<Branch<T>>)
    requires rest != []
    ensures BranchLeaves(CollapseLast(rest)) == BranchLeaves(rest) && BranchSeps(CollapseLast(rest)) == BranchSeps(rest)
    decreases Sizes(rest), 1
  {
    if |rest| == 1 {
      CollapseRightIsFlat(rest[0].child);
      NoBranchesBehind(rest[0].key, CollapseRight(rest[0].child));
      NoBranchesBehind(rest[0].key, rest[0].child);
      assert rest == [Branch(rest[0].key, rest[0].child)];
    } else {
      CollapseLastIsFlat(rest[1..]);
      BranchHead(rest[0].key, rest[0].child, CollapseLast(rest[1..]));
    }
  }

  lemma {:induction false} NoBranchesBehind<T>(key: Key<T>, child: Node<T>)
    ensures BranchLeaves([Branch(key, child)]) == Leaves(child)
    ensures BranchSeps([Branch(key, child)]) == [key] + Seps(child)
  {
    BranchHead(key, child, []);
    NothingBehind([Branch(key, child)]);
    NothingBehind(Leaves(child));
    NothingBehind(Seps(child));
  }

  // --- Depths ----------------------------------------------------------------

  // How the program measures a tree: down along the first children.
  function LeftDepth<T>(n: Node<T>): nat {
    match n
    case LeafAt(_) => 0
    case Inner(first, _) => 1 + LeftDepth(first)
  }

  function RightDepth<T>(n: Node<T>): nat
    decreases Size(n)
  {
    match n
    case LeafAt(_) => 0
    case Inner(first, rest) => 1 + RightDepth(LastChild(first, rest))
  }

  // A descent of h levels: it ends in a leaf, or in the wrong kind of node.
  function Descend<T>(n: Node<T>, h: nat, r: int, tall: bool): Option<nat>
    decreases h
  {
    match n
    case LeafAt(i) => if h == 0 then Some(i) else None
    case Inner(first, rest) => if h == 0 then None else Descend(ChildBy(first, rest, r, tall), h - 1, r, tall)
  }

  lemma {:induction false} ShapedDepths<T>(n: Node<T>, h: nat, cap: nat)
    requires Shaped(n, h, cap)
    ensures LeftDepth(n) == h && RightDepth(n) == h
    decreases h
  {
    if n.Inner? {
      ShapedDepths(n.first, h - 1, cap);
      LastShaped(n.first, n.rest, h - 1, cap);
      ShapedDepths(LastChild(n.first, n.rest), h - 1, cap);
    }
  }

  lemma {:induction false} LastShaped<T>(first: Node<T>, rest: seq<Branch<T>>, h: nat, cap: nat)
    requires Shaped(first, h, cap) && BranchesShaped(rest, h, cap)
    ensures Shaped(LastChild(first, rest), h, cap)
    decreases |rest|
  {
    if rest != [] {
      LastShaped(rest[0].child, rest[1..], h, cap);
    }
  }

  // When all leaves lie at depth h, a descent of h levels ends where it should.
  lemma {:induction false} ShapedDescends<T>(n: Node<T>, h: nat, cap: nat, r: int, tall: bool)
    requires Shaped(n, h, cap)
    ensures Descend(n, h, r, tall) == Some(RouteBy(n, r, tall))
    decreases h
  {
    if n.Inner? {
      ChildByShaped(n.first, n.rest, h - 1, cap, r, tall);
      ShapedDescends(ChildBy(n.first, n.rest, r, tall), h - 1, cap, r, tall);
    }
  }

  // A rank above all separators goes down the right edge, and ends in a leaf
  // only if that is as deep as the descent.
  lemma {:induction false} HighDescent<T>(n: Node<T>, h: nat, r: int, tall: bool)
    requires forall k :: k in Seps(n) ==> k.rank < r
    ensures Descend(n, h, r, tall).Some? <==> h == RightDepth(n)
    decreases Size(n)
  {
    if n.Inner? && h > 0 {
      HighChild(n.first, n.rest, r);
      HighChosen(n.first, n.rest, r, tall);
      HighDescent(LastChild(n.first, n.rest), h - 1, r, tall);
    }
  }

  lemma {:induction false} HighChild<T>(first: Node<T>, rest: seq<Branch<T>>, r: int)
    requires forall k :: k in Seps(first) + BranchSeps(rest) ==> k.rank < r
    ensures ChildAt(first, rest, |rest|) == LastChild(first, rest)
    ensures forall i :: 0 <= i < |rest| ==> rest[i].key.rank < r
    ensures forall k :: k in Seps(LastChild(first, rest)) ==> k.rank < r
    decreases |rest|
  {
    if rest != [] {
      var tail := rest[1..];
      assert BranchSeps(rest)[0] == rest[0].key;
      assert rest[0].key in BranchSeps(rest);
      HighChild(rest[0].child, tail, r);
      assert forall i :: 1 <= i < |rest| ==> rest[i] == tail[i - 1];
    }
  }

  lemma {:induction false} HighChosen<T>(first: Node<T>, rest: seq<Branch<T>>, r: int, tall: bool)
    requires forall i :: 0 <= i < |rest| ==> rest[i].key.rank < r
    ensures ChildBy(first, rest, r, tall) == ChildAt(first, rest, |rest|)
  {
    var keys := NodeKeys(rest);
    ChildForIsBelow(first, rest, r);
    BelowAll(keys, r);
    if keys != [] {
      BisectAll(keys, 0, |keys|, r);
    }
  }

  lemma {:induction false} RelabelledDepths<T>(n: Node<T>, ids: seq<nat>)
    requires |ids| == |Leaves(n)|
    ensures LeftDepth(Relabelled(n, ids)) == LeftDepth(n) && RightDepth(Relabelled(n, ids)) == RightDepth(n)
    decreases Size(n)
  {
    if n.Inner? {
      var k := |Leaves(n.first)|;
      RelabelledDepths(n.first, ids[..k]);
      var more := RelabelledLast(n.first, n.rest, ids[..k], ids[k..]);
      RelabelledDepths(LastChild(n.first, n.rest), more);
    }
  }

  lemma {:induction false} RelabelledLast<T>(first: Node<T>, rest: seq<Branch<T>>, a: seq<nat>,
                                             b: seq<nat>) returns (ids: seq<nat>)
    requires |a| == |Leaves(first)| && |b| == |BranchLeaves(rest)|
    ensures |ids| == |Leaves(LastChild(first, rest))|
    ensures LastChild(Relabelled(first, a), RelabelledBranches(rest, b)) == Relabelled(LastChild(first, rest), ids)
    decreases |rest|
  {
    if rest == [] {
      ids := a;
    } else {
      var child, tail, k := rest[0].child, rest[1..], |Leaves(rest[0].child)|;
      ids := RelabelledLast(child, tail, b[..k], b[k..]);
      var head, more := Branch(rest[0].key, Relabelled(child, b[..k])), RelabelledBranches(tail, b[k..]);
      TailOfConcat([head], more);
      NothingBefore([head][1..], more);
    }
  }

  // --- When the cut leaves all leaves at one depth ----------------------------

  predicate NeverFirst(path: seq<Step>) {
    path == [] || (path[0].pos > 0 && NeverFirst(path[1..]))
  }

  // Once the way has turned off the first children it never takes one again.
  predicate FirstsComeFirst(path: seq<Step>) {
    path == [] || if path[0].pos == 0 then FirstsComeFirst(path[1..]) else NeverFirst(path[1..])
  }

  predicate NeverLast(path: seq<Step>) {
    path == [] || (path[0].pos < path[0].last && NeverLast(path[1..]))
  }

  // Once the way has turned off the last children it never takes one again.
  predicate LastsComeFirst(path: seq<Step>) {
    path == [] || if path[0].pos == path[0].last then LastsComeFirst(path[1..]) else NeverLast(path[1..])
  }

  // The right edge of the first m leaves runs along the way to the last of them.
  lemma {:induction false} TakeEdge<T>(first: Node<T>, rest: seq<Branch<T>>, c: nat, m: nat)
    requires m == c + 1
    ensures var f, nodes := ForkAt(first, rest, c), TakeIn(first, rest, m);
            |nodes.1| == f.pos && LastChild(nodes.0, nodes.1) == Take(f.child, f.c + 1)
    decreases |rest|
  {
    if !(rest == [] || m <= |Leaves(first)|) {
      var child, tail := rest[0].child, rest[1..];
      var d, n := c - |Leaves(first)|, m - |Leaves(first)|;
      TakeEdge(child, tail, d, n);
      var (f, more) := TakeIn(child, tail, n);
      assert TakeIn(first, rest, m) == (first, [Branch(rest[0].key, f)] + more);
      TailOfConcat([Branch(rest[0].key, f)], more);
      NothingBefore([Branch(rest[0].key, f)][1..], more);
    }
  }

  lemma {:induction false} CutEdge<T>(first: Node<T>, rest: seq<Branch<T>>, c: nat)
    ensures var f, nodes := ForkAt(first, rest, c), CutRightIn(first, rest, c);
            nodes.0 == CutRight(f.child, f.c) && |nodes.1| == |rest| - f.pos
    decreases |rest|
  {
    if !(rest == [] || c < |Leaves(first)|) {
      CutEdge(rest[0].child, rest[1..], c - |Leaves(first)|);
    }
  }

  lemma {:induction false} CollapseLastChild<T>(first: Node<T>, rest: seq<Branch<T>>, h: nat, cap: nat)
    requires rest != [] && BranchesShaped(rest, h, cap)
    ensures LastChild(first, CollapseLast(rest)) == CollapseRight(LastChild(first, rest))
    ensures Shaped(CollapseRight(LastChild(first, rest)), h, cap) ==> BranchesShaped(CollapseLast(rest), h, cap)
    decreases |rest|
  {
    if |rest| > 1 {
      CollapseLastChild(rest[0].child, rest[1..], h, cap);
      TailOfConcat([rest[0]], CollapseLast(rest[1..]));
      NothingBefore([rest[0]][1..], CollapseLast(rest[1..]));
    }
  }

  // A node after the collapse of its right edge: gone if it had one child, and
  // otherwise as high as its other children make it.
  lemma {:induction false} CollapsedRightNode<T>(first: Node<T>, rest: seq<Branch<T>>, h: nat, cap: nat)
    requires Shaped(first, h, cap) && BranchesShaped(rest, h, cap) && |rest| <= cap
    ensures var k, edge := CollapseRight(Inner(first, rest)), CollapseRight(LastChild(first, rest));
            if rest == [] then k == edge
            else RightDepth(k) == 1 + RightDepth(edge) && LeftDepth(k) == h + 1 && (Shaped(edge, h, cap) ==>
                Shaped(k, h + 1, cap))
  {
    if rest != [] {
      CollapseLastChild(first, rest, h, cap);
      ShapedDepths(first, h, cap);
    }
  }

  lemma {:induction false} CollapsedLeftNode<T>(first: Node<T>, rest: seq<Branch<T>>, h: nat, cap: nat)
    requires Shaped(first, h, cap) && BranchesShaped(rest, h, cap) && |rest| <= cap
    ensures var k, edge := CollapseLeft(Inner(first, rest)), CollapseLeft(first);
            if rest == [] then k == edge
            else LeftDepth(k) == 1 + LeftDepth(edge) && RightDepth(k) == h + 1 && (Shaped(edge, h, cap) ==>
                Shaped(k, h + 1, cap))
  {
    if rest != [] {
      LastShaped(first, rest, h, cap);
      LastIsLater(first, CollapseLeft(first), rest);
      ShapedDepths(LastChild(first, rest), h, cap);
    }
  }

  lemma {:induction false} LastIsLater<T>(first: Node<T>, other: Node<T>, rest: seq<Branch<T>>)
    requires rest != []
    ensures LastChild(first, rest) == LastChild(other, rest)
  {
  }

  // The first m leaves under a node: what its right edge becomes is up to the
  // child that the way to the last of them takes.
  lemma {:induction false} TakenNode<T>(n: Node<T>, c: nat, m: nat, h: nat, cap: nat, f: Fork<T>, d: nat, k: Node<T>,
                                        edge: Node<T>)
    requires n.Inner? && Shaped(n, h, cap) && m == c + 1 <= |Leaves(n)|
    requires f == ForkAt(n.first, n.rest, c) && d == f.c + 1
    requires k == CollapseRight(Take(n, m)) && edge == CollapseRight(Take(f.child, d))
    ensures d <= |Leaves(f.child)| && Shaped(f.child, h - 1, cap)
    ensures f.pos == 0 ==> k == edge
    ensures f.pos > 0 ==> RightDepth(k) == 1 + RightDepth(edge) && LeftDepth(k) == h
    ensures f.pos > 0 && Shaped(edge, h - 1, cap) ==> Shaped(k, h, cap)
  {
    var first, rest := n.first, n.rest;
    var nodes := TakeIn(first, rest, m);
    TakeInShaped(first, rest, m, h - 1, cap);
    TakeEdge(first, rest, c, m);
    ForkHasLeaf(first, rest, c);
    ForkShaped(first, rest, c, h - 1, cap);
    CollapsedRightNode(nodes.0, nodes.1, h - 1, cap);
  }

  lemma {:induction false} CutNode<T>(first: Node<T>, rest: seq<Branch<T>>, c: nat, h: nat, cap: nat)
    requires c < |Leaves(first)| + |BranchLeaves(rest)| && |rest| <= cap
    requires Shaped(first, h, cap) && BranchesShaped(rest, h, cap)
    ensures var f := ForkAt(first, rest, c);
            var k, edge := CollapseLeft(CutRight(Inner(first, rest), c)), CollapseLeft(CutRight(f.child, f.c));
            && f.c < |Leaves(f.child)| && Shaped(f.child, h, cap)
            && if f.pos == |rest| then k == edge
               else LeftDepth(k) == 1 + LeftDepth(edge) && RightDepth(k) == h + 1 && (Shaped(edge, h, cap) ==>
                   Shaped(k, h + 1, cap))
  {
    var nodes := CutRightIn(first, rest, c);
    CutRightInShaped(first, rest, c, h, cap);
    CutEdge(first, rest, c);
    ForkHasLeaf(first, rest, c);
    ForkShaped(first, rest, c, h, cap);
    CollapsedLeftNode(nodes.0, nodes.1, h, cap);
  }

  lemma {:induction false} PathUnfolds<T>(first: Node<T>, rest: seq<Branch<T>>, c: nat)
    ensures var f, path := ForkAt(first, rest, c), Path(Inner(first, rest), c);
            path != [] && path[0] == Step(f.pos, |rest|) && path[1..] == Path(f.child, f.c)
  {
  }

  // The right edge of the left part after the collapse: as deep as before if no
  // node on it had one child only, and less deep otherwise.
  lemma {:induction false} RightEdge<T>(n: Node<T>, c: nat, m: nat, h: nat, cap: nat, k: Node<T>)
    requires m == c + 1 <= |Leaves(n)| && Shaped(n, h, cap) && k == CollapseRight(Take(n, m))
    ensures RightDepth(k) <= h
    ensures NeverFirst(Path(n, c)) <==> RightDepth(k) == h
    ensures RightDepth(k) == h ==> Shaped(k, h, cap)
    decreases h
  {
    if n.Inner? {
      var f := ForkAt(n.first, n.rest, c);
      var d := f.c + 1;
      var edge := CollapseRight(Take(f.child, d));
      TakenNode(n, c, m, h, cap, f, d, k, edge);
      PathUnfolds(n.first, n.rest, c);
      RightEdge(f.child, f.c, d, h - 1, cap, edge);
    }
  }

  // The left part has all its leaves at one depth exactly when its right edge
  // is as deep as its left one, and that is a matter of the way to its last leaf.
  lemma {:induction false} LeftPartDepths<T>(n: Node<T>, c: nat, m: nat, h: nat, cap: nat, k: Node<T>)
    requires m == c + 1 <= |Leaves(n)| && Shaped(n, h, cap) && k == CollapseRight(Take(n, m))
    ensures RightDepth(k) == LeftDepth(k) <==> FirstsComeFirst(Path(n, c))
    ensures RightDepth(k) == LeftDepth(k) <==> Shaped(k, LeftDepth(k), cap)
    decreases h
  {
    if n.Inner? {
      var f := ForkAt(n.first, n.rest, c);
      var d := f.c + 1;
      var edge := CollapseRight(Take(f.child, d));
      TakenNode(n, c, m, h, cap, f, d, k, edge);
      PathUnfolds(n.first, n.rest, c);
      if f.pos == 0 {
        LeftPartDepths(f.child, f.c, d, h - 1, cap, edge);
      } else {
        RightEdge(f.child, f.c, d, h - 1, cap, edge);
        LevelDepths(k, cap);
      }
    }
  }

  lemma {:induction false} LevelDepths<T>(k: Node<T>, cap: nat)
    ensures Shaped(k, LeftDepth(k), cap) ==> RightDepth(k) == LeftDepth(k)
  {
    if Shaped(k, LeftDepth(k), cap) {
      ShapedDepths(k, LeftDepth(k), cap);
    }
  }

  lemma {:induction false} LeftEdge<T>(n: Node<T>, c: nat, h: nat, cap: nat, k: Node<T>)
    requires c < |Leaves(n)| && Shaped(n, h, cap) && k == CollapseLeft(CutRight(n, c))
    ensures LeftDepth(k) <= h
    ensures NeverLast(Path(n, c)) <==> LeftDepth(k) == h
    ensures LeftDepth(k) == h ==> Shaped(k, h, cap)
    decreases h
  {
    if n.Inner? {
      var f := ForkAt(n.first, n.rest, c);
      var edge := CollapseLeft(CutRight(f.child, f.c));
      CutNode(n.first, n.rest, c, h - 1, cap);
      PathUnfolds(n.first, n.rest, c);
      LeftEdge(f.child, f.c, h - 1, cap, edge);
    }
  }

  // The right part, likewise, by the way to its first leaf.
  lemma {:induction false} RightPartDepths<T>(n: Node<T>, c: nat, h: nat, cap: nat, k: Node<T>)
    requires c < |Leaves(n)| && Shaped(n, h, cap) && k == CollapseLeft(CutRight(n, c))
    ensures RightDepth(k) == LeftDepth(k) <==> LastsComeFirst(Path(n, c))
    ensures RightDepth(k) == LeftDepth(k) <==> Shaped(k, LeftDepth(k), cap)
    decreases h
  {
    if n.Inner? {
      var f := ForkAt(n.first, n.rest, c);
      var edge := CollapseLeft(CutRight(f.child, f.c));
      CutNode(n.first, n.rest, c, h - 1, cap);
      PathUnfolds(n.first, n.rest, c);
      if f.pos == |n.rest| {
        RightPartDepths(f.child, f.c, h - 1, cap, edge);
      } else {
        LeftEdge(f.child, f.c, h - 1, cap, edge);
        LevelDepths(k, cap);
      }
    }
  }
}
