// The B-tree map as a backend of the adaptive map: as long as its tree is
// searchable it keeps a finite map, by the contract that every backend is taken
// by, and what the adaptive map does to it without removing leaves it searchable.

module BTreeBackend {
  import opened Wrappers
  import opened Seqs
  import opened SortedEntries
  import opened LeafChain
  import Drains
  import TreeInsert
  import opened Raw = RawBTree
  import OptiMap

  // The map that an ordered run of entries stands for.
  function AsMap<T, V>(s: seq<Entry<T, V>>): map<int, V> {
    if s == [] then map[] else AsMap(s[1..])[s[0].key.rank := s[0].val]
  }

  lemma {:induction false} AsMapAnswers<T, V>(s: seq<Entry<T, V>>, r: int)
    requires Ascending(s)
    ensures OptiMap.At(AsMap(s), r) == ValueOf(s, r)
  {
    if s != [] {
      AsMapAnswers(s[1..], r);
    }
  }

  lemma {:induction false} SameAnswers<V(!new)>(a: map<int, V>, b: map<int, V>)
    requires forall r :: OptiMap.At(a, r) == OptiMap.At(b, r)
    ensures a == b
  {
    forall r | r in a ensures r in b && a[r] == b[r] {
      assert OptiMap.At(a, r) == OptiMap.At(b, r);
    }
    forall r | r in b ensures r in a {
      assert OptiMap.At(a, r) == OptiMap.At(b, r);
    }
  }

  lemma {:induction false} InsertIsUpdate<T(!new), V(!new)>(s: seq<Entry<T, V>>, e: Entry<T, V>)
    requires Ascending(s)
    ensures AsMap(Insert(s, e)) == AsMap(s)[e.key.rank := e.val]
  {
    InsertKeepsOrder(s, e);
    forall r ensures OptiMap.At(AsMap(Insert(s, e)), r) == OptiMap.At(AsMap(s)[e.key.rank := e.val], r) {
      InsertLookup(s, e, r);
      AsMapAnswers(Insert(s, e), r);
      AsMapAnswers(s, r);
    }
    SameAnswers(AsMap(Insert(s, e)), AsMap(s)[e.key.rank := e.val]);
  }

  // The entries as they come out of a drain.
  function Pairs<T, V>(s: seq<Entry<T, V>>): (pairs: seq<(int, V)>)
    ensures |pairs| == |s|
  {
    seq(|s|, i requires 0 <= i < |s| => (s[i].key.rank, s[i].val))
  }

  lemma {:induction false} PairsAreListed<T(!new), V(!new)>(s: seq<Entry<T, V>>)
    requires Ascending(s)
    ensures OptiMap.Listed(Pairs(s)) == AsMap(s) && |AsMap(s)| == |s|
  {
    forall r ensures OptiMap.At(OptiMap.Listed(Pairs(s)), r) == OptiMap.At(AsMap(s), r) {
      ListedAnswers(s, r);
      AsMapAnswers(s, r);
    }
    SameAnswers(OptiMap.Listed(Pairs(s)), AsMap(s));
    AsMapSize(s);
  }

  lemma {:induction false} ListedAnswers<T, V>(s: seq<Entry<T, V>>, r: int)
    requires Ascending(s)
    ensures OptiMap.At(OptiMap.Listed(Pairs(s)), r) == ValueOf(s, r)
  {
    if s != [] {
      var n := |s| - 1;
      var front, last := s[..n], s[n];
      assert s == front + [last] && Pairs(s)[..n] == Pairs(front);
      ListedAnswers(front, r);
      LookupInConcat(front, [last], r);
      LookupFindsRank(front, r);
    }
  }

  lemma {:induction false} AsMapSize<T, V>(s: seq<Entry<T, V>>)
    requires Ascending(s)
    ensures |AsMap(s)| == |s|
  {
    if s != [] {
      AsMapSize(s[1..]);
      AsMapAnswers(s[1..], s[0].key.rank);
      BelowAllMissing(s[1..], s[0].key.rank);
    }
  }

  class BTreeBackend<V(!new)> {
    var tree: RawBTree<(), V>

    ghost predicate Valid()
      reads this, tree
    {
      tree.Searchable()
    }

    ghost function Entries(): map<int, V>
      reads this, tree
    {
      AsMap(tree.Contents())
    }

    constructor (leafCap: nat, innerCap: nat)
      requires leafCap >= 1 && innerCap >= 2
      ensures Valid() && Entries() == map[] && fresh(tree)
    {
      tree := new RawBTree(leafCap, innerCap);
    }

    method Insert(k: int, v: V) returns (prev: Option<V>)
      requires Valid()
      modifies tree
      ensures Valid() && Entries() == old(Entries())[k := v] && prev == OptiMap.At(old(Entries()), k)
    {
      InsertIsUpdate(tree.Contents(), Slot(Key(k, ()), v));
      AsMapAnswers(tree.Contents(), k);
      prev := TreeInsert.Insert(tree, Slot(Key(k, ()), v));
    }

    method Get(k: int) returns (v: Option<V>)
      requires Valid()
      ensures v == OptiMap.At(Entries(), k)
    {
      AsMapAnswers(tree.Contents(), k);
      tree.SearchableFinds(k);
      var at := tree.Search(k);
      if at == None {
        return None;
      }
      var (c, i) := at.value;
      v := Some(tree.arena[c].slots[i].val);
    }

    method Clear()
      requires Valid()
      modifies tree
      ensures Valid() && Entries() == map[]
    {
      tree.Clear();
    }

    // Moves the entries out.
    method Drain() returns (pairs: seq<(int, V)>)
      requires Valid()
      modifies tree
      ensures Valid() && Entries() == map[]
      ensures OptiMap.Listed(pairs) == old(Entries()) && |pairs| == |old(Entries())|
    {
      PairsAreListed(tree.Contents());
      var run := Drains.DrainAll(tree);
      pairs := Pairs(run);
    }

    // Rebuilds the tree from its entries.
    method ShrinkToFit()
      requires Valid()
      modifies this, tree
      ensures Valid() && Entries() == old(Entries())
      ensures tree == old(tree) || fresh(tree)
    {
      var leafCap, innerCap := tree.leafCap, tree.innerCap;
      var run := Drains.DrainAll(tree);
      tree := RawBTree<(), V>.BulkLoad(run, leafCap, innerCap);
    }
  }

  method Do<V(!new)>(b: BTreeBackend<V>, op: OptiMap.Op<int, V>) returns (answer: Option<V>)
    requires b.Valid() && !op.Remove?
    modifies b, b.tree
    ensures b.Valid() && (b.Entries(), answer) == OptiMap.Effect(old(b.Entries()), op)
    ensures b.tree == old(b.tree) || fresh(b.tree)
  {
    answer := None;
    match op {
      case Insert(k, v) => answer := b.Insert(k, v);
      case Get(k) => answer := b.Get(k);
      case Reserve(_) =>
      case Shrink => b.ShrinkToFit();
      case Clear => b.Clear();
    }
  }

  // Through any run of operations other than removals the tree stays searchable
  // and answers like a plain map.
  method RunAll<V(!new)>(b: BTreeBackend<V>, ops: seq<OptiMap.Op<int, V>>) returns (answers: seq<Option<V>>)
    requires b.Valid() && forall op :: op in ops ==> !op.Remove?
    modifies b, b.tree
    ensures b.Valid() && (b.Entries(), answers) == OptiMap.Replay(old(b.Entries()), ops)
  {
    answers := [];
    for i := 0 to |ops|
      invariant b.Valid() && (b.Entries(), answers) == OptiMap.Replay(old(b.Entries()), ops[..i])
      invariant b.tree == old(b.tree) || fresh(b.tree)
    {
      assert ops[..i + 1][..i] == ops[..i];
      var answer := Do(b, ops[i]);
      answers := answers + [answer];
    }
    assert ops[..|ops|] == ops;
  }
}
