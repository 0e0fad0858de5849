// Entries in key order, and the finite map they stand for.  A key is compared
// by its rank alone: two keys of equal rank are equal to `Ord` and may still
// differ in `rest`.

module SortedEntries {
  import opened Seqs
  import opened Wrappers
  import opened LeafChain

  datatype Key<+T> = Key(rank: int, rest: T)

  type Entry<T, V> = Slot<Key<T>, V>

  type LeafOf<T, V> = Leaf<Key<T>, V>

  predicate Ascending<T, V>(s: seq<Entry<T, V>>) {
    forall i, j :: 0 <= i < j < |s| ==> s[i].key.rank < s[j].key.rank
  }

  // Every rank of a is below every rank of b.
  predicate AllBelow<T, V>(a: seq<Entry<T, V>>, b: seq<Entry<T, V>>) {
    forall i, j :: 0 <= i < |a| && 0 <= j < |b| ==> a[i].key.rank < b[j].key.rank
  }

  // The entry stored under a rank: the map a sequence stands for.
  function Lookup<T, V>(s: seq<Entry<T, V>>, r: int): Option<Entry<T, V>> {
    if s == [] then None
    else if s[0].key.rank == r then Some(s[0])
    else Lookup(s[1..], r)
  }

  function ValueOf<T, V>(s: seq<Entry<T, V>>, r: int): Option<V> {
    match Lookup(s, r)
    case Some(e) => Some(e.val)
    case None => None
  }

  lemma {:induction false} LookupFindsRank<T, V>(s: seq<Entry<T, V>>, r: int)
    ensures Lookup(s, r).Some? ==> Lookup(s, r).value in s && Lookup(s, r).value.key.rank == r
    ensures Lookup(s, r).None? ==> forall i :: 0 <= i < |s| ==> s[i].key.rank != r
  {
    if s != [] && s[0].key.rank != r {
      LookupFindsRank(s[1..], r);
      if Lookup(s, r).None? {
        forall i | 0 <= i < |s| ensures s[i].key.rank != r {
          if i > 0 {
            assert s[i] == s[1..][i - 1];
          }
        }
      }
    }
  }

  lemma {:induction false} LookupAt<T, V>(s: seq<Entry<T, V>>, i: nat)
    requires Ascending(s) && i < |s|
    ensures Lookup(s, s[i].key.rank) == Some(s[i])
  {
    if i > 0 {
      assert s[0].key.rank < s[i].key.rank;
      LookupAt(s[1..], i - 1);
    }
  }

  lemma {:induction false} LookupInConcat<T, V>(a: seq<Entry<T, V>>, b: seq<Entry<T, V>>, r: int)
    ensures Lookup(a + b, r) == if Lookup(a, r).Some? then Lookup(a, r) else Lookup(b, r)
  {
    if a == [] {
      assert a + b == b;
    } else {
      assert (a + b)[1..] == a[1..] + b;
      LookupInConcat(a[1..], b, r);
    }
  }

  lemma {:induction false} AscendingConcat<T, V>(a: seq<Entry<T, V>>, b: seq<Entry<T, V>>)
    ensures Ascending(a + b) <==> Ascending(a) && Ascending(b) && AllBelow(a, b)
  {
    var s := a + b;
    if Ascending(s) {
      forall i, j | 0 <= i < |a| && 0 <= j < |b| ensures a[i].key.rank < b[j].key.rank {
        assert s[i] == a[i] && s[|a| + j] == b[j];
      }
      forall i, j | 0 <= i < j < |b| ensures b[i].key.rank < b[j].key.rank {
        assert s[|a| + i] == b[i] && s[|a| + j] == b[j];
      }
      forall i, j | 0 <= i < j < |a| ensures a[i].key.rank < a[j].key.rank {
        assert s[i] == a[i] && s[j] == a[j];
      }
    }
  }

  lemma {:induction false} BelowAllMissing<T, V>(s: seq<Entry<T, V>>, r: int)
    requires forall i :: 0 <= i < |s| ==> r < s[i].key.rank
    ensures Lookup(s, r) == None
  {
    LookupFindsRank(s, r);
  }

  // A strictly ascending sequence is determined by the map it stands for.
  lemma {:induction false} SameMapSameEntries<T(!new), V(!new)>(a: seq<Entry<T, V>>, b: seq<Entry<T, V>>)
    requires Ascending(a) && Ascending(b)
    requires forall r :: Lookup(a, r) == Lookup(b, r)
    ensures a == b
  {
    if a != [] {
      HeadIsLeast(a, b);
    }
    if b != [] {
      HeadIsLeast(b, a);
      assert a[0] == b[0];
      forall r ensures Lookup(a[1..], r) == Lookup(b[1..], r) {
        assert Lookup(a, r) == Lookup(b, r);
        if r <= a[0].key.rank {
          BelowAllMissing(a[1..], r);
          BelowAllMissing(b[1..], r);
        }
      }
      SameMapSameEntries(a[1..], b[1..]);
    }
  }

  lemma {:induction false} HeadIsLeast<T(!new), V(!new)>(a: seq<Entry<T, V>>, b: seq<Entry<T, V>>)
    requires a != [] && Ascending(a) && Ascending(b)
    requires forall r :: Lookup(a, r) == Lookup(b, r)
    ensures b != [] && Lookup(b, a[0].key.rank) == Some(a[0]) && b[0].key.rank <= a[0].key.rank
  {
    var r := a[0].key.rank;
    assert Lookup(a, r) == Lookup(b, r) == Some(a[0]);
    LookupFindsRank(b, r);
    var i :| 0 <= i < |b| && b[i] == a[0];
  }

  // --- Inserting one entry -------------------------------------------------

  // A map insert: an equal key keeps its place and its own key, and takes the new value.
  function Insert<T, V>(s: seq<Entry<T, V>>, e: Entry<T, V>): seq<Entry<T, V>> {
    if s == [] || e.key.rank < s[0].key.rank then [e] + s
    else if e.key.rank == s[0].key.rank then [Slot(s[0].key, e.val)] + s[1..]
    else [s[0]] + Insert(s[1..], e)
  }

  // What an insert leaves under rank r.
  function Inserted<T, V>(before: Option<Entry<T, V>>, e: Entry<T, V>): Entry<T, V> {
    match before
    case Some(held) => Slot(held.key, e.val)
    case None => e
  }

  lemma {:induction false} InsertAbove<T, V>(s: seq<Entry<T, V>>, e: Entry<T, V>, bound: int)
    requires bound < e.key.rank && forall i :: 0 <= i < |s| ==> bound < s[i].key.rank
    ensures forall i :: 0 <= i < |Insert(s, e)| ==> bound < Insert(s, e)[i].key.rank
  {
    if s != [] && s[0].key.rank < e.key.rank {
      InsertAbove(s[1..], e, bound);
    }
  }

  lemma {:induction false} InsertKeepsOrder<T, V>(s: seq<Entry<T, V>>, e: Entry<T, V>)
    requires Ascending(s)
    ensures Ascending(Insert(s, e))
  {
    if s != [] && s[0].key.rank < e.key.rank {
      InsertKeepsOrder(s[1..], e);
      InsertAbove(s[1..], e, s[0].key.rank);
    }
  }

  lemma {:induction false} InsertLookup<T, V>(s: seq<Entry<T, V>>, e: Entry<T, V>, r: int)
    requires Ascending(s)
    ensures Lookup(Insert(s, e), r) ==
      if r == e.key.rank then Some(Inserted(Lookup(s, r), e)) else Lookup(s, r)
  {
    if s == [] || e.key.rank < s[0].key.rank {
      BelowAllMissing(s, e.key.rank);
      assert ([e] + s)[1..] == s;
    } else if e.key.rank == s[0].key.rank {
      var t := [Slot(s[0].key, e.val)] + s[1..];
      assert t[1..] == s[1..];
    } else {
      InsertLookup(s[1..], e, r);
      var rest := Insert(s[1..], e);
      assert ([s[0]] + rest)[1..] == rest;
    }
  }

  // Where an insert lands: below it nothing moves, and the new entry goes in
  // front of the first key of greater rank.
  lemma {:induction false} InsertSplits<T, V>(a: seq<Entry<T, V>>, b: seq<Entry<T, V>>, e: Entry<T, V>)
    requires forall i :: 0 <= i < |a| ==> a[i].key.rank < e.key.rank
    ensures Insert(a + b, e) == a + Insert(b, e)
  {
    if a == [] {
      NothingBefore(a, b);
      NothingBefore(a, Insert(b, e));
    } else {
      TailOfConcat(a, b);
      InsertSplits(a[1..], b, e);
      Assoc([a[0]], a[1..], Insert(b, e));
      assert [a[0]] + a[1..] == a;
    }
  }

  // Inserting a whole sequence, left to right.
  function InsertAll<T, V>(s: seq<Entry<T, V>>, es: seq<Entry<T, V>>): seq<Entry<T, V>>
    decreases |es|
  {
    if es == [] then s else InsertAll(Insert(s, es[0]), es[1..])
  }

  // --- Merging -------------------------------------------------------------

  // The merge of two sorted runs; on equal keys the right entry replaces the left one.
  function Merged<T, V>(a: seq<Entry<T, V>>, b: seq<Entry<T, V>>): seq<Entry<T, V>>
    decreases |a| + |b|
  {
    if a == [] then b
    else if b == [] then a
    else if a[0].key.rank < b[0].key.rank then [a[0]] + Merged(a[1..], b)
    else if b[0].key.rank < a[0].key.rank then [b[0]] + Merged(a, b[1..])
    else [b[0]] + Merged(a[1..], b[1..])
  }

  lemma {:induction false} MergedAbove<T, V>(a: seq<Entry<T, V>>, b: seq<Entry<T, V>>, bound: int)
    requires forall i :: 0 <= i < |a| ==> bound < a[i].key.rank
    requires forall i :: 0 <= i < |b| ==> bound < b[i].key.rank
    ensures forall i :: 0 <= i < |Merged(a, b)| ==> bound < Merged(a, b)[i].key.rank
    decreases |a| + |b|
  {
    if a != [] && b != [] {
      if a[0].key.rank < b[0].key.rank {
        MergedAbove(a[1..], b, bound);
      } else if b[0].key.rank < a[0].key.rank {
        MergedAbove(a, b[1..], bound);
      } else {
        MergedAbove(a[1..], b[1..], bound);
      }
    }
  }

  lemma {:induction false} MergedAscends<T, V>(a: seq<Entry<T, V>>, b: seq<Entry<T, V>>)
    requires Ascending(a) && Ascending(b)
    ensures Ascending(Merged(a, b))
    decreases |a| + |b|
  {
    if a != [] && b != [] {
      if a[0].key.rank < b[0].key.rank {
        MergedAscends(a[1..], b);
        MergedAbove(a[1..], b, a[0].key.rank);
      } else if b[0].key.rank < a[0].key.rank {
        MergedAscends(a, b[1..]);
        MergedAbove(a, b[1..], b[0].key.rank);
      } else {
        MergedAscends(a[1..], b[1..]);
        MergedAbove(a[1..], b[1..], b[0].key.rank);
      }
    }
  }

  // The merge is the union of the two maps in which the right one wins.
  lemma {:induction false} MergedIsUnion<T, V>(a: seq<Entry<T, V>>, b: seq<Entry<T, V>>, r: int)
    requires Ascending(a) && Ascending(b)
    ensures Lookup(Merged(a, b), r) == if Lookup(b, r).Some? then Lookup(b, r) else Lookup(a, r)
    decreases |a| + |b|
  {
    if a != [] && b != [] {
      var m := Merged(a, b);
      if a[0].key.rank < b[0].key.rank {
        MergedIsUnion(a[1..], b, r);
        assert m[1..] == Merged(a[1..], b);
        if r == a[0].key.rank {
          BelowAllMissing(b, r);
        }
      } else if b[0].key.rank < a[0].key.rank {
        MergedIsUnion(a, b[1..], r);
        assert m[1..] == Merged(a, b[1..]);
      } else {
        MergedIsUnion(a[1..], b[1..], r);
        assert m[1..] == Merged(a[1..], b[1..]);
      }
    }
  }

  // When every left key is below every right key, merging is concatenation.
  lemma {:induction false} MergedWhenDisjoint<T, V>(a: seq<Entry<T, V>>, b: seq<Entry<T, V>>)
    requires AllBelow(a, b)
    ensures Merged(a, b) == a + b
  {
    if a == [] {
      assert a + b == b;
    } else if b == [] {
      assert a + b == a;
    } else {
      assert a[0].key.rank < b[0].key.rank;
      MergedWhenDisjoint(a[1..], b);
      assert [a[0]] + (a[1..] + b) == a + b;
    }
  }

  lemma {:induction false} MergedWhenAbove<T, V>(a: seq<Entry<T, V>>, b: seq<Entry<T, V>>)
    requires AllBelow(b, a)
    ensures Merged(a, b) == b + a
    decreases |b|
  {
    if a == [] {
      assert b + a == b;
    } else if b == [] {
      assert b + a == a;
    } else {
      assert b[0].key.rank < a[0].key.rank;
      MergedWhenAbove(a, b[1..]);
      assert [b[0]] + (b[1..] + a) == b + a;
    }
  }
}
