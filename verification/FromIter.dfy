// Building a map from an unordered run of entries: a stable sort, then a pass
// that merges neighbours with equal keys.  It must agree with inserting the
// entries one by one.

module FromIter {
  import opened Wrappers
  import opened Seqs
  import opened LeafChain
  import opened SortedEntries

  predicate NonDescending<T, V>(s: seq<Entry<T, V>>) {
    |s| <= 1 || (s[0].key.rank <= s[1].key.rank && NonDescending(s[1..]))
  }

  // The entries of one rank, in the order in which they stand.
  function ClassOf<T, V>(s: seq<Entry<T, V>>, r: int): seq<Entry<T, V>> {
    if s == [] then []
    else (if s[0].key.rank == r then [s[0]] else []) + ClassOf(s[1..], r)
  }

  // What the library's stable sort promises: the result is in order, and
  // entries of equal rank keep their order (so none is lost or made up).
  ghost predicate StablySorted<T(!new), V(!new)>(s: seq<Entry<T, V>>, sorted: seq<Entry<T, V>>) {
    NonDescending(sorted) && forall r :: ClassOf(sorted, r) == ClassOf(s, r)
  }

  lemma {:induction false} ClassOfConcat<T, V>(a: seq<Entry<T, V>>, b: seq<Entry<T, V>>, r: int)
    ensures ClassOf(a + b, r) == ClassOf(a, r) + ClassOf(b, r)
  {
    if a == [] {
      NothingBefore(a, b);
      NothingBefore(ClassOf(a, r), ClassOf(b, r));
    } else {
      TailOfConcat(a, b);
      ClassOfConcat(a[1..], b, r);
      Assoc(if a[0].key.rank == r then [a[0]] else [], ClassOf(a[1..], r), ClassOf(b, r));
    }
  }

  // --- A stable sort by insertion, standing in for the library's -------------

  function StableInsert<T, V>(s: seq<Entry<T, V>>, e: Entry<T, V>): seq<Entry<T, V>> {
    if s == [] || e.key.rank < s[0].key.rank then [e] + s else [s[0]] + StableInsert(s[1..], e)
  }

  lemma {:induction false} StableInsertKeepsOrder<T, V>(s: seq<Entry<T, V>>, e: Entry<T, V>)
    requires NonDescending(s)
    ensures NonDescending(StableInsert(s, e))
  {
    if s != [] && s[0].key.rank <= e.key.rank {
      StableInsertKeepsOrder(s[1..], e);
      var rest := StableInsert(s[1..], e);
      assert rest[0] == e || (|s| > 1 && rest[0] == s[1]);
      assert ([s[0]] + rest)[1..] == rest;
    } else {
      assert ([e] + s)[1..] == s;
    }
  }

  lemma {:induction false} NoneBelowHead<T, V>(s: seq<Entry<T, V>>, r: int)
    requires NonDescending(s) && s != [] && r < s[0].key.rank
    ensures ClassOf(s, r) == []
  {
    if |s| > 1 {
      NoneBelowHead(s[1..], r);
    }
  }

  lemma {:induction false} StableInsertAppendsToClass<T, V>(s: seq<Entry<T, V>>, e: Entry<T, V>, r: int)
    requires NonDescending(s)
    ensures ClassOf(StableInsert(s, e), r) == ClassOf(s, r) + ClassOf([e], r)
  {
    if s == [] || e.key.rank < s[0].key.rank {
      ClassOfConcat([e], s, r);
      if s != [] && r == e.key.rank {
        NoneBelowHead(s, r);
      }
    } else {
      var rest := StableInsert(s[1..], e);
      StableInsertAppendsToClass(s[1..], e, r);
      assert ([s[0]] + rest)[0] == s[0] && ([s[0]] + rest)[1..] == rest;
      Assoc(if s[0].key.rank == r then [s[0]] else [], ClassOf(s[1..], r), ClassOf([e], r));
    }
  }

  method StableSort<T(!new), V(!new)>(pairs: seq<Entry<T, V>>) returns (sorted: seq<Entry<T, V>>)
    ensures StablySorted(pairs, sorted)
  {
    sorted := [];
    for i := 0 to |pairs|
      invariant StablySorted(pairs[..i], sorted)
    {
      var next := StableInsert(sorted, pairs[i]);
      StableInsertKeepsOrder(sorted, pairs[i]);
      forall r ensures ClassOf(next, r) == ClassOf(pairs[..i + 1], r) {
        StableInsertAppendsToClass(sorted, pairs[i], r);
        ClassOfConcat(pairs[..i], [pairs[i]], r);
        assert pairs[..i + 1] == pairs[..i] + [pairs[i]];
      }
      sorted := next;
    }
    assert pairs[..|pairs|] == pairs;
  }

  // --- Merging neighbours ----------------------------------------------------

  // One step of the pass: an entry whose key equals the last one kept gives
  // that one its value and is discarded.
  function DedupStep<T, V>(kept: seq<Entry<T, V>>, b: Entry<T, V>): seq<Entry<T, V>> {
    if kept != [] && kept[|kept| - 1].key.rank == b.key.rank then
      kept[..|kept| - 1] + [Slot(kept[|kept| - 1].key, b.val)]
    else kept + [b]
  }

  method Dedup<T(!new), V(!new)>(pairs: seq<Entry<T, V>>) returns (kept: seq<Entry<T, V>>)
    requires NonDescending(pairs)
    ensures Ascending(kept) && kept == InsertAll([], pairs)
  {
    kept := [];
    var rest := pairs;
    while rest != []
      invariant Ascending(kept) && NonDescending(rest)
      invariant kept != [] && rest != [] ==> kept[|kept| - 1].key.rank <= rest[0].key.rank
      invariant InsertAll(kept, rest) == InsertAll([], pairs)
      decreases |rest|
    {
      DedupStepIsInsert(kept, rest[0]);
      InsertKeepsOrder(kept, rest[0]);
      kept := DedupStep(kept, rest[0]);
      rest := rest[1..];
    }
  }

  // On a kept run that ends at or below the new key, the step is a map insert.
  lemma {:induction false} DedupStepIsInsert<T, V>(kept: seq<Entry<T, V>>, b: Entry<T, V>)
    requires Ascending(kept)
    requires kept != [] ==> kept[|kept| - 1].key.rank <= b.key.rank
    ensures DedupStep(kept, b) == Insert(kept, b)
    ensures DedupStep(kept, b) != [] && DedupStep(kept, b)[|DedupStep(kept, b)| - 1].key.rank == b.key.rank
  {
    if kept == [] {
    } else if kept[|kept| - 1].key.rank < b.key.rank {
      InsertSplits(kept, [], b);
      assert kept + [] == kept;
    } else {
      var front, last := kept[..|kept| - 1], kept[|kept| - 1];
      assert kept == front + [last];
      InsertSplits(front, [last], b);
      assert [Slot(last.key, b.val)] + [last][1..] == [Slot(last.key, b.val)];
    }
  }

  // --- Agreement with inserting one by one -----------------------------------

  // What inserting a class of equal keys leaves under their rank.
  function Folded<T, V>(before: Option<Entry<T, V>>, run: seq<Entry<T, V>>): Option<Entry<T, V>>
    decreases |run|
  {
    if run == [] then before else Folded(Some(Inserted(before, run[0])), run[1..])
  }

  // The first key and the last value of the class survive.
  lemma {:induction false} FoldedKeepsFirstKeyLastValue<T, V>(run: seq<Entry<T, V>>)
    ensures Folded(None, run) ==
            if run == [] then None else Some(Slot(run[0].key, run[|run| - 1].val))
  {
    if run != [] {
      FoldedOnto(run[0], run[1..]);
    }
  }

  lemma {:induction false} FoldedOnto<T, V>(first: Entry<T, V>, run: seq<Entry<T, V>>)
    ensures Folded(Some(first), run) ==
            Some(if run == [] then first else Slot(first.key, run[|run| - 1].val))
    decreases |run|
  {
    if run != [] {
      FoldedOnto(Slot(first.key, run[0].val), run[1..]);
    }
  }

  lemma {:induction false} InsertAllLookup<T, V>(s: seq<Entry<T, V>>, es: seq<Entry<T, V>>, r: int)
    requires Ascending(s)
    ensures Ascending(InsertAll(s, es))
    ensures Lookup(InsertAll(s, es), r) == Folded(Lookup(s, r), ClassOf(es, r))
    decreases |es|
  {
    if es != [] {
      InsertKeepsOrder(s, es[0]);
      InsertLookup(s, es[0], r);
      InsertAllLookup(Insert(s, es[0]), es[1..], r);
      if es[0].key.rank == r {
        assert ClassOf(es, r)[0] == es[0] && ClassOf(es, r)[1..] == ClassOf(es[1..], r);
      } else {
        NothingBefore([], ClassOf(es[1..], r));
      }
    }
  }

  // A stable sort does not change what inserting everything amounts to.
  lemma {:induction false} SortingIsInvisible<T(!new), V(!new)>(pairs: seq<Entry<T, V>>, sorted: seq<Entry<T, V>>)
    requires StablySorted(pairs, sorted)
    ensures InsertAll([], sorted) == InsertAll([], pairs)
  {
    InsertAllLookup([], sorted, 0);
    InsertAllLookup([], pairs, 0);
    forall r ensures Lookup(InsertAll([], sorted), r) == Lookup(InsertAll([], pairs), r) {
      InsertAllLookup([], sorted, r);
      InsertAllLookup([], pairs, r);
    }
    SameMapSameEntries(InsertAll([], sorted), InsertAll([], pairs));
  }

  // The entries a map built from an iterator is loaded with.
  method Collect<T(!new), V(!new)>(pairs: seq<Entry<T, V>>) returns (kept: seq<Entry<T, V>>)
    ensures Ascending(kept)
    ensures kept == InsertAll([], pairs)
  {
    var sorted := StableSort(pairs);
    kept := Dedup(sorted);
    SortingIsInvisible(pairs, sorted);
  }
}
