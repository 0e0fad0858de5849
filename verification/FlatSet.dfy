// UnorderedFlatSet: the fused home-group insert and in-place retain (src/set.rs).
module FlatSet {
  import opened Wrappers
  import opened Bits
  import opened Hashing
  import opened Probing
  import opened GroupOps
  import opened TableLayout
  import opened RawTable

  class UnorderedFlatSet<T(==,0,!new)> {
    const table: RawTable<T>

    ghost predicate Valid()
      reads this, table, table.meta, table.buckets
    {
      table.Valid()
    }

    constructor WithHasher(feature: TagFeature, hash: T -> u64)
      ensures Valid() && table.contents == {} && !table.IsAllocated()
      ensures fresh(table) && fresh(table.meta) && fresh(table.buckets)
    {
      table := new RawTable<T>(feature, hash);
    }

    // A call answers None where the program's probe loop never returns.
    method Contains(value: T) returns (r: Option<bool>)
      requires Valid()
      ensures r == None <==> value !in table.contents && AllMarked(table.View(), HashOf(table.hash, value))
      ensures r.Some? ==> r.value == (value in table.contents)
    {
      var found := table.FindByHash(value);
      match found {
        case NeverReturns => return None;
        case Absent => return Some(false);
        case Found(_, _) => return Some(true);
      }
    }

    // True exactly when the value was absent; it never stores a second copy.
    method Insert(value: T) returns (r: Option<bool>)
      requires Valid() && table.log < 63
      modifies table, table.meta, table.buckets
      ensures Valid()
      ensures table.meta == old(table.meta) || fresh(table.meta)
      ensures table.buckets == old(table.buckets) || fresh(table.buckets)
      ensures r == None <==> old(table.IsAllocated()) && value !in old(table.contents)
                             && AllMarked(old(table.View()), HashOf(table.hash, value))
      ensures r == None ==> table.contents == old(table.contents)
      ensures r.Some? ==> r.value == (value !in old(table.contents))
      ensures r.Some? ==> table.contents == old(table.contents) + {value}
      ensures r == Some(true) && old(table.IsAllocated()) && old(table.len) < old(table.maxLoad) ==>
        table.View() == Put(old(table.View()), value)
      ensures !old(table.IsAllocated()) ==> table.log == 0 && table.maxLoad == 15 * 7 / 8
      ensures old(table.IsAllocated()) && !(r == Some(true) && old(table.len) == old(table.maxLoad)) ==>
        table.log == old(table.log) && table.maxLoad == old(table.maxLoad)
      ensures old(table.IsAllocated()) && r == Some(true) && old(table.len) == old(table.maxLoad) ==>
        table.log == old(table.log) + 1 && table.maxLoad == 15 * Pow2(table.log) * 7 / 8
    {
      if !table.IsAllocated() {
        table.Allocate(0);
        assert !table.View().Marked(0, HashOf(table.hash, value));
      }
      if table.len >= table.maxLoad {
        r := InsertAtCapacity(value);
        return;
      }
      r := InsertFused(value);
    }

    // The fused fast path: one look at the home group settles most inserts.
    method InsertFused(value: T) returns (r: Option<bool>)
      requires Valid() && table.len < table.maxLoad
      modifies table`len, table`contents, table.meta, table.buckets
      ensures Valid()
      ensures r == None <==> value !in old(table.contents) && AllMarked(old(table.View()), HashOf(table.hash, value))
      ensures r == None ==> table.contents == old(table.contents)
      ensures r.Some? ==> r.value == (value !in old(table.contents))
      ensures r.Some? ==> table.contents == old(table.contents) + {value}
      ensures r == Some(true) ==> table.View() == Put(old(table.View()), value)
    {
      var h := HashOf(table.hash, value);
      var g := table.GroupIndex(h);
      var tag := HashTag(table.feature, h);
      var slot := table.ScanGroup(g, tag, value);
      if slot.Some? {
        return Some(false);
      }
      var free := table.FirstFree(g);
      var overflowed := table.HasOverflowBit(g, h);
      if free.Some? && !overflowed {
        WriteHome(g, free.value, tag, value);
        return Some(true);
      }
      r := InsertOverflow(value);
    }

    method WriteHome(g: nat, s: nat, tag: u8, value: T)
      requires Valid() && table.len < table.maxLoad
      requires g == table.View().GroupIndex(HashOf(table.hash, value)) && FreeSlot(table.View(), g) == Some(s)
      requires tag == HashTag(table.feature, HashOf(table.hash, value))
      requires !table.View().InGroup(value, g) && !table.View().Marked(g, HashOf(table.hash, value))
      modifies table`len, table`contents, table.meta, table.buckets
      ensures Valid()
      ensures value !in old(table.contents) && table.contents == old(table.contents) + {value}
      ensures table.View() == Put(old(table.View()), value)
    {
      ghost var t := table.View();
      HomeInsert(t, value);
      table.WriteSlot(g, s, tag, value);
      PutCounts(t, value, table.contents);
      table.CountIn(value);
    }

    method InsertOverflow(value: T) returns (r: Option<bool>)
      requires Valid() && table.len < table.maxLoad
      modifies table`len, table`contents, table.meta, table.buckets
      ensures Valid()
      ensures r == None <==> value !in old(table.contents) && AllMarked(old(table.View()), HashOf(table.hash, value))
      ensures r == None ==> table.contents == old(table.contents)
      ensures r.Some? ==> r.value == (value !in old(table.contents))
      ensures r.Some? ==> table.contents == old(table.contents) + {value}
      ensures r == Some(true) ==> table.View() == Put(old(table.View()), value)
    {
      var found := table.FindByHash(value);
      match found {
        case NeverReturns => return None;
        case Found(_, _) => return Some(false);
        case Absent =>
          table.InsertBelowLoad(value);
          return Some(true);
      }
    }

    method InsertAtCapacity(value: T) returns (r: Option<bool>)
      requires Valid() && table.IsAllocated() && table.log < 63
      modifies table, table.meta, table.buckets
      ensures Valid()
      ensures table.meta == old(table.meta) || fresh(table.meta)
      ensures table.buckets == old(table.buckets) || fresh(table.buckets)
      ensures r == None <==> value !in old(table.contents) && AllMarked(old(table.View()), HashOf(table.hash, value))
      ensures r == None ==> table.contents == old(table.contents)
      ensures r.Some? ==> r.value == (value !in old(table.contents))
      ensures r.Some? ==> table.contents == old(table.contents) + {value}
      ensures r != Some(true) ==> table.log == old(table.log) && table.maxLoad == old(table.maxLoad)
      ensures r == Some(true) ==> table.log == old(table.log) + 1 && table.maxLoad == 15 * Pow2(table.log) * 7 / 8
    {
      var found := table.FindByHash(value);
      match found {
        case NeverReturns => return None;
        case Found(_, _) => return Some(false);
        case Absent =>
          GrowAndRehash();
          table.InsertBelowLoad(value);
          return Some(true);
      }
    }

    method GrowAndRehash()
      requires Valid() && table.IsAllocated() && table.log < 63
      modifies table
      ensures Valid() && table.contents == old(table.contents)
      ensures table.log == old(table.log) + 1 && table.len < table.maxLoad == 15 * Pow2(table.log) * 7 / 8
      ensures fresh(table.meta) && fresh(table.buckets)
    {
      DoubledLoad(Pow2(table.log));
      table.RehashWith(table.log + 1);
    }

    method Remove(value: T) returns (r: Option<bool>)
      requires Valid()
      modifies table, table.meta
      ensures Valid() && table.meta == old(table.meta) && table.buckets == old(table.buckets)
      ensures r == None <==> value !in old(table.contents) && AllMarked(old(table.View()), HashOf(table.hash, value))
      ensures r.Some? ==> r.value == (value in old(table.contents))
      ensures table.contents == old(table.contents) - {value} && table.log == old(table.log)
      ensures var h := HashOf(table.hash, value);
        table.maxLoad == if r == Some(true) && old(table.View()).Marked(table.GroupIndex(h), h)
                         then old(table.maxLoad) - 1 else old(table.maxLoad)
      ensures r != Some(true) ==> table.View() == old(table.View())
      ensures r == Some(true) ==>
        exists g: nat, s: nat :: old(table.View()).At(value, g, s) && table.View() == old(table.View()).Erase(g, s)
    {
      r := table.RemoveByHash(value);
    }

    // retain: visits every stored value once, with its visit number, and keeps those keep accepts.
    // Overflow bits are never cleared; each value that goes lowers the load limit by one if its
    // home group carries its overflow bit.
    method Retain(keep: (nat, T) -> bool) returns (ghost visited: seq<T>)
      requires Valid()
      modifies table`len, table`maxLoad, table`contents, table.meta
      ensures Valid()
      ensures forall value :: value in visited <==> value in old(table.contents)
      ensures forall i, j :: 0 <= i < j < |visited| ==> visited[i] != visited[j]
      ensures forall value :: value in table.contents <==> Kept(keep, visited, value)
      ensures Grows(old(table.View()), table.View()) && Grows(table.View(), old(table.View()))
      ensures table.maxLoad + Drifts(keep, old(table.View()), visited) == old(table.maxLoad)
    {
      visited := [];
      ghost var t := table.View();
      RetainingNothing(t, table.contents, keep);
      if !table.IsAllocated() {
        assert table.contents == {};
        return;
      }
      NothingMoved(t);
      var n := 0;
      for g := 0 to table.NumGroups()
        invariant table.Valid() && |visited| == n && Retaining(t, table.View(), table.contents, visited, keep)
        invariant forall value :: value in visited <==> Moved(t, value, g, 0x7FFF)
        invariant table.maxLoad + Drifts(keep, t, visited) == old(table.maxLoad)
      {
        n, visited := RetainGroup(keep, g, n, t, visited);
      }
      RetainedAll(t, table.View(), table.contents, visited, keep);
    }

    method RetainGroup(keep: (nat, T) -> bool, g: nat, n: nat, ghost t: Table<T>, ghost visited: seq<T>)
      returns (n': nat, ghost visited': seq<T>)
      requires Valid() && t.Wf() && g < t.Groups() && |visited| == n
      requires Retaining(t, table.View(), table.contents, visited, keep)
      requires forall value :: value in visited <==> Moved(t, value, g, 0x7FFF)
      modifies table`len, table`maxLoad, table`contents, table.meta
      ensures Valid() && |visited'| == n' && Retaining(t, table.View(), table.contents, visited', keep)
      ensures forall value :: value in visited' <==> Moved(t, value, g + 1, 0x7FFF)
      ensures table.maxLoad + Drifts(keep, t, visited') == old(table.maxLoad) + Drifts(keep, t, visited)
    {
      n', visited' := n, visited;
      var bytes := table.meta[16 * g..16 * g + 16];
      assert bytes == table.View().GroupBytes(g);
      UntouchedGroup(t, table.View(), table.contents, visited, keep, g);
      MatchNonEmptySlots(bytes);
      MovedMask(t, g, t.GroupBytes(g));
      var it := new BitMask(MatchNonEmpty(bytes));
      while it.bits != 0
        invariant fresh(it) && Valid() && |visited'| == n'
        invariant Retaining(t, table.View(), table.contents, visited', keep)
        invariant forall s: nat :: Bit(it.bits, s) ==> s < 15 && t.Tag(g, s) != EMPTY
        invariant forall value :: value in visited' <==> Moved(t, value, g, it.bits)
        invariant table.maxLoad + Drifts(keep, t, visited') == old(table.maxLoad) + Drifts(keep, t, visited)
        decreases it.bits
      {
        ghost var pending := it.bits;
        var s := it.Next();
        visited' := VisitSlot(keep, g, s.value, n', t, visited', pending, it.bits);
        n' := n' + 1;
      }
      MovedGroup(t, g);
    }

    method VisitSlot(keep: (nat, T) -> bool, g: nat, s: nat, n: nat, ghost t: Table<T>, ghost visited: seq<T>,
                     ghost pending: nat, ghost rest: nat)
      returns (ghost visited': seq<T>)
      requires Valid() && t.Wf() && |visited| == n
      requires Retaining(t, table.View(), table.contents, visited, keep)
      requires g < t.Groups() && s < 15 && t.Tag(g, s) != EMPTY && Bit(pending, s)
      requires forall i: nat :: Bit(rest, i) <==> Bit(pending, i) && i != s
      requires forall value :: value in visited <==> Moved(t, value, g, pending)
      modifies table`len, table`maxLoad, table`contents, table.meta
      ensures Valid() && visited' == visited + [t.Key(g, s)]
      ensures Retaining(t, table.View(), table.contents, visited', keep)
      ensures forall value :: value in visited' <==> Moved(t, value, g, rest)
      ensures table.maxLoad + Drifts(keep, t, visited') == old(table.maxLoad) + Drifts(keep, t, visited)
    {
      var key := table.buckets[15 * g + s];
      VisitNext(t, g, s, pending, rest, visited);
      visited' := visited + [key];
      DriftsNext(keep, t, table.View(), visited, key);
      assert t.At(key, g, s);
      if keep(n, key) {
        KeepStep(t, table.View(), table.contents, visited, keep, key);
      } else {
        DropStep(t, table.View(), table.contents, visited, keep, g, s, key);
        table.RemoveAt(g, s, key);
      }
    }
  }

  // value was accepted at its visit.
  ghost predicate Kept<T>(keep: (nat, T) -> bool, visited: seq<T>, value: T) {
    exists i :: 0 <= i < |visited| && visited[i] == value && keep(i, value)
  }

  // How many of the visited values were rejected and had overflowed their home group.
  ghost function Drifts<T(!new)>(keep: (nat, T) -> bool, t: Table<T>, visited: seq<T>): nat
    requires t.Shaped()
  {
    if visited == [] then 0
    else
      var n := |visited| - 1;
      var h := HashOf(t.hash, visited[n]);
      Drifts(keep, t, visited[..n]) + if !keep(n, visited[n]) && t.Marked(t.GroupIndex(h), h) then 1 else 0
  }

  lemma {:induction false} DriftsNext<T(!new)>(keep: (nat, T) -> bool, t: Table<T>, now: Table<T>, visited: seq<T>,
                                               key: T)
    requires t.Shaped() && now.Shaped() && Grows(t, now) && Grows(now, t)
    ensures var h := HashOf(t.hash, key);
      Drifts(keep, t, visited + [key]) == Drifts(keep, t, visited) +
        if !keep(|visited|, key) && now.Marked(now.GroupIndex(h), h) then 1 else 0
  {
    assert (visited + [key])[..|visited|] == visited;
  }

  // After visiting the listed values of t, the table is now: the rejected ones are gone, the rest untouched.
  ghost predicate Retaining<T(!new)>(t: Table<T>, now: Table<T>, contents: set<T>, visited: seq<T>,
                              keep: (nat, T) -> bool) {
    && Grows(t, now) && Grows(now, t) && now.buckets == t.buckets
    && (forall i, j :: 0 <= i < j < |visited| ==> visited[i] != visited[j])
    && (forall value, g, s :: now.At(value, g, s) <==> t.At(value, g, s) && value in contents)
    && (forall value :: value in contents <==> t.Has(value) && (value !in visited || Kept(keep, visited, value)))
  }

  // The load limit more than doubles room when the groups double.
  lemma {:induction false} DoubledLoad(groups: nat)
    requires groups > 0
    ensures MaxLoad(groups) < MaxLoad(2 * groups)
  {
  }

  // Counting in what an insertion adds.
  lemma {:induction false} PutCounts<T(!new)>(t: Table<T>, value: T, contents: set<T>)
    requires t.Wf() && Put(t, value).Wf() && Adds(t, Put(t, value), value)
    requires forall key :: key in contents <==> t.Has(key)
    ensures forall key :: key in contents + {value} <==> Put(t, value).Has(key)
  {
  }

  // No match in the home group and no overflow bit: the value is absent, and home is where it goes.
  lemma {:induction false} HomeInsert<T(!new)>(t: Table<T>, value: T)
    requires t.Wf()
    requires var h := HashOf(t.hash, value);
      !t.InGroup(value, t.GroupIndex(h)) && !t.Marked(t.GroupIndex(h), h) && FreeSlot(t, t.GroupIndex(h)).Some?
    ensures !t.Has(value) && HasRoom(t)
    ensures var h := HashOf(t.hash, value); var g := t.GroupIndex(h);
      Put(t, value) == t.Write(g, FreeSlot(t, g).value, HashTag(t.feature, h), value)
    ensures Put(t, value).Wf() && Adds(t, Put(t, value), value)
  {
    var h := HashOf(t.hash, value);
    var g := t.GroupIndex(h);
    assert t.ProbeAt(h, 0) == g;
    FirstStopAnswers(t, value, 0);
    FreeSlotIsLowest(t, g);
    PutAdds(t, value);
  }

  lemma {:induction false} RetainingNothing<T(!new)>(t: Table<T>, contents: set<T>, keep: (nat, T) -> bool)
    requires t.Wf() && forall value :: value in contents <==> t.Has(value)
    ensures Retaining(t, t, contents, [], keep)
  {
  }

  lemma {:induction false} RetainedAll<T(!new)>(t: Table<T>, now: Table<T>, contents: set<T>, visited: seq<T>,
                                         keep: (nat, T) -> bool)
    requires t.Wf() && Retaining(t, now, contents, visited, keep)
    requires forall value :: value in visited <==> Moved(t, value, t.Groups(), 0x7FFF)
    ensures forall value :: value in visited <==> t.Has(value)
    ensures forall value :: value in contents <==> Kept(keep, visited, value)
  {
  }

  // The keys of a group not yet visited are all still there.
  lemma {:induction false} UntouchedGroup<T(!new)>(t: Table<T>, now: Table<T>, contents: set<T>, visited: seq<T>,
                                            keep: (nat, T) -> bool, g: nat)
    requires t.Wf() && now.Wf() && g < t.Groups() && Retaining(t, now, contents, visited, keep)
    requires forall value :: value in visited <==> Moved(t, value, g, 0x7FFF)
    ensures forall s: nat :: s < 15 ==> (t.Tag(g, s) != EMPTY <==> now.Tag(g, s) != EMPTY)
    ensures forall value :: Moved(t, value, g, MatchNonEmpty(now.GroupBytes(g))) <==> Moved(t, value, g, 0x7FFF)
  {
    forall s: nat | s < 15 ensures t.Tag(g, s) != EMPTY <==> now.Tag(g, s) != EMPTY {
      var value := t.Key(g, s);
      assert now.Key(g, s) == value;
      SlotBits(s);
      if t.Tag(g, s) != EMPTY {
        assert t.At(value, g, s);
        assert value !in visited;
        assert now.At(value, g, s);
      } else {
        assert !t.At(value, g, s);
      }
    }
    MovedMaskNow(t, now, g);
  }

  lemma {:induction false} MovedMaskNow<T(!new)>(t: Table<T>, now: Table<T>, g: nat)
    requires t.Shaped() && now.Shaped() && g < t.Groups() && g < now.Groups()
    requires forall s: nat :: s < 15 ==> (t.Tag(g, s) != EMPTY <==> now.Tag(g, s) != EMPTY)
    ensures forall value :: Moved(t, value, g, MatchNonEmpty(now.GroupBytes(g))) <==> Moved(t, value, g, 0x7FFF)
  {
    var bytes := now.GroupBytes(g);
    MatchNonEmptySlots(bytes);
    forall s: nat ensures Bit(0x7FFF, s) <==> s < 15 { SlotBits(s); }
    assert forall s: nat :: s < 15 ==> bytes[s] == now.Tag(g, s);
  }

  lemma {:induction false} VisitNext<T(!new)>(t: Table<T>, g: nat, s: nat, pending: nat, rest: nat, visited: seq<T>)
    requires t.Wf() && g < t.Groups() && s < 15 && t.Tag(g, s) != EMPTY && Bit(pending, s)
    requires forall i: nat :: Bit(rest, i) <==> Bit(pending, i) && i != s
    requires forall value :: value in visited <==> Moved(t, value, g, pending)
    ensures t.Key(g, s) !in visited
    ensures forall value :: value in visited + [t.Key(g, s)] <==> Moved(t, value, g, rest)
  {
    var key := t.Key(g, s);
    assert t.At(key, g, s);
    forall value ensures value in visited + [key] <==> Moved(t, value, g, rest) {
      if value in visited {
        var g': nat, s': nat :| t.At(value, g', s') && (g' < g || (g' == g && !Bit(pending, s')));
        assert t.At(value, g', s') && (g' < g || (g' == g && !Bit(rest, s')));
      }
    }
  }

  lemma {:induction false} KeptAfter<T(!new)>(keep: (nat, T) -> bool, visited: seq<T>, key: T, value: T)
    requires key !in visited
    ensures Kept(keep, visited + [key], value) <==> Kept(keep, visited, value) || (value == key && keep(|visited|, key))
  {
    var visited' := visited + [key];
    if Kept(keep, visited, value) {
      var i :| 0 <= i < |visited| && visited[i] == value && keep(i, value);
      assert visited'[i] == value;
    }
    if value == key && keep(|visited|, key) { assert visited'[|visited|] == value; }
  }

  lemma {:induction false} KeepStep<T(!new)>(t: Table<T>, now: Table<T>, contents: set<T>, visited: seq<T>,
                                      keep: (nat, T) -> bool, key: T)
    requires Retaining(t, now, contents, visited, keep) && key !in visited && t.Has(key) && keep(|visited|, key)
    ensures Retaining(t, now, contents, visited + [key], keep)
  {
    forall value ensures Kept(keep, visited + [key], value) <==> Kept(keep, visited, value) || value == key {
      KeptAfter(keep, visited, key, value);
    }
  }

  lemma {:induction false} DropStep<T(!new)>(
    t: Table<T>, now: Table<T>, contents: set<T>, visited: seq<T>, keep: (nat, T) -> bool, g: nat, s: nat, key: T)
    requires t.Wf() && now.Wf() && Retaining(t, now, contents, visited, keep)
    requires key !in visited && t.At(key, g, s) && !keep(|visited|, key)
    ensures now.At(key, g, s)
    ensures Retaining(t, now.Erase(g, s), contents - {key}, visited + [key], keep)
  {
    assert t.Has(key);
    assert now.At(key, g, s);
    EraseKeepsWf(now, g, s);
    forall value ensures Kept(keep, visited + [key], value) <==> Kept(keep, visited, value) {
      KeptAfter(keep, visited, key, value);
    }
  }
}
