// The read-only maps and set over a perfect hash function (src/perfect/mod.rs, src/perfect/set.rs).
// A hasher is any function from keys to 64-bit words.
module PerfectMap {
  import opened Seqs
  import opened Wrappers
  import opened Hashing
  import opened Placement
  import opened ChdAttempt
  import opened ChdBuild

  // What the builders share: the hash functions in use and the library sort.
  datatype Toolkit = Toolkit(family: HashFamily, sort: seq<nat> -> seq<nat>) {
    ghost predicate Valid() { family.Ranged() && SortsBySize(sort) }
  }

  // The mixers of the program, with any sort.
  function ChdFamily(): (family: HashFamily) {
    HashFamily(BucketOf, SlotOf)
  }

  lemma {:induction false} ChdFamilyIsRanged()
    ensures ChdFamily().Ranged()
  {
  }

  // ---- slots ----

  // The occupied slots' contents, in slot order (filter_map of the iterator).
  function Occupied<T>(slots: seq<Option<T>>): seq<T> {
    if slots == [] then []
    else (match slots[0] case Some(x) => [x] case None => []) + Occupied(slots[1..])
  }

  function EmptySlots<T>(slots: seq<Option<T>>): nat {
    if slots == [] then 0 else (if slots[0].None? then 1 else 0) + EmptySlots(slots[1..])
  }

  lemma {:induction false} OccupiedAdds<T>(slots: seq<Option<T>>, s: nat, x: T)
    requires s < |slots| && slots[s].None?
    ensures multiset(Occupied(slots[s := Some(x)])) == multiset(Occupied(slots)) + multiset{x}
    ensures |Occupied(slots[s := Some(x)])| == |Occupied(slots)| + 1
  {
    if s == 0 {
      assert slots[s := Some(x)][1..] == slots[1..];
    } else {
      assert slots[s := Some(x)][1..] == slots[1..][s - 1 := Some(x)];
      OccupiedAdds(slots[1..], s - 1, x);
    }
  }

  lemma {:induction false} OccupiedCounts<T>(slots: seq<Option<T>>)
    ensures |Occupied(slots)| + EmptySlots(slots) == |slots|
    ensures EmptySlots(slots) == 0 ==> forall s :: 0 <= s < |slots| ==>
        slots[s].Some? && slots[s].value == Occupied(slots)[s]
    ensures forall s :: 0 <= s < |slots| && slots[s].Some? ==> slots[s].value in Occupied(slots)
  {
    if slots != [] { OccupiedCounts(slots[1..]); }
  }

  lemma {:induction false} NothingOccupied<T>(slots: seq<Option<T>>)
    requires forall s :: 0 <= s < |slots| ==> slots[s].None?
    ensures Occupied(slots) == []
  {
    if slots != [] { NothingOccupied(slots[1..]); }
  }

  function Hashes<K>(keys: seq<K>, hasher: K -> u64): (hashes: seq<u64>)
    ensures |hashes| == |keys| && forall i :: 0 <= i < |keys| ==> hashes[i] == hasher(keys[i])
  {
    seq(|keys|, i requires 0 <= i < |keys| => hasher(keys[i]))
  }

  // phf sends items to distinct slots below m, or there is nothing to place.
  ghost predicate Separates(family: HashFamily, phf: ChdPhf, hashes: seq<u64>) {
    family.Ranged() && (hashes == [] || IsPerfect(family, phf, hashes))
  }

  // Every item sits at its slot and nothing else is stored.
  ghost predicate Holds<T>(family: HashFamily, phf: ChdPhf, hashes: seq<u64>, items: seq<T>, slots: seq<Option<T>>)
    requires Separates(family, phf, hashes)
  {
    && |items| == |hashes| && |slots| == phf.m
    && (forall i :: 0 <= i < |items| ==>
         phf.Index(family, hashes[i]) < |slots| && slots[phf.Index(family, hashes[i])] == Some(items[i]))
    && multiset(Occupied(slots)) == multiset(items)
    && EmptySlots(slots) == phf.m - |items|
  }

  // The slot of every hash.
  ghost function SlotsOf(family: HashFamily, phf: ChdPhf, hashes: seq<u64>): (slots: seq<nat>)
    requires Separates(family, phf, hashes)
    ensures |slots| == |hashes|
    ensures forall i :: 0 <= i < |slots| ==> slots[i] == phf.Index(family, hashes[i]) < phf.m
    ensures Distinct(slots)
  {
    var slots: seq<nat> := seq(|hashes|, i requires 0 <= i < |hashes| => phf.Index(family, hashes[i]));
    assert forall i, j :: 0 <= i < j < |slots| ==> slots[i] != slots[j];
    DistinctHolds(slots);
    slots
  }

  // The first i items are at their slots.
  ghost predicate AtSlots<T>(where: seq<nat>, items: seq<T>, placed: seq<Option<T>>, i: nat)
    requires i <= |where| == |items|
  {
    forall j :: 0 <= j < i ==> where[j] < |placed| && placed[where[j]] == Some(items[j])
  }

  // All slots but those of the first i items are free.
  ghost predicate OthersFree<T>(where: seq<nat>, placed: seq<Option<T>>, i: nat)
    requires i <= |where|
  {
    forall s :: 0 <= s < |placed| && placed[s].Some? ==> exists j :: 0 <= j < i && where[j] == s
  }

  ghost predicate PlacedSoFar<T>(where: seq<nat>, items: seq<T>, placed: seq<Option<T>>, i: nat)
    requires i <= |where| == |items|
  {
    AtSlots(where, items, placed, i) && OthersFree(where, placed, i) && Counted(items, placed, i)
  }

  ghost predicate Counted<T>(items: seq<T>, placed: seq<Option<T>>, i: nat)
    requires i <= |items|
  {
    multiset(Occupied(placed)) == multiset(items[..i]) && |Occupied(placed)| == i
  }

  lemma {:induction false} PlaceKeepsAtSlots<T>(where: seq<nat>, items: seq<T>, placed: seq<Option<T>>, i: nat)
    requires i < |where| == |items| && where[i] < |placed| && Distinct(where) && AtSlots(where, items, placed, i)
    ensures AtSlots(where, items, placed[where[i] := Some(items[i])], i + 1)
  {
    DistinctHolds(where);
  }

  lemma {:induction false} PlaceCounts<T>(items: seq<T>, placed: seq<Option<T>>, i: nat, s: nat)
    requires i < |items| && s < |placed| && placed[s].None? && Counted(items, placed, i)
    ensures Counted(items, placed[s := Some(items[i])], i + 1)
  {
    OccupiedAdds(placed, s, items[i]);
    assert items[..i + 1] == items[..i] + [items[i]];
  }

  lemma {:induction false} NextSlotFree<T>(where: seq<nat>, placed: seq<Option<T>>, i: nat)
    requires i < |where| && where[i] < |placed| && Distinct(where) && OthersFree(where, placed, i)
    ensures placed[where[i]].None?
  {
    DistinctHolds(where);
  }

  lemma {:induction false} PlaceKeepsOthersFree<T>(where: seq<nat>, placed: seq<Option<T>>, i: nat, x: T)
    requires i < |where| && where[i] < |placed| && OthersFree(where, placed, i)
    ensures OthersFree(where, placed[where[i] := Some(x)], i + 1)
  {
    var placed' := placed[where[i] := Some(x)];
    forall s | 0 <= s < |placed'| && placed'[s].Some? ensures exists j :: 0 <= j < i + 1 && where[j] == s {
      if s != where[i] {
        var j :| 0 <= j < i && where[j] == s;
      }
    }
  }

  lemma {:induction false} NothingPlaced<T>(where: seq<nat>, items: seq<T>, placed: seq<Option<T>>)
    requires |where| == |items| && forall s :: 0 <= s < |placed| ==> placed[s].None?
    ensures PlacedSoFar(where, items, placed, 0)
  {
    NothingOccupied(placed);
  }

  lemma {:induction false} PlaceStep<T>(where: seq<nat>, items: seq<T>, placed: seq<Option<T>>, i: nat)
    requires i < |where| == |items| && where[i] < |placed| && PlacedSoFar(where, items, placed, i) && Distinct(where)
    ensures placed[where[i]].None?
    ensures PlacedSoFar(where, items, placed[where[i] := Some(items[i])], i + 1)
  {
    NextSlotFree(where, placed, i);
    PlaceKeepsAtSlots(where, items, placed, i);
    PlaceKeepsOthersFree(where, placed, i, items[i]);
    PlaceCounts(items, placed, i, where[i]);
  }

  method StoreNext<T>(placed: array<Option<T>>, slot: nat, ghost where: seq<nat>, items: seq<T>, i: nat)
    requires i < |where| == |items| && slot == where[i] < placed.Length && Distinct(where)
    requires PlacedSoFar(where, items, placed[..], i)
    modifies placed
    ensures PlacedSoFar(where, items, placed[..], i + 1)
  {
    ghost var before := placed[..];
    PlaceStep(where, items, before, i);
    assert placed[slot].None?;
    placed[slot] := Some(items[i]);
    assert placed[..] == before[slot := Some(items[i])];
  }

  // The placement loop of every builder.  Each write finds its slot free, so nothing is overwritten.
  method Place<T>(family: HashFamily, phf: ChdPhf, hashes: seq<u64>, items: seq<T>) returns (placed: array<Option<T>>)
    requires Separates(family, phf, hashes) && |items| == |hashes|
    ensures fresh(placed) && Holds(family, phf, hashes, items, placed[..])
  {
    placed := new Option<T>[phf.m](_ => None);
    ghost var where := SlotsOf(family, phf, hashes);
    NothingPlaced(where, items, placed[..]);
    for i := 0 to |items|
      invariant fresh(placed)
      invariant PlacedSoFar(where, items, placed[..], i)
    {
      var slot := phf.Index(family, hashes[i]);
      StoreNext(placed, slot, where, items, i);
    }
    PlacedAllHolds(family, phf, hashes, items, placed[..]);
  }

  lemma {:induction false} PlacedAllHolds<T>(family: HashFamily, phf: ChdPhf, hashes: seq<u64>, items: seq<T>,
                                             placed: seq<Option<T>>)
    requires Separates(family, phf, hashes) && |items| == |hashes| && |placed| == phf.m
    requires PlacedSoFar(SlotsOf(family, phf, hashes), items, placed, |items|)
    ensures Holds(family, phf, hashes, items, placed)
  {
    var where := SlotsOf(family, phf, hashes);
    assert items[..|items|] == items;
    OccupiedCounts(placed);
    forall i | 0 <= i < |items|
      ensures phf.Index(family, hashes[i]) < |placed| && placed[phf.Index(family, hashes[i])] == Some(items[i])
    {
      assert where[i] == phf.Index(family, hashes[i]);
    }
  }

  // "minimal PHF must fill every slot": with m = n the expect never fires.
  method ExpectFull<T>(placed: array<Option<T>>) returns (slots: seq<T>)
    requires EmptySlots(placed[..]) == 0
    ensures slots == Occupied(placed[..]) && |slots| == placed.Length
    ensures forall s :: 0 <= s < |slots| ==> placed[s] == Some(slots[s])
  {
    OccupiedCounts(placed[..]);
    slots := [];
    for s := 0 to placed.Length
      invariant slots == Occupied(placed[..])[..s]
    {
      assert placed[..][s].Some?;
      slots := slots + [placed[s].value];
    }
  }

  // ---- the plain map ----

  // A plain association list.
  function Lookup<K(==), V>(entries: seq<(K, V)>, key: K): Option<V> {
    if entries == [] then None
    else if entries[0].0 == key then Some(entries[0].1)
    else Lookup(entries[1..], key)
  }

  lemma {:induction false} LookupFinds<K, V>(entries: seq<(K, V)>, key: K)
    ensures Lookup(entries, key).Some? ==> (key, Lookup(entries, key).value) in entries
    ensures Lookup(entries, key).None? ==> forall i :: 0 <= i < |entries| ==> entries[i].0 != key
  {
    if entries != [] && entries[0].0 != key {
      LookupFinds(entries[1..], key);
      assert forall i :: 0 < i < |entries| ==> entries[i] == entries[1..][i - 1];
    }
  }

  function Keys<K, V>(entries: seq<(K, V)>): (keys: seq<K>)
    ensures |keys| == |entries| && forall i :: 0 <= i < |entries| ==> keys[i] == entries[i].0
  {
    seq(|entries|, i requires 0 <= i < |entries| => entries[i].0)
  }

  // A stored pair whose key matches answers the query exactly as the plain map does.
  lemma {:induction false} ProbeIsLookup<K, V>(
    family: HashFamily, phf: ChdPhf, hasher: K -> u64, entries: seq<(K, V)>, slots: seq<Option<(K, V)>>, key: K)
    requires Separates(family, phf, Hashes(Keys(entries), hasher)) && entries != []
    requires Holds(family, phf, Hashes(Keys(entries), hasher), entries, slots)
    ensures phf.Index(family, hasher(key)) < |slots|
    ensures match slots[phf.Index(family, hasher(key))]
      case Some(e) => Lookup(entries, key) == if e.0 == key then Some(e.1) else None
      case None => Lookup(entries, key) == None
  {
    var slot := phf.Index(family, hasher(key));
    OccupiedCounts(slots);
    LookupFinds(entries, key);
    match Lookup(entries, key) {
      case Some(v) =>
        var i :| 0 <= i < |entries| && entries[i] == (key, v);
      case None =>
        if slots[slot].Some? {
          assert slots[slot].value in multiset(Occupied(slots));
          assert slots[slot].value in entries;
        }
    }
  }

  // ---- PerfectMap: dense, stored keys ----

  datatype PerfectMap<!K(==), V> = PerfectMap(slots: seq<(K, V)>, phf: ChdPhf, hasher: K -> u64) {
    // The slot array and the hash function fit together.
    ghost predicate Built(family: HashFamily) {
      family.Ranged() && (slots != [] ==> phf.displacements != [] && phf.m == |slots|)
    }

    function Get(family: HashFamily, key: K): Option<V>
      requires Built(family)
    {
      if slots == [] then None
      else
        var (k, v) := slots[phf.Index(family, hasher(key))];
        if k == key then Some(v) else None
    }

    // from_entries: fails only as the hash function build does, and never at the expect.
    static method FromEntries(tools: Toolkit, entries: seq<(K, V)>,
                              hasher: K -> u64) returns (r: Result<PerfectMap<K, V>, BuildError>)
      requires tools.Valid() && |entries| < 0x1_0000_0000
      ensures r == Err(DuplicateHash) <==> HasEqualPair(Hashes(Keys(entries), hasher))
      ensures r == Err(Exhausted) ==> NoSeedWorks(tools, Hashes(Keys(entries), hasher), |entries|)
      ensures r.Ok? ==> r.value.Built(tools.family)
      ensures r.Ok? ==> multiset(r.value.slots) == multiset(entries)
      ensures r.Ok? ==> forall key :: r.value.Get(tools.family, key) == Lookup(entries, key)
    {
      var hashes := Hashes(Keys(entries), hasher);
      var built, _ := Build(tools.family, tools.sort, hashes, |entries|);
      if built.Err? {
        return Err(built.error);
      }
      var placed := Place(tools.family, built.value, hashes, entries);
      var slots := ExpectFull(placed);
      var m := PerfectMap(slots, built.value, hasher);
      forall key ensures m.Get(tools.family, key) == Lookup(entries, key) {
        if entries != [] { ProbeIsLookup(tools.family, built.value, hasher, entries, placed[..], key); }
      }
      return Ok(m);
    }
  }

  // Every seed family the build tries is exhausted on its own.
  ghost predicate NoSeedWorks(tools: Toolkit, hashes: seq<u64>, m: nat)
    requires tools.Valid() && |hashes| <= m < 0x1_0000_0000
  {
    |hashes| > 0 && forall t :: 0 <= t < MAX_SEED_RETRIES ==> SeedOutcome(tools.family, tools.sort, hashes, m, t).None?
  }

  // ---- PerfectMapSparse: configurable table size ----

  datatype PerfectMapSparse<!K(==), V> = PerfectMapSparse(slots: seq<Option<(K, V)>>, phf: ChdPhf,
      hasher: K -> u64, len: nat) {
    ghost predicate Built(family: HashFamily) {
      family.Ranged() && |slots| == phf.m && (slots != [] ==> phf.displacements != [])
    }

    function Get(family: HashFamily, key: K): Option<V>
      requires Built(family)
    {
      if slots == [] then None
      else
        var slot := phf.Index(family, hasher(key));
        match if slot < |slots| then slots[slot] else None
        case None => None
        case Some(e) => if e.0 == key then Some(e.1) else None
    }

    function Iter(): seq<(K, V)> {
      Occupied(slots)
    }

    // from_entries_with: the configuration asks for tableSize slots, none when there are no entries.
    static method FromEntriesWith(tools: Toolkit, entries: seq<(K, V)>, hasher: K -> u64, tableSize: u32)
      returns (r: Result<PerfectMapSparse<K, V>, BuildError>)
      requires tools.Valid() && |entries| <= tableSize && (entries == [] ==> tableSize == 0)
      ensures r == Err(DuplicateHash) <==> HasEqualPair(Hashes(Keys(entries), hasher))
      ensures r == Err(Exhausted) ==> NoSeedWorks(tools, Hashes(Keys(entries), hasher), tableSize)
      ensures r.Ok? ==> r.value.Built(tools.family) && r.value.len == |entries|
      ensures r.Ok? ==> multiset(r.value.Iter()) == multiset(entries)
      ensures r.Ok? ==> EmptySlots(r.value.slots) == tableSize - |entries|
      ensures r.Ok? ==> forall key :: r.value.Get(tools.family, key) == Lookup(entries, key)
    {
      var hashes := Hashes(Keys(entries), hasher);
      var built, _ := Build(tools.family, tools.sort, hashes, tableSize);
      if built.Err? {
        return Err(built.error);
      }
      var slots := Place(tools.family, built.value, hashes, entries);
      var m := PerfectMapSparse(slots[..], built.value, hasher, |entries|);
      forall key ensures m.Get(tools.family, key) == Lookup(entries, key) {
        if entries != [] { ProbeIsLookup(tools.family, built.value, hasher, entries, slots[..], key); }
      }
      return Ok(m);
    }
  }

  // ---- PerfectMapUnchecked: no stored keys ----

  datatype PerfectMapUnchecked<!K, V> = PerfectMapUnchecked(values: seq<V>, phf: ChdPhf, hasher: K -> u64) {
    ghost predicate Built(family: HashFamily) {
      family.Ranged() && values != [] && phf.displacements != [] && phf.m == |values|
    }

    // An empty map has no value to return.
    function GetUnchecked(family: HashFamily, key: K): V
      requires Built(family)
    {
      values[phf.Index(family, hasher(key))]
    }

    static method FromEntries(tools: Toolkit, entries: seq<(K, V)>, hasher: K -> u64)
      returns (r: Result<PerfectMapUnchecked<K, V>, BuildError>)
      requires tools.Valid() && |entries| < 0x1_0000_0000
      ensures r == Err(DuplicateHash) <==> HasEqualPair(Hashes(Keys(entries), hasher))
      ensures r == Err(Exhausted) ==> NoSeedWorks(tools, Hashes(Keys(entries), hasher), |entries|)
      ensures r.Ok? ==> |r.value.values| == |entries|
      ensures r.Ok? && entries != [] ==> r.value.Built(tools.family)
      ensures r.Ok? && entries != [] ==>
        forall i :: 0 <= i < |entries| ==> r.value.GetUnchecked(tools.family, entries[i].0) == entries[i].1
      ensures r.Ok? && entries != [] ==> forall key :: r.value.GetUnchecked(tools.family, key) in Values(entries)
    {
      var hashes := Hashes(Keys(entries), hasher);
      var built, _ := Build(tools.family, tools.sort, hashes, |entries|);
      if built.Err? {
        return Err(built.error);
      }
      var placed := Place(tools.family, built.value, hashes, Values(entries));
      var values := ExpectFull(placed);
      var m := PerfectMapUnchecked(values, built.value, hasher);
      if entries != [] { m.AnswersStoredKeys(tools.family, entries, placed[..]); }
      return Ok(m);
    }

    lemma {:induction false} AnswersStoredKeys(family: HashFamily, entries: seq<(K, V)>, placed: seq<Option<V>>)
      requires entries != [] && Separates(family, phf, Hashes(Keys(entries), hasher)) && |values| == |placed|
      requires Holds(family, phf, Hashes(Keys(entries), hasher), Values(entries), placed) && |entries| == phf.m
      requires forall s :: 0 <= s < |values| ==> placed[s] == Some(values[s])
      ensures Built(family)
      ensures forall i :: 0 <= i < |entries| ==> GetUnchecked(family, entries[i].0) == entries[i].1
      ensures forall key :: GetUnchecked(family, key) in Values(entries)
    {
      var hashes := Hashes(Keys(entries), hasher);
      forall i | 0 <= i < |entries| ensures GetUnchecked(family, entries[i].0) == entries[i].1 {
        assert placed[phf.Index(family, hashes[i])] == Some(Values(entries)[i]);
      }
      OccupiedCounts(placed);
      forall s | 0 <= s < |values| ensures values[s] in Values(entries) {
        assert placed[s].value in multiset(Occupied(placed));
      }
    }
  }

  function Values<K, V>(entries: seq<(K, V)>): (values: seq<V>)
    ensures |values| == |entries| && forall i :: 0 <= i < |entries| ==> values[i] == entries[i].1
  {
    seq(|entries|, i requires 0 <= i < |entries| => entries[i].1)
  }

  // ---- PerfectSet ----

  datatype PerfectSet<!K(==)> = PerfectSet(slots: seq<K>, phf: ChdPhf, hasher: K -> u64) {
    ghost predicate Built(family: HashFamily) {
      family.Ranged() && (slots != [] ==> phf.displacements != [] && phf.m == |slots|)
    }

    predicate Contains(family: HashFamily, key: K)
      requires Built(family)
    {
      slots != [] && slots[phf.Index(family, hasher(key))] == key
    }

    function Get(family: HashFamily, key: K): Option<K>
      requires Built(family)
    {
      if slots == [] then None
      else
        var stored := slots[phf.Index(family, hasher(key))];
        if stored == key then Some(stored) else None
    }

    static method FromKeys(tools: Toolkit, keys: seq<K>,
                           hasher: K -> u64) returns (r: Result<PerfectSet<K>, BuildError>)
      requires tools.Valid() && |keys| < 0x1_0000_0000
      ensures r == Err(DuplicateHash) <==> HasEqualPair(Hashes(keys, hasher))
      ensures r == Err(Exhausted) ==> NoSeedWorks(tools, Hashes(keys, hasher), |keys|)
      ensures r.Ok? ==> r.value.Built(tools.family) && multiset(r.value.slots) == multiset(keys)
      ensures r.Ok? ==> forall key :: r.value.Contains(tools.family, key) <==> key in keys
      ensures r.Ok? ==> forall key :: r.value.Get(tools.family, key) == if key in keys then Some(key) else None
    {
      var hashes := Hashes(keys, hasher);
      var built, _ := Build(tools.family, tools.sort, hashes, |keys|);
      if built.Err? {
        return Err(built.error);
      }
      var placed := Place(tools.family, built.value, hashes, keys);
      var slots := ExpectFull(placed);
      var s := PerfectSet(slots, built.value, hasher);
      assert s.Built(tools.family);
      s.ContainsStored(tools.family, keys, placed[..]);
      return Ok(s);
    }

    // A set whose slots are the placed keys answers exactly for those keys.
    lemma {:induction false} ContainsStored(family: HashFamily, keys: seq<K>, placed: seq<Option<K>>)
      requires Built(family) && Separates(family, phf, Hashes(keys, hasher))
      requires Holds(family, phf, Hashes(keys, hasher), keys, placed)
      requires |slots| == |placed| && forall s :: 0 <= s < |slots| ==> placed[s] == Some(slots[s])
      requires multiset(slots) == multiset(keys) && |keys| == |slots|
      ensures forall key :: Contains(family, key) <==> key in keys
    {
      var hashes := Hashes(keys, hasher);
      forall key ensures Contains(family, key) <==> key in keys {
        if key in keys {
          var i :| 0 <= i < |keys| && keys[i] == key;
          assert placed[phf.Index(family, hashes[i])] == Some(keys[i]);
        }
        if Contains(family, key) {
          assert key in multiset(slots);
        }
      }
    }
  }
}
