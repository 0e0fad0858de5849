// The open-addressing table behind the set, updated in place (src/raw/mod.rs).
// The value of every entry is the unit value, so a bucket is its key.
module RawTable {
  import opened Wrappers
  import opened Bits
  import opened Hashing
  import opened Probing
  import opened GroupOps
  import opened TableLayout

  // Found where, certainly absent, or a probe loop that never returns.
  datatype Lookup = Found(g: nat, s: nat) | Absent | NeverReturns

  function MaxLoad(groups: nat): nat { 15 * groups * 7 / 8 }

  lemma {:induction false} EmptyTableWf<K(!new)>(t: Table<K>)
    requires t.Shaped() && forall i :: 0 <= i < |t.meta| ==> t.meta[i] == EMPTY
    ensures t.Wf() && forall key :: !t.Has(key)
    ensures forall g: nat, h: u64 :: g < t.Groups() ==> !t.Marked(g, h)
  {
    forall g: nat, h: u64 | g < t.Groups() ensures !t.Marked(g, h) { ZeroBit(h % 8); }
  }

  class RawTable<K(==,0,!new)> {
    const feature: TagFeature
    const hash: K -> u64
    var log: nat
    var meta: array<u8>
    var buckets: array<K>
    var len: nat
    var maxLoad: nat
    ghost var contents: set<K>

    function View(): Table<K>
      reads this, meta, buckets
    {
      Table(feature, hash, log, meta[..], buckets[..])
    }

    // The layout invariant, and the counters in step with the stored keys.
    ghost predicate Valid()
      reads this, meta, buckets
    {
      && meta as object != buckets as object
      && View().Wf()
      && (forall key :: key in contents <==> View().Has(key))
      && len == |contents| <= maxLoad <= MaxLoad(View().Groups())
    }

    predicate IsAllocated()
      reads this
    {
      maxLoad > 0
    }

    function NumGroups(): nat
      reads this
    {
      Pow2(log)
    }

    // The unallocated table: one all-empty sentinel group, whose buckets are never touched.
    constructor (feature: TagFeature, hash: K -> u64)
      ensures Valid() && contents == {} && !IsAllocated()
      ensures fresh(meta) && fresh(buckets)
      ensures this.feature == feature && this.hash == hash
    {
      this.feature, this.hash := feature, hash;
      log, len, maxLoad := 0, 0, 0;
      meta := new u8[16](_ => EMPTY);
      buckets := new K[15];
      contents := {};
      new;
      EmptyTableWf(View());
    }

    // Fresh zeroed groups; callers hold no keys.
    method Allocate(newLog: nat)
      requires newLog < 64
      modifies this
      ensures Valid() && contents == {} && log == newLog && maxLoad == MaxLoad(Pow2(newLog)) > 0
      ensures fresh(meta) && fresh(buckets)
      ensures forall g: nat, h: u64 :: g < View().Groups() ==> !View().Marked(g, h)
    {
      meta := new u8[16 * Pow2(newLog)](_ => EMPTY);
      buckets := new K[15 * Pow2(newLog)];
      log := newLog;
      maxLoad := MaxLoad(Pow2(newLog));
      len := 0;
      contents := {};
      EmptyTableWf(View());
    }

    // The slot of group g that holds key, if any: only slots with its tag are compared.
    method ScanGroup(g: nat, tag: u8, key: K) returns (r: Option<nat>)
      requires View().Wf() && g < View().Groups() && tag == HashTag(feature, HashOf(hash, key))
      ensures r.Some? ==> View().At(key, g, r.value)
      ensures r.None? ==> !View().InGroup(key, g)
    {
      var bytes := meta[16 * g..16 * g + 16];
      ghost var t := View();
      assert bytes == t.GroupBytes(g);
      var mask := MatchByte(bytes, tag);
      MatchByteSlots(bytes, tag);
      TagIsNeverEmpty(feature, HashOf(hash, key));
      var it := new BitMask(mask);
      while it.bits != 0
        invariant fresh(it)
        invariant forall s: nat :: Bit(it.bits, s) ==> Bit(mask, s)
        invariant forall s: nat :: Bit(mask, s) ==> s < 15
        invariant forall s: nat :: Bit(mask, s) && !Bit(it.bits, s) ==> t.Key(g, s) != key
        decreases it.bits
      {
        var r' := it.Next();
        var s := r'.value;
        if buckets[15 * g + s] == key {
          assert t.Tag(g, s) == bytes[s];
          return Some(s);
        }
      }
      forall s: nat ensures !t.At(key, g, s) {
        if s < 15 {
          assert t.SlotOk(g, s) && t.Tag(g, s) == bytes[s];
          ZeroBit(s);
        }
      }
      return None;
    }

    // find_by_hash.  The program's loop is unbounded; the bound here is one round of the
    // groups, after which it is certain never to return (TableLayout.LookupLoops).
    method FindByHash(key: K) returns (r: Lookup)
      requires View().Wf()
      ensures r.Found? ==> View().At(key, r.g, r.s)
      ensures r.Found? <==> View().Has(key)
      ensures r.NeverReturns? <==> !View().Has(key) && AllMarked(View(), HashOf(hash, key))
    {
      var h := HashOf(hash, key);
      var tag := HashTag(feature, h);
      ghost var t := View();
      var g := GroupIndex(h);
      var probe := 0;
      while probe < NumGroups()
        invariant g == t.ProbeAt(h, probe)
        invariant forall p: nat :: p < probe ==> !StopsAt(t, key, p)
      {
        var slot := ScanGroup(g, tag, key);
        if slot.Some? {
          return Found(g, slot.value);
        }
        var overflowed := HasOverflowBit(g, h);
        if !overflowed {
          FirstStopAnswers(t, key, probe);
          return Absent;
        }
        assert t.ProbeAt(h, probe + 1) == Masked(g + (probe + 1), Pow2(log));
        probe, g := probe + 1, Masked(g + (probe + 1), NumGroups());
      }
      LookupLoops(t, key);
      return NeverReturns;
    }

    function GroupIndex(h: u64): (g: nat)
      reads this
      requires log < 64
      ensures g < Pow2(log)
    {
      Masked(Shr(h, (64 - log) % 64), Pow2(log))
    }

    // meta[15] & (1 << (h & 7)) != 0.
    method HasOverflowBit(g: nat, h: u64) returns (b: bool)
      requires View().Shaped() && g < NumGroups()
      ensures b == View().Marked(g, h)
    {
      MaskTest(meta[16 * g + 15], h % 8);
      b := And(meta[16 * g + 15], Pow2(h % 8)) != 0;
    }

    method SetOverflowBit(g: nat, h: u64)
      requires View().Shaped() && g < NumGroups() && meta as object != buckets as object
      modifies meta
      ensures View() == old(View()).Mark(g, h)
    {
      var byte := View().MarkByte(g, h);
      meta[16 * g + 15] := byte;
    }

    method WriteSlot(g: nat, s: nat, tag: u8, key: K)
      requires View().Shaped() && g < NumGroups() && s < 15 && meta as object != buckets as object
      modifies meta, buckets
      ensures View() == old(View()).Write(g, s, tag, key)
    {
      meta[16 * g + s] := tag;
      buckets[15 * g + s] := key;
    }

    method EraseSlot(g: nat, s: nat)
      requires View().Shaped() && g < NumGroups() && s < 15 && meta as object != buckets as object
      modifies meta
      ensures View() == old(View()).Erase(g, s)
    {
      meta[16 * g + s] := EMPTY;
    }

    // Counts a key that has just been written.
    method CountIn(key: K)
      requires meta as object != buckets as object && View().Wf()
      requires key !in contents && forall k :: k in contents + {key} <==> View().Has(k)
      requires len == |contents| < maxLoad <= MaxLoad(View().Groups())
      modifies this`len, this`contents
      ensures Valid() && contents == old(contents) + {key} && len == old(len) + 1
    {
      len, contents := len + 1, contents + {key};
    }

    // insert_no_check: it returns because some group has a free slot and every group is probed.
    method InsertNoCheck(key: K)
      requires Valid() && key !in contents && HasRoom(View()) && len < maxLoad
      modifies this`len, this`contents, meta, buckets
      ensures Valid() && contents == old(contents) + {key} && len == old(len) + 1
      ensures View() == Put(old(View()), key)
    {
      PutAdds(View(), key);
      ProbeAndWrite(key);
      len := len + 1;
      contents := contents + {key};
    }

    method ProbeAndWrite(key: K)
      requires View().Wf() && HasRoom(View()) && meta as object != buckets as object
      modifies meta, buckets
      ensures View() == Put(old(View()), key)
    {
      var h := HashOf(hash, key);
      var g := GroupIndex(h);
      var probe := 0;
      ghost var t := View();
      ghost var q := RoomStep(t, h);
      ghost var now := t;
      while true
        invariant View() == now && Pending(t, now, key, probe, q) && g == now.ProbeAt(h, probe)
        decreases q - probe
      {
        var s := FirstFree(g);
        if s.Some? {
          WriteSlot(g, s.value, HashTag(feature, h), key);
          return;
        }
        PendingStep(t, now, key, probe, q, g);
        SetOverflowBit(g, h);
        ghost var next := now.Mark(g, h);
        assert Pending(t, next, key, probe + 1, q) && next.ProbeAt(h, probe + 1) == Masked(g + (probe + 1), Pow2(log));
        assert View() == next;
        probe, g, now := probe + 1, Masked(g + (probe + 1), NumGroups()), next;
      }
    }

    // match_empty(meta).lowest_set_bit().
    method FirstFree(g: nat) returns (s: Option<nat>)
      requires View().Shaped() && g < View().Groups()
      ensures s == FreeSlot(View(), g)
    {
      FreeSlotIsLowestBit(View(), g);
      assert meta[16 * g..16 * g + 16] == View().GroupBytes(g);
      s := LowestSetBit(MatchByte(meta[16 * g..16 * g + 16], EMPTY));
    }

    // remove_by_hash, with its anti-drift step on max_load.
    method RemoveByHash(key: K) returns (r: Option<bool>)
      requires Valid()
      modifies this`len, this`maxLoad, this`contents, meta
      ensures Valid()
      ensures r == None <==> key !in old(contents) && AllMarked(old(View()), HashOf(hash, key))
      ensures r.Some? ==> r.value == (key in old(contents))
      ensures contents == old(contents) - {key} && log == old(log)
      ensures maxLoad == if r == Some(true) && old(View()).Marked(GroupIndex(HashOf(hash, key)), HashOf(hash, key))
                         then old(maxLoad) - 1 else old(maxLoad)
      ensures r != Some(true) ==> View() == old(View())
      ensures r == Some(true) ==>
        exists g: nat, s: nat :: old(View()).At(key, g, s) && View() == old(View()).Erase(g, s)
    {
      var found := FindByHash(key);
      match found {
        case NeverReturns => return None;
        case Absent => return Some(false);
        case Found(g, s) =>
          RemoveAt(g, s, key);
          return Some(true);
      }
    }

    method RemoveAt(g: nat, s: nat, key: K)
      requires Valid() && View().At(key, g, s)
      modifies this`len, this`maxLoad, this`contents, meta
      ensures Valid() && contents == old(contents) - {key} && len == old(len) - 1
      ensures View() == old(View()).Erase(g, s)
      ensures maxLoad == if old(View()).Marked(GroupIndex(HashOf(hash, key)), HashOf(hash, key))
          then old(maxLoad) - 1 else old(maxLoad)
    {
      assert key in contents;
      EraseKeepsWf(View(), g, s);
      EraseForgets(View(), g, s, key);
      EraseSlot(g, s);
      len := len - 1;
      contents := contents - {key};
      DriftDown(HashOf(hash, key));
    }

    // A removal whose hash overflowed lowers the load limit by one.
    method DriftDown(h: u64)
      requires View().Wf() && maxLoad > 0
      modifies this`maxLoad
      ensures maxLoad == if View().Marked(GroupIndex(h), h) then old(maxLoad) - 1 else old(maxLoad)
    {
      var drifts := HasOverflowBit(GroupIndex(h), h);
      if drifts {
        maxLoad := maxLoad - 1;
      }
    }

    // rehash_with: fresh groups, then every stored key is put back in slot order.
    method RehashWith(newLog: nat)
      requires Valid() && newLog < 64 && len <= MaxLoad(Pow2(newLog))
      modifies this
      ensures Valid() && contents == old(contents)
      ensures log == newLog && maxLoad == MaxLoad(Pow2(newLog)) > 0
      ensures fresh(meta) && fresh(buckets)
    {
      var wasAllocated := IsAllocated();
      var oldGroups, oldMeta, oldBuckets := NumGroups(), meta, buckets;
      ghost var t, all := View(), contents;
      Allocate(newLog);
      if !wasAllocated {
        return;
      }
      NothingMoved(t);
      for g := 0 to oldGroups
        invariant Valid() && log == newLog && maxLoad == MaxLoad(Pow2(newLog))
        invariant fresh(meta) && fresh(buckets)
        invariant oldMeta[..] == t.meta && oldBuckets[..] == t.buckets
        invariant forall key :: key in contents <==> Moved(t, key, g, 0x7FFF)
      {
        MoveGroup(t, all, oldMeta, oldBuckets, g);
      }
      AllMoved(t, all, contents);
    }

    method MoveGroup(ghost t: Table<K>, ghost all: set<K>, oldMeta: array<u8>, oldBuckets: array<K>, g: nat)
      requires Valid() && t.Wf() && g < t.Groups() && t.hash == hash && t.feature == feature
      requires oldMeta != meta && oldBuckets != buckets && oldMeta as object != buckets as object &&
          oldBuckets as object != meta as object
      requires oldMeta[..] == t.meta && oldBuckets[..] == t.buckets
      requires forall key :: key in all <==> t.Has(key)
      requires |all| <= maxLoad
      requires forall key :: key in contents <==> Moved(t, key, g, 0x7FFF)
      modifies this`len, this`contents, meta, buckets
      ensures Valid()
      ensures forall key :: key in contents <==> Moved(t, key, g + 1, 0x7FFF)
    {
      var bytes := oldMeta[16 * g..16 * g + 16];
      assert bytes == t.GroupBytes(g);
      var it := new BitMask(MatchNonEmpty(bytes));
      MovedMask(t, g, bytes);
      while it.bits != 0
        invariant fresh(it) && Valid()
        invariant forall s: nat :: Bit(it.bits, s) ==> s < 15 && t.Tag(g, s) != EMPTY
        invariant forall key :: key in contents <==> Moved(t, key, g, it.bits)
        decreases it.bits
      {
        ghost var pending := it.bits;
        var s := it.Next();
        MoveKey(t, all, oldBuckets[15 * g + s.value], g, s.value, pending, it.bits);
      }
      MovedGroup(t, g);
    }

    method MoveKey(ghost t: Table<K>, ghost all: set<K>, key: K, ghost g: nat, ghost s: nat, ghost pending: nat,
                   ghost rest: nat)
      requires Valid() && t.Wf() && |all| <= maxLoad
      requires g < t.Groups() && s < 15 && t.Tag(g, s) != EMPTY && t.Key(g, s) == key && Bit(pending, s)
      requires forall i: nat :: Bit(rest, i) <==> Bit(pending, i) && i != s
      requires forall k :: k in all <==> t.Has(k)
      requires forall k :: k in contents <==> Moved(t, k, g, pending)
      modifies this`len, this`contents, meta, buckets
      ensures Valid()
      ensures forall k :: k in contents <==> Moved(t, k, g, rest)
    {
      MovedNext(t, g, s, pending, rest, contents, all);
      InsertBelowLoad(key);
    }

    // Below the load limit there is always room.
    method InsertBelowLoad(key: K)
      requires Valid() && key !in contents && len < maxLoad
      modifies this`len, this`contents, meta, buckets
      ensures Valid() && contents == old(contents) + {key}
      ensures View() == Put(old(View()), key)
    {
      FewKeysLeaveRoom(View(), contents);
      InsertNoCheck(key);
    }
  }

  // key has been moved: it is in an earlier group, or in group g at a slot no longer pending.
  ghost predicate Moved<K(!new)>(t: Table<K>, key: K, g: nat, pending: nat)
    requires t.Shaped()
  {
    exists g': nat, s: nat :: t.At(key, g', s) && (g' < g || (g' == g && !Bit(pending, s)))
  }

  lemma {:induction false} NothingMoved<K(!new)>(t: Table<K>)
    requires t.Shaped()
    ensures forall key :: !Moved(t, key, 0, 0x7FFF)
  {
    forall s: nat ensures Bit(0x7FFF, s) <==> s < 15 { SlotBits(s); }
  }

  lemma {:induction false} MovedMask<K(!new)>(t: Table<K>, g: nat, bytes: seq<u8>)
    requires t.Shaped() && g < t.Groups() && bytes == t.GroupBytes(g)
    ensures forall s: nat :: Bit(MatchNonEmpty(bytes), s) ==> s < 15 && t.Tag(g, s) != EMPTY
    ensures forall key :: Moved(t, key, g, MatchNonEmpty(bytes)) <==> Moved(t, key, g, 0x7FFF)
  {
    MatchNonEmptySlots(bytes);
    forall s: nat ensures Bit(0x7FFF, s) <==> s < 15 { SlotBits(s); }
    assert forall s: nat :: s < 15 ==> bytes[s] == t.Tag(g, s);
  }

  lemma {:induction false} MovedGroup<K(!new)>(t: Table<K>, g: nat)
    requires t.Shaped() && g < t.Groups()
    ensures forall key :: Moved(t, key, g, 0) <==> Moved(t, key, g + 1, 0x7FFF)
  {
    forall s: nat ensures Bit(0x7FFF, s) <==> s < 15 { SlotBits(s); }
    forall s: nat ensures !Bit(0, s) { ZeroBit(s); }
  }

  // Moving the key of slot s, the lowest pending one.
  lemma {:induction false} MovedNext<K(!new)>(t: Table<K>, g: nat, s: nat, pending: nat, pending': nat,
                                       contents: set<K>, all: set<K>)
    requires t.Wf() && g < t.Groups() && s < 15 && t.Tag(g, s) != EMPTY && Bit(pending, s)
    requires forall i: nat :: Bit(pending', i) <==> Bit(pending, i) && i != s
    requires forall key :: key in contents <==> Moved(t, key, g, pending)
    requires forall key :: key in all <==> t.Has(key)
    ensures t.Key(g, s) !in contents
    ensures forall key :: key in contents + {t.Key(g, s)} <==> Moved(t, key, g, pending')
    ensures |contents| < |all|
  {
    var key := t.Key(g, s);
    assert t.At(key, g, s);
    forall k ensures k in contents + {key} <==> Moved(t, k, g, pending') {
      if k in contents {
        var g': nat, s': nat :| t.At(k, g', s') && (g' < g || (g' == g && !Bit(pending, s')));
        assert t.At(k, g', s') && (g' < g || (g' == g && !Bit(pending', s')));
      }
    }
    assert contents + {key} <= all by {
      forall k | k in contents + {key} ensures k in all { assert t.Has(k); }
    }
    SubsetSize(contents + {key}, all);
  }

  lemma {:induction false} AllMoved<K(!new)>(t: Table<K>, all: set<K>, contents: set<K>)
    requires t.Shaped()
    requires forall key :: key in contents <==> Moved(t, key, t.Groups(), 0x7FFF)
    requires forall key :: key in all <==> t.Has(key)
    ensures contents == all
  {
  }

  // An insertion of key into t that has come to table now at step probe; step q has room.
  ghost predicate Pending<K(!new)>(t: Table<K>, now: Table<K>, key: K, probe: nat, q: nat) {
    && t.Shaped() && now.Shaped() && now.hash == t.hash && now.feature == t.feature && now.log == t.log
    && probe <= q < now.Groups()
    && FreeSlot(now, now.ProbeAt(HashOf(t.hash, key), q)).Some?
    && PutFrom(now, key, probe) == Put(t, key)
  }

  lemma {:induction false} PendingStep<K(!new)>(t: Table<K>, now: Table<K>, key: K, probe: nat, q: nat, g: nat)
    requires Pending(t, now, key, probe, q) && g == now.ProbeAt(HashOf(t.hash, key), probe) && FreeSlot(now, g).None?
    ensures var now' := now.Mark(g, HashOf(t.hash, key));
      && Pending(t, now', key, probe + 1, q)
      && now'.ProbeAt(HashOf(t.hash, key), probe + 1) == Masked(g + probe + 1, Pow2(now.log))
  {
    var h := HashOf(t.hash, key);
    MarkKeepsFree(now, g, h, now.ProbeAt(h, q));
    assert now.Mark(g, h).ProbeAt(h, q) == now.ProbeAt(h, q);
    assert now.Mark(g, h).ProbeAt(h, probe) == g;
  }

  // The probe step that gets to some free slot.
  lemma {:induction false} RoomStep<K(!new)>(t: Table<K>, h: u64) returns (q: nat)
    requires t.Wf() && HasRoom(t)
    ensures q < t.Groups() && FreeSlot(t, t.ProbeAt(h, q)).Some?
  {
    var g: nat, s: nat :| g < t.Groups() && s < 15 && t.Tag(g, s) == EMPTY;
    FreeSlotIsLowest(t, g);
    q := ProbesCover(t.GroupIndex(h), t.log, g);
  }

  lemma {:induction false} EraseForgets<K(!new)>(t: Table<K>, g: nat, s: nat, key: K)
    requires t.Wf() && t.At(key, g, s)
    ensures forall k :: t.Erase(g, s).Has(k) <==> t.Has(k) && k != key
  {
    EraseKeepsWf(t, g, s);
    var t' := t.Erase(g, s);
    forall k ensures t'.Has(k) <==> t.Has(k) && k != key {
      if t.Has(k) && k != key {
        var g': nat, s': nat :| t.At(k, g', s');
        assert t'.At(k, g', s');
      }
      if t'.Has(k) {
        var g': nat, s': nat :| t'.At(k, g', s');
        assert t.At(k, g', s');
      }
    }
  }
}
