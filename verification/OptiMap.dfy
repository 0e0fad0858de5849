// The map that changes its backend as it grows.  A backend is taken by its
// contract: it keeps a finite map, and its capacity may do anything at any call.

module OptiMap {
  import opened Wrappers
  import opened Policy

  datatype Backend = Auto(policy: Policy) | Pinned

  function At<K, V>(m: map<K, V>, k: K): Option<V> {
    if k in m then Some(m[k]) else None
  }

  // Any one of the seven concrete maps.  It remembers the capacity it was asked
  // for; the one it has may be another.
  class Inner<K(==, !new), V(!new)> {
    const kind: MapType
    const asked: nat
    var entries: map<K, V>
    var capacity: nat

    constructor (kind: MapType, capacity: nat)
      ensures this.kind == kind && asked == capacity && entries == map[]
    {
      this.kind, asked := kind, capacity;
      entries := map[];
      this.capacity := *;
    }

    method Insert(k: K, v: V) returns (prev: Option<V>)
      modifies this
      ensures entries == old(entries)[k := v] && prev == At(old(entries), k)
    {
      prev := At(entries, k);
      entries := entries[k := v];
      capacity := *;
    }

    method Remove(k: K) returns (prev: Option<V>)
      modifies this
      ensures entries == old(entries) - {k} && prev == At(old(entries), k)
    {
      prev := At(entries, k);
      entries := entries - {k};
      capacity := *;
    }

    // reserve and shrink_to_fit: the entries stay.
    method Resize()
      modifies this
      ensures entries == old(entries)
    {
      capacity := *;
    }

    method Clear()
      modifies this
      ensures entries == map[]
    {
      entries := map[];
      capacity := *;
    }

    // Moves the entries out, in any order.
    method Drain() returns (pairs: seq<(K, V)>)
      modifies this`entries
      ensures entries == map[] && Listed(pairs) == old(entries)
      ensures |pairs| == |old(entries)|
    {
      pairs := [];
      ghost var all := entries;
      while entries.Keys != {}
        invariant DistinctKeys(pairs) && MakeUp(Listed(pairs), entries, all)
        invariant |pairs| + |entries| == |all|
        decreases |entries|
      {
        var k :| k in entries;
        TakeOut(pairs, entries, k, all);
        pairs, entries := pairs + [(k, entries[k])], entries - {k};
      }
    }
  }

  ghost predicate DistinctKeys<K, V>(pairs: seq<(K, V)>) {
    forall i, j :: 0 <= i < j < |pairs| ==> pairs[i].0 != pairs[j].0
  }

  // The map that inserting the pairs left to right builds.
  function Listed<K, V>(pairs: seq<(K, V)>): map<K, V> {
    if pairs == [] then map[]
    else Listed(pairs[..|pairs| - 1])[pairs[|pairs| - 1].0 := pairs[|pairs| - 1].1]
  }

  lemma {:induction false} ListedKeys<K, V>(pairs: seq<(K, V)>)
    ensures forall i :: 0 <= i < |pairs| ==> pairs[i].0 in Listed(pairs)
  {
    if pairs != [] {
      ListedKeys(pairs[..|pairs| - 1]);
    }
  }

  lemma {:induction false} ListedStep<K, V>(pairs: seq<(K, V)>, k: K, v: V)
    requires DistinctKeys(pairs) && k !in Listed(pairs)
    ensures DistinctKeys(pairs + [(k, v)]) && Listed(pairs + [(k, v)]) == Listed(pairs)[k := v]
  {
    ListedKeys(pairs);
    assert (pairs + [(k, v)])[..|pairs|] == pairs;
  }

  // Two maps that share no key make up a third.
  ghost predicate MakeUp<K(!new), V>(m: map<K, V>, left: map<K, V>, all: map<K, V>) {
    && (forall k :: k in all <==> k in m || k in left)
    && (forall k :: k in m ==> k !in left && all[k] == m[k])
    && (forall k :: k in left ==> all[k] == left[k])
  }

  // Moving one entry from the map to the list keeps what they make up.
  lemma {:induction false} TakeOut<K(!new), V>(pairs: seq<(K, V)>, left: map<K, V>, k: K, all: map<K, V>)
    requires DistinctKeys(pairs) && MakeUp(Listed(pairs), left, all) && k in left
    ensures var more, rest := pairs + [(k, left[k])], left - {k};
            DistinctKeys(more) && MakeUp(Listed(more), rest, all) && |rest| + 1 == |left|
  {
    ListedStep(pairs, k, left[k]);
    OneFewer(left, k);
  }

  lemma {:induction false} OneFewer<K, V>(left: map<K, V>, k: K)
    requires k in left
    ensures |left - {k}| + 1 == |left|
  {
    var rest := left - {k};
    assert left.Keys == rest.Keys + {k};
    assert |left| == |left.Keys| && |rest| == |rest.Keys|;
  }

  class OptiMap<K(==, !new), V(==, !new)> {
    var inner: Inner<K, V>
    const backend: Backend

    ghost function Entries(): map<K, V>
      reads this, inner
    {
      inner.entries
    }

    constructor (backend: Backend, kind: MapType, capacity: nat)
      ensures Entries() == map[] && this.backend == backend && inner.kind == kind && fresh(inner)
    {
      this.backend := backend;
      inner := new Inner(kind, capacity);
    }

    // Returns the previous value.  An automatic map that has grown ends up in
    // the backend that the policy names for the capacity it grew to: it stays
    // where it is only if that is it, and the backend it leaves shows the
    // capacity that the new one is made for.
    method Insert(k: K, v: V) returns (prev: Option<V>)
      modifies this, inner
      ensures Entries() == old(Entries())[k := v] && prev == At(old(Entries()), k)
      ensures inner == old(inner) || fresh(inner)
      ensures backend.Auto? && prev == None && inner == old(inner) && inner.capacity != old(inner.capacity) ==>
        inner.kind == backend.policy.BackendFor(inner.capacity)
      ensures inner != old(inner) ==>
        && backend.Auto? && prev == None
        && inner.asked == old(inner).capacity != old(inner.capacity)
        && inner.kind == backend.policy.BackendFor(inner.asked) != old(inner.kind)
    {
      var capBefore := inner.capacity;
      prev := inner.Insert(k, v);
      if backend.Auto? && prev == None {
        var capAfter := inner.capacity;
        if capAfter != capBefore {
          MaybeTransitionAfterGrow(capAfter);
        }
      }
    }

    method MaybeTransitionAfterGrow(newCap: nat)
      requires backend.Auto?
      modifies this, inner`entries
      ensures Entries() == old(Entries()) && inner.kind == backend.policy.BackendFor(newCap)
      ensures inner == old(inner) || (fresh(inner) && inner.asked == newCap)
      ensures inner == old(inner) <==> inner.kind == old(inner.kind)
    {
      var desired := backend.policy.BackendFor(newCap);
      if desired != inner.kind {
        TransitionTo(desired, newCap);
      }
    }

    method Remove(k: K) returns (prev: Option<V>)
      modifies inner
      ensures Entries() == old(Entries()) - {k} && prev == At(old(Entries()), k)
    {
      prev := inner.Remove(k);
    }

    // An automatic map ends up in the backend for the capacity asked for,
    // whatever capacity the backend then takes.
    method Reserve(additional: nat)
      modifies this, inner
      ensures Entries() == old(Entries())
      ensures inner == old(inner) || (fresh(inner) && inner.asked == |old(Entries())| + additional)
      ensures inner == old(inner) <==> inner.kind == old(inner.kind)
      ensures inner.kind == if backend.Auto? then backend.policy.BackendFor(|old(Entries())| + additional)
                            else old(inner.kind)
    {
      var newCap := |inner.entries| + additional;
      if backend.Auto? && backend.policy.BackendFor(newCap) != inner.kind {
        TransitionTo(backend.policy.BackendFor(newCap), newCap);
        return;
      }
      inner.Resize();
    }

    method ShrinkToFit()
      modifies inner
      ensures Entries() == old(Entries())
    {
      inner.Resize();
    }

    method Clear()
      modifies inner
      ensures Entries() == map[]
    {
      inner.Clear();
    }

    // Drains the old backend into a new one, whose growth is not looked at again.
    method TransitionTo(kind: MapType, capacity: nat)
      modifies this, inner`entries
      ensures Entries() == old(Entries()) && inner.kind == kind && inner.asked == capacity && fresh(inner)
    {
      var was := inner;
      inner := new Inner(kind, capacity);
      var pairs := was.Drain();
      for i := 0 to |pairs|
        invariant fresh(inner) && inner.kind == kind && inner.asked == capacity && inner.entries == Listed(pairs[..i])
      {
        assert pairs[..i + 1][..i] == pairs[..i];
        var prev := inner.Insert(pairs[i].0, pairs[i].1);
      }
      assert pairs[..|pairs|] == pairs;
    }

    // Equal length, and every entry of one found in the other.
    method Equals(other: OptiMap<K, V>) returns (eq: bool)
      ensures eq <==> Entries() == other.Entries()
    {
      if |inner.entries| != |other.inner.entries| {
        return false;
      }
      ghost var a, b := Entries(), other.Entries();
      var left := inner.entries;
      while left.Keys != {}
        invariant left.Keys <= a.Keys && forall k :: k in left ==> left[k] == a[k]
        invariant forall k :: k in a && k !in left ==> At(b, k) == Some(a[k])
        decreases |left|
      {
        var k :| k in left;
        if At(other.inner.entries, k) != Some(left[k]) {
          return false;
        }
        left := left - {k};
      }
      SameSizeSubmap(a, b);
      eq := true;
    }
  }

  lemma {:induction false} SameSizeSubmap<K, V>(a: map<K, V>, b: map<K, V>)
    requires |a| == |b| && forall k :: k in a ==> At(b, k) == Some(a[k])
    ensures a == b
  {
    assert a.Keys <= b.Keys;
    assert |b.Keys| == |a.Keys| + |b.Keys - a.Keys|;
    assert |a| == |a.Keys| && |b| == |b.Keys|;
    assert b.Keys - a.Keys == {};
  }

  // --- Whole runs ------------------------------------------------------------

  datatype Op<K, V> = Insert(k: K, v: V) | Remove(k: K) | Get(k: K) | Reserve(n: nat) | Shrink | Clear

  // What a plain map does and answers.
  function Effect<K, V>(m: map<K, V>, op: Op<K, V>): (map<K, V>, Option<V>) {
    match op
    case Insert(k, v) => (m[k := v], At(m, k))
    case Remove(k) => (m - {k}, At(m, k))
    case Get(k) => (m, At(m, k))
    case Reserve(_) => (m, None)
    case Shrink => (m, None)
    case Clear => (map[], None)
  }

  function Replay<K, V>(m: map<K, V>, ops: seq<Op<K, V>>): (map<K, V>, seq<Option<V>>) {
    if ops == [] then (m, [])
    else
      var (before, answers) := Replay(m, ops[..|ops| - 1]);
      var (after, answer) := Effect(before, ops[|ops| - 1]);
      (after, answers + [answer])
  }

  method Do<K(==, !new), V(==, !new)>(m: OptiMap<K, V>, op: Op<K, V>) returns (answer: Option<V>)
    modifies m, m.inner
    ensures (m.Entries(), answer) == Effect(old(m.Entries()), op)
    ensures m.inner == old(m.inner) || fresh(m.inner)
    ensures m.backend == Pinned ==> m.inner.kind == old(m.inner.kind)
  {
    answer := None;
    match op {
      case Insert(k, v) =>
        answer := m.Insert(k, v);
      case Remove(k) => answer := m.Remove(k);
      case Get(k) => answer := At(m.inner.entries, k);
      case Reserve(n) => m.Reserve(n);
      case Shrink => m.ShrinkToFit();
      case Clear => m.Clear();
    }
  }

  // Through any run of operations, whatever the capacities do, the map answers
  // like a plain one; a pinned map never leaves its backend.
  method RunAll<K(==, !new), V(==, !new)>(m: OptiMap<K, V>, ops: seq<Op<K, V>>) returns (answers: seq<Option<V>>)
    modifies m, m.inner
    ensures (m.Entries(), answers) == Replay(old(m.Entries()), ops)
    ensures m.backend == Pinned ==> m.inner.kind == old(m.inner.kind)
  {
    answers := [];
    for i := 0 to |ops|
      invariant (m.Entries(), answers) == Replay(old(m.Entries()), ops[..i])
      invariant m.inner == old(m.inner) || fresh(m.inner)
      invariant m.backend == Pinned ==> m.inner.kind == old(m.inner.kind)
    {
      assert ops[..i + 1][..i] == ops[..i];
      var answer := Do(m, ops[i]);
      answers := answers + [answer];
    }
    assert ops[..|ops|] == ops;
  }
}
