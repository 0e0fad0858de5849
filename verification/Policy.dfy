// Which backend a map of a given capacity should use.

module Policy {
  datatype MapType = Ufm | Splitsies | Ipo | Tomb | Gaps | Ipo64 | FlatBTree

  datatype Band = Band(min: nat, backend: MapType)

  datatype Policy = Policy(bands: seq<Band>) {
    // Bands stand in strictly ascending order of their lower ends.
    ghost predicate Sorted() {
      Ordered(bands)
    }

    // How many leading bands start at or below c.
    function Reached(c: nat): (n: nat)
      ensures n <= |bands|
      ensures forall i :: 0 <= i < n ==> bands[i].min <= c
      ensures n < |bands| ==> c < bands[n].min
    {
      ReachedIn(bands, c)
    }

    // Adds a band, or replaces the backend of the band that starts at the same capacity.
    function AddBand(min: nat, backend: MapType): Policy {
      var n := Reached(min);
      var b := Band(min, backend);
      if n > 0 && bands[n - 1].min == min then Policy(bands[n - 1 := b])
      else Policy(bands[..n] + [b] + bands[n..])
    }

    function BackendFor(c: nat): MapType {
      var n := Reached(c);
      var idx := if n > 0 then n - 1 else 0;
      if idx < |bands| then bands[idx].backend else Splitsies
    }

    // The band that applies to a capacity, said without an algorithm: it starts
    // at or below c and no other such band starts later.
    ghost predicate Applies(i: nat, c: nat) {
      && i < |bands| && bands[i].min <= c
      && forall j :: 0 <= j < |bands| && bands[j].min <= c ==> bands[j].min <= bands[i].min
    }
  }

  function ReachedIn(bands: seq<Band>, c: nat): (n: nat)
    ensures n <= |bands|
    ensures forall i :: 0 <= i < n ==> bands[i].min <= c
    ensures n < |bands| ==> c < bands[n].min
  {
    if bands == [] || c < bands[0].min then 0
    else
      var n := 1 + ReachedIn(bands[1..], c);
      assert forall i :: 0 < i < n ==> bands[i] == bands[1..][i - 1];
      n
  }

  ghost predicate Ordered(bands: seq<Band>) {
    forall i, j :: 0 <= i < j < |bands| ==> bands[i].min < bands[j].min
  }

  // Bands in front of position n start below min, those behind it above.
  ghost predicate Fits(bands: seq<Band>, n: nat, min: nat) {
    && n <= |bands|
    && (forall i :: 0 <= i < n ==> bands[i].min < min)
    && (forall i :: n <= i < |bands| ==> min < bands[i].min)
  }

  lemma {:induction false} InsertedStaysOrdered(bands: seq<Band>, n: nat, b: Band)
    requires Ordered(bands) && Fits(bands, n, b.min)
    ensures Ordered(bands[..n] + [b] + bands[n..])
    ensures forall x :: x in bands[..n] + [b] + bands[n..] <==> x == b || (x in bands && x.min != b.min)
  {
    var s := bands[..n] + [b] + bands[n..];
    assert bands == bands[..n] + bands[n..];
    forall i, j | 0 <= i < j < |s| ensures s[i].min < s[j].min {
      assert s[i] == if i < n then bands[i] else if i == n then b else bands[i - 1];
      assert s[j] == if j < n then bands[j] else if j == n then b else bands[j - 1];
    }
  }

  lemma {:induction false} ReplacedStaysOrdered(bands: seq<Band>, n: nat, b: Band)
    requires Ordered(bands) && n < |bands| && bands[n].min == b.min
    ensures Ordered(bands[n := b])
    ensures forall x :: x in bands[n := b] <==> x == b || (x in bands && x.min != b.min)
  {
    var s := bands[n := b];
    assert s[n] == b;
    forall x | x in bands && x.min != b.min ensures x in s {
      var i :| 0 <= i < |bands| && bands[i] == x;
      assert s[i] == x;
    }
  }

  lemma {:induction false} ReachedFits(p: Policy, min: nat)
    requires p.Sorted()
    ensures var n := p.Reached(min); (n > 0 && p.bands[n - 1].min == min) || Fits(p.bands, n, min)
  {
    var n := p.Reached(min);
    forall i | 0 <= i < n ensures p.bands[i].min <= p.bands[n - 1].min {
      assert i < n - 1 ==> p.bands[i].min < p.bands[n - 1].min;
    }
    forall i | n <= i < |p.bands| ensures min < p.bands[i].min {
      assert i > n ==> p.bands[n].min < p.bands[i].min;
    }
  }

  // Whatever is added, in whatever order, the bands stay strictly sorted; they
  // are those that start elsewhere, and the new one.
  lemma {:induction false} AddBandReplaces(p: Policy, min: nat, backend: MapType)
    requires p.Sorted()
    ensures p.AddBand(min, backend).Sorted()
    ensures forall x ::
      x in p.AddBand(min, backend).bands <==> x == Band(min, backend) || (x in p.bands && x.min != min)
  {
    var n, b := p.Reached(min), Band(min, backend);
    ReachedFits(p, min);
    if n > 0 && p.bands[n - 1].min == min {
      ReplacedStaysOrdered(p.bands, n - 1, b);
    } else {
      InsertedStaysOrdered(p.bands, n, b);
    }
  }

  // The chosen backend is that of the last band starting at or below the capacity.
  lemma {:induction false} BackendForIsGreatestBand(p: Policy, c: nat, i: nat)
    requires p.Sorted() && p.Applies(i, c)
    ensures p.BackendFor(c) == p.bands[i].backend
  {
    var n := p.Reached(c);
    assert i < n && p.bands[n - 1].min <= p.bands[i].min;
    assert i == n - 1;
  }

  // What the documentation promises: the band that applies, and Splitsies when none does.
  ghost predicate AsDocumented(p: Policy, c: nat, b: MapType) {
    && (forall i: nat :: p.Applies(i, c) ==> b == p.bands[i].backend)
    && ((forall i :: 0 <= i < |p.bands| ==> c < p.bands[i].min) ==> b == Splitsies)
  }

  // The code keeps that promise exactly when the policy is empty, reaches down
  // to the capacity, or has Splitsies in its first band anyway.
  lemma {:induction false} DocumentedWhenReached(p: Policy, c: nat)
    requires p.Sorted()
    ensures AsDocumented(p, c, p.BackendFor(c)) <==>
            p.bands == [] || p.bands[0].min <= c || p.bands[0].backend == Splitsies
  {
    forall i: nat | p.Applies(i, c) ensures p.BackendFor(c) == p.bands[i].backend {
      BackendForIsGreatestBand(p, c, i);
    }
    if p.bands != [] && c < p.bands[0].min {
      forall i | 0 <= i < |p.bands| ensures c < p.bands[i].min {
        assert i > 0 ==> p.bands[0].min < p.bands[i].min;
      }
    }
  }

  // A policy whose one band starts above the capacity does not fall back to Splitsies.
  lemma {:induction false} FallbackIsNotSplitsies()
    ensures var p := Policy([]).AddBand(1024, Ipo);
            p.Sorted() && p.BackendFor(16) == Ipo && !AsDocumented(p, 16, p.BackendFor(16))
  {
    var p := Policy([]).AddBand(1024, Ipo);
    assert p.bands == [Band(1024, Ipo)];
    DocumentedWhenReached(p, 16);
  }
}
