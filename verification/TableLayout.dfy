// The metadata and buckets of RawTable as a value, its invariant, and what find and
// insert_no_check do to it (src/raw/mod.rs, src/raw/group.rs, src/lib.rs).
module TableLayout {
  import opened Wrappers
  import opened Bits
  import opened Hashing
  import opened Probing
  import opened Seqs
  import opened GroupOps

  // The three builds of hash_tag.
  datatype TagFeature = ReducedHash128 | SaturatingIncrement | FixUp

  function HashTag(feature: TagFeature, h: u64): u8 {
    var low := h % 256;
    match feature
    case ReducedHash128 => if low % 2 == 0 then low + 1 else low
    case SaturatingIncrement => if low < 255 then low + 1 else 255
    case FixUp => if low == 0 then 1 else low
  }

  function HashOf<K>(hash: K -> u64, key: K): u64 {
    hash(key)
  }

  lemma {:induction false} TagIsNeverEmpty(feature: TagFeature, h: u64)
    ensures HashTag(feature, h) != EMPTY
  {
  }

  // Which hashes share a tag: with 128 tags those that differ in the lowest bit only, with 255 those of two bytes only.
  lemma {:induction false} TagsCollide(feature: TagFeature, h: u64, g: u64)
    ensures h % 256 == g % 256 ==> HashTag(feature, h) == HashTag(feature, g)
    ensures HashTag(ReducedHash128, h) == HashTag(ReducedHash128, g) <==> h % 256 / 2 == g % 256 / 2
    ensures HashTag(SaturatingIncrement, h) == HashTag(SaturatingIncrement, g) <==>
      h % 256 == g % 256 || (h % 256 >= 254 && g % 256 >= 254)
    ensures HashTag(FixUp, h) == HashTag(FixUp, g) <==> h % 256 == g % 256 || (h % 256 <= 1 && g % 256 <= 1)
  {
    var x, y := h % 256, g % 256;
    assert x == 2 * (x / 2) + x % 2 && y == 2 * (y / 2) + y % 2;
  }

  lemma {:induction false} QuotientBelow(x: nat, a: pos, b: pos)
    requires x < a * b
    ensures x / b < a
  {
    var q := x / b;
    assert x == b * q + x % b;
    MoreIsMore(b, q, a);
    MoreIsMore(b, a, q);
  }

  lemma {:induction false} ShrBelow(x: nat, s: nat, bound: pos)
    requires x < bound * Pow2(s)
    ensures Shr(x, s) == x / Pow2(s) < bound
  {
    ShrIsDivision(x, s);
    QuotientBelow(x, bound, Pow2(s));
  }

  lemma {:induction false} WordFactors(h: u64, a: nat, b: nat)
    requires a + b == 64
    ensures h < Pow2(a) * Pow2(b)
  {
    WordSizes();
    Pow2Add(a, b);
  }

  // A 64-bit word shifted right by all but k of its bits; the shift is taken modulo 64.
  lemma {:induction false} TopBits(h: u64, k: nat, rest: nat)
    requires k < 64 && k + rest == 64
    ensures Masked(Shr(h, rest % 64), Pow2(k)) == h / Pow2(rest)
  {
    WordFactors(h, k, rest);
    ShrBelow(h, rest, Pow2(k));
    if k == 0 {
      assert rest % 64 == 0;
    } else {
      assert rest % 64 == rest;
    }
  }

  // groups = 2^log groups of 15 slots: 16 metadata bytes and 15 buckets each.
  datatype Table<!K(==,!new)> = Table(feature: TagFeature, hash: K -> u64, log: nat, meta: seq<u8>, buckets: seq<K>) {
    function Groups(): nat { Pow2(log) }

    predicate Shaped() {
      log < 64 && |meta| == 16 * Groups() && |buckets| == 15 * Groups()
    }

    // (h >> shift) & mask with shift = 64 - log.
    function GroupIndex(h: u64): nat
      requires Shaped()
    {
      Masked(Shr(h, (64 - log) % 64), Groups())
    }

    // The home group of a hash is given by its highest log bits.
    lemma {:induction false} HomeIsTopBits(h: u64)
      requires Shaped()
      ensures GroupIndex(h) == h / Pow2(64 - log)
    {
      TopBits(h, log, 64 - log);
    }

    function ProbeAt(h: u64, p: nat): (g: nat)
      requires Shaped()
      ensures g < Groups()
    {
      ProbeSeq(GroupIndex(h), p, Groups())
    }

    function Tag(g: nat, s: nat): u8
      requires Shaped() && g < Groups() && s < 15
    {
      meta[16 * g + s]
    }

    function Key(g: nat, s: nat): K
      requires Shaped() && g < Groups() && s < 15
    {
      buckets[15 * g + s]
    }

    // Group g has the overflow bit of hash h set.
    predicate Marked(g: nat, h: u64)
      requires Shaped() && g < Groups()
    {
      Bit(meta[16 * g + 15], h % 8)
    }

    function GroupBytes(g: nat): (bytes: seq<u8>)
      requires Shaped() && g < Groups()
      ensures |bytes| == 16
    {
      meta[16 * g..16 * g + 16]
    }

    ghost predicate At(key: K, g: nat, s: nat)
      requires Shaped()
    {
      g < Groups() && s < 15 && Tag(g, s) != EMPTY && Key(g, s) == key
    }

    ghost predicate Has(key: K)
      requires Shaped()
    {
      exists g: nat, s: nat :: At(key, g, s)
    }

    ghost predicate InGroup(key: K, g: nat)
      requires Shaped()
    {
      exists s: nat :: At(key, g, s)
    }

    // Every group probed for h before step p has h's overflow bit set.
    ghost predicate Trail(h: u64, p: nat)
      requires Shaped()
    {
      p > 0 ==> Trail(h, p - 1) && Marked(ProbeAt(h, p - 1), h)
    }

    lemma {:induction false} TrailMarks(h: u64, p: nat, q: nat)
      requires Shaped() && Trail(h, p) && q < p
      ensures Marked(ProbeAt(h, q), h)
    {
      if q < p - 1 { TrailMarks(h, p - 1, q); }
    }

    // A probe for h gets to group g.
    ghost predicate Reaches(h: u64, g: nat)
      requires Shaped()
    {
      exists p: nat :: p < Groups() && ProbeAt(h, p) == g && Trail(h, p)
    }

    // The slot is empty, or holds the tag of its key and a probe for the key gets to it.
    ghost predicate SlotOk(g: nat, s: nat)
      requires Shaped() && g < Groups() && s < 15
    {
      Tag(g, s) != EMPTY ==>
        Tag(g, s) == HashTag(feature, HashOf(hash, Key(g, s))) && Reaches(HashOf(hash, Key(g, s)), g)
    }

    // The displaced-key invariant, with no key stored twice.
    ghost predicate Wf() {
      && Shaped()
      && (forall g: nat, s: nat :: g < Groups() && s < 15 ==> SlotOk(g, s))
      && NoRepeats()
    }

    ghost predicate NoRepeats()
      requires Shaped()
    {
      forall key, g: nat, s: nat, g': nat, s': nat :: At(key, g, s) && At(key, g', s') ==> g == g' && s == s'
    }

    function Write(g: nat, s: nat, tag: u8, key: K): (t: Table<K>)
      requires Shaped() && g < Groups() && s < 15
      ensures t.Shaped() && t.Groups() == Groups()
    {
      this.(meta := meta[16 * g + s := tag], buckets := buckets[15 * g + s := key])
    }

    function Erase(g: nat, s: nat): (t: Table<K>)
      requires Shaped() && g < Groups() && s < 15
      ensures t.Shaped() && t.Groups() == Groups()
    {
      this.(meta := meta[16 * g + s := EMPTY])
    }

    function MarkByte(g: nat, h: u64): u8
      requires Shaped() && g < Groups()
    {
      WordSizes();
      Pow2Monotone(h % 8, 8);
      OrBound(meta[16 * g + 15], Pow2(h % 8), 8);
      Or(meta[16 * g + 15], Pow2(h % 8))
    }

    // set_overflow_bit(1 << (h & 7)).
    function Mark(g: nat, h: u64): (t: Table<K>)
      requires Shaped() && g < Groups()
      ensures t.Shaped() && t.Groups() == Groups()
    {
      this.(meta := meta[16 * g + 15 := MarkByte(g, h)])
    }
  }

  // ---- marking and writing keep the invariant ----

  lemma {:induction false} MarkEffect<K(!new)>(t: Table<K>, g: nat, h: u64)
    requires t.Shaped() && g < t.Groups()
    ensures var t' := t.Mark(g, h);
      && (forall g', s :: 0 <= g' < t.Groups() && 0 <= s < 15 ==>
          t'.Tag(g', s) == t.Tag(g', s) && t'.Key(g', s) == t.Key(g', s))
      && (forall g', h': u64 :: 0 <= g' < t.Groups() ==> (t'.Marked(g', h') <==>
          t.Marked(g', h') || (g' == g && h' % 8 == h % 8)))
  {
    var t' := t.Mark(g, h);
    var byte := t.meta[16 * g + 15];
    forall g', h': u64 | 0 <= g' < t.Groups()
      ensures t'.Marked(g', h') <==> t.Marked(g', h') || (g' == g && h' % 8 == h % 8)
    {
      BitOfOr(byte, Pow2(h % 8), h' % 8);
      BitOfPow2(h % 8, h' % 8);
    }
  }

  // t' has the same keys as t and at least its overflow bits.
  ghost predicate Grows<K(!new)>(t: Table<K>, t': Table<K>) {
    && t.Shaped() && t'.Shaped() && t'.log == t.log && t'.hash == t.hash && t'.feature == t.feature
    && (forall g: nat, h: u64 :: g < t.Groups() && t.Marked(g, h) ==> t'.Marked(g, h))
  }

  lemma {:induction false} ReachesGrows<K(!new)>(t: Table<K>, t': Table<K>, h: u64, g: nat)
    requires Grows(t, t') && t.Reaches(h, g)
    ensures t'.Reaches(h, g)
  {
    var p: nat :| p < t.Groups() && t.ProbeAt(h, p) == g && t.Trail(h, p);
    assert t'.ProbeAt(h, p) == g;
    TrailGrows(t, t', h, p);
  }

  lemma {:induction false} TrailGrows<K(!new)>(t: Table<K>, t': Table<K>, h: u64, p: nat)
    requires Grows(t, t') && t.Trail(h, p)
    ensures t'.Trail(h, p)
  {
    if p > 0 {
      TrailGrows(t, t', h, p - 1);
      assert t'.ProbeAt(h, p - 1) == t.ProbeAt(h, p - 1);
    }
  }

  lemma {:induction false} MarkKeepsWf<K(!new)>(t: Table<K>, g: nat, h: u64)
    requires t.Wf() && g < t.Groups()
    ensures t.Mark(g, h).Wf() && Grows(t, t.Mark(g, h))
    ensures forall key, g', s :: t.Mark(g, h).At(key, g', s) <==> t.At(key, g', s)
  {
    var t' := t.Mark(g, h);
    MarkEffect(t, g, h);
    assert Grows(t, t');
    forall g': nat, s: nat | g' < t.Groups() && s < 15 ensures t'.SlotOk(g', s) {
      assert t.SlotOk(g', s);
      if t.Tag(g', s) != EMPTY { ReachesGrows(t, t', HashOf(t.hash, t.Key(g', s)), g'); }
    }
    forall key, g1: nat, s1: nat, g2: nat, s2: nat | t'.At(key, g1, s1) && t'.At(key, g2, s2) ensures g1 == g2 &&
        s1 == s2 {
      assert t.At(key, g1, s1) && t.At(key, g2, s2);
    }
  }

  lemma {:induction false} WriteEffect<K(!new)>(t: Table<K>, g: nat, s: nat, tag: u8, key: K)
    requires t.Shaped() && g < t.Groups() && s < 15
    ensures var t' := t.Write(g, s, tag, key);
      && t'.Tag(g, s) == tag && t'.Key(g, s) == key
      && (forall g', s' :: 0 <= g' < t.Groups() && 0 <= s' < 15 && (g' != g || s' != s) ==>
           t'.Tag(g', s') == t.Tag(g', s') && t'.Key(g', s') == t.Key(g', s'))
      && Grows(t, t')
  {
  }

  // Writing an absent key into an empty slot its probe gets to.
  lemma {:induction false} WriteKeepsWf<K(!new)>(t: Table<K>, g: nat, s: nat, key: K)
    requires t.Wf() && g < t.Groups() && s < 15 && t.Tag(g, s) == EMPTY
    requires !t.Has(key) && t.Reaches(HashOf(t.hash, key), g)
    ensures t.Write(g, s, HashTag(t.feature, HashOf(t.hash, key)), key).Wf()
    ensures forall key', g', s' :: t.Write(g, s, HashTag(t.feature, HashOf(t.hash, key)), key).At(key', g', s') <==>
      (t.At(key', g', s') || (key' == key && g' == g && s' == s))
  {
    var tag := HashTag(t.feature, HashOf(t.hash, key));
    var t' := t.Write(g, s, tag, key);
    WriteEffect(t, g, s, tag, key);
    forall g': nat, s': nat | g' < t.Groups() && s' < 15 ensures t'.SlotOk(g', s') {
      assert t.SlotOk(g', s');
      if g' == g && s' == s {
        ReachesGrows(t, t', HashOf(t.hash, key), g);
      } else if t.Tag(g', s') != EMPTY {
        ReachesGrows(t, t', HashOf(t.hash, t.Key(g', s')), g');
      }
    }
    assert forall key', g', s' :: t'.At(key', g', s') <==> (t.At(key', g', s') || (key' == key && g' == g && s' == s));
    forall k, g1: nat, s1: nat, g2: nat, s2: nat | t'.At(k, g1, s1) && t'.At(k, g2, s2) ensures g1 == g2 && s1 == s2 {
      if k != key { assert t.At(k, g1, s1) && t.At(k, g2, s2); }
    }
  }

  lemma {:induction false} EraseKeepsWf<K(!new)>(t: Table<K>, g: nat, s: nat)
    requires t.Wf() && g < t.Groups() && s < 15
    ensures t.Erase(g, s).Wf() && Grows(t, t.Erase(g, s)) && Grows(t.Erase(g, s), t)
    ensures forall key, g', s' :: t.Erase(g, s).At(key, g', s') <==> t.At(key, g', s') && !(g' == g && s' == s)
  {
    var t' := t.Erase(g, s);
    assert Grows(t, t');
    forall g': nat, s': nat | g' < t.Groups() && s' < 15 ensures t'.SlotOk(g', s') {
      assert t.SlotOk(g', s');
      if t'.Tag(g', s') != EMPTY { ReachesGrows(t, t', HashOf(t.hash, t.Key(g', s')), g'); }
    }
    forall k, g1: nat, s1: nat, g2: nat, s2: nat | t'.At(k, g1, s1) && t'.At(k, g2, s2) ensures g1 == g2 && s1 == s2 {
      assert t.At(k, g1, s1) && t.At(k, g2, s2);
    }
  }

  // A key stored outside its home group has its overflow bit set in the home group.
  lemma {:induction false} DisplacedIsMarked<K(!new)>(t: Table<K>, key: K, g: nat, s: nat)
    requires t.Wf() && t.At(key, g, s) && g != t.GroupIndex(HashOf(t.hash, key))
    ensures t.Marked(t.GroupIndex(HashOf(t.hash, key)), HashOf(t.hash, key))
  {
    var h := HashOf(t.hash, key);
    assert t.SlotOk(g, s);
    var p: nat :| p < t.Groups() && t.ProbeAt(h, p) == g && t.Trail(h, p);
    t.TrailMarks(h, p, 0);
  }

  // ---- lookup ----

  // The lookup for key returns at probe step p: it sees the key there, or the group is not marked.
  ghost predicate StopsAt<K(!new)>(t: Table<K>, key: K, p: nat)
    requires t.Shaped()
  {
    var h := HashOf(t.hash, key);
    t.InGroup(key, t.ProbeAt(h, p)) || !t.Marked(t.ProbeAt(h, p), h)
  }

  // Every group carries the overflow bit of h.
  ghost predicate AllMarked<K(!new)>(t: Table<K>, h: u64)
    requires t.Shaped()
  {
    forall g: nat :: g < t.Groups() ==> t.Marked(g, h)
  }

  // The first step that stops sees the key exactly when the table has it.
  lemma {:induction false} FirstStopAnswers<K(!new)>(t: Table<K>, key: K, p: nat)
    requires t.Wf() && StopsAt(t, key, p) && forall q: nat :: q < p ==> !StopsAt(t, key, q)
    ensures t.InGroup(key, t.ProbeAt(HashOf(t.hash, key), p)) <==> t.Has(key)
  {
    var h := HashOf(t.hash, key);
    if t.Has(key) {
      var g: nat, s: nat :| t.At(key, g, s);
      assert t.SlotOk(g, s);
      var p': nat :| p' < t.Groups() && t.ProbeAt(h, p') == g && t.Trail(h, p');
      assert t.InGroup(key, g) && StopsAt(t, key, p');
      if p < p' { t.TrailMarks(h, p', p); }
    }
  }

  // The lookup never returns exactly when the key is absent and every group has its overflow bit set;
  // a lookup that has not returned within one round of the groups never will.
  lemma {:induction false} LookupLoops<K(!new)>(t: Table<K>, key: K)
    requires t.Wf()
    ensures (forall p: nat :: !StopsAt(t, key, p)) <==> !t.Has(key) && AllMarked(t, HashOf(t.hash, key))
    ensures (forall p: nat :: p < t.Groups() ==> !StopsAt(t, key, p)) ==> forall p: nat :: !StopsAt(t, key, p)
  {
    var h := HashOf(t.hash, key);
    if forall p: nat :: p < t.Groups() ==> !StopsAt(t, key, p) {
      forall g: nat | g < t.Groups() ensures t.Marked(g, h) && !t.InGroup(key, g) {
        var p := ProbesCover(t.GroupIndex(h), t.log, g);
        assert !StopsAt(t, key, p);
      }
      forall g: nat, s: nat ensures !t.At(key, g, s) {
        if g < t.Groups() { assert !t.InGroup(key, g); }
      }
    }
  }

  // ---- insertion without checks ----

  // The lowest empty slot of group g at or after s.
  function FreeSlotFrom<K(!new)>(t: Table<K>, g: nat, s: nat): (r: Option<nat>)
    requires t.Shaped() && g < t.Groups() && s <= 15
    ensures r.Some? ==> r.value < 15
    decreases 15 - s
  {
    if s == 15 then None else if t.Tag(g, s) == EMPTY then Some(s) else FreeSlotFrom(t, g, s + 1)
  }

  function FreeSlot<K(!new)>(t: Table<K>, g: nat): Option<nat>
    requires t.Shaped() && g < t.Groups()
  {
    FreeSlotFrom(t, g, 0)
  }

  lemma {:induction false} FreeSlotFromIsLowest<K(!new)>(t: Table<K>, g: nat, s: nat)
    requires t.Shaped() && g < t.Groups() && s <= 15
    ensures match FreeSlotFrom(t, g, s)
      case Some(r) => s <= r && t.Tag(g, r) == EMPTY && forall s': nat :: s <= s' < r ==> t.Tag(g, s') != EMPTY
      case None => forall s': nat :: s <= s' < 15 ==> t.Tag(g, s') != EMPTY
    decreases 15 - s
  {
    if s < 15 { FreeSlotFromIsLowest(t, g, s + 1); }
  }

  lemma {:induction false} FreeSlotIsLowest<K(!new)>(t: Table<K>, g: nat)
    requires t.Shaped() && g < t.Groups()
    ensures FreeSlot(t, g).Some? ==> t.Tag(g, FreeSlot(t, g).value) == EMPTY
    ensures FreeSlot(t, g).Some? ==> forall s: nat :: s < FreeSlot(t, g).value ==> t.Tag(g, s) != EMPTY
    ensures FreeSlot(t, g).None? ==> forall s: nat :: s < 15 ==> t.Tag(g, s) != EMPTY
  {
    FreeSlotFromIsLowest(t, g, 0);
  }

  // match_empty(meta).lowest_set_bit() is that slot.
  lemma {:induction false} FreeSlotIsLowestBit<K(!new)>(t: Table<K>, g: nat)
    requires t.Shaped() && g < t.Groups()
    ensures LowestSetBit(MatchByte(t.GroupBytes(g), EMPTY)) == FreeSlot(t, g)
  {
    var bytes := t.GroupBytes(g);
    var mask := MatchByte(bytes, EMPTY);
    MatchByteSlots(bytes, EMPTY);
    assert forall s: nat :: s < 15 ==> bytes[s] == t.Tag(g, s);
    FreeSlotIsLowest(t, g);
    match FreeSlot(t, g) {
      case Some(s) =>
        assert Bit(mask, s);
        LowestBit(mask, s);
      case None =>
        if mask != 0 { SomeBit(mask); }
    }
  }

  lemma {:induction false} LowestBit(mask: nat, s: nat)
    requires Bit(mask, s) && forall s': nat :: s' < s ==> !Bit(mask, s')
    ensures LowestSetBit(mask) == Some(s)
  {
    if mask == 0 { ZeroBit(s); } else { SomeBit(mask); }
  }

  // insert_no_check from probe step p: mark full groups, write into the first free slot.
  function PutFrom<K(!new)>(t: Table<K>, key: K, p: nat): (t': Table<K>)
    requires t.Shaped() && p < t.Groups()
    ensures t'.Shaped() && t'.log == t.log && t'.hash == t.hash && t'.feature == t.feature
    decreases t.Groups() - p
  {
    var h := HashOf(t.hash, key);
    var g := t.ProbeAt(h, p);
    match FreeSlot(t, g)
    case Some(s) =>
      t.Write(g, s, HashTag(t.feature, h), key)
    case None =>
      if p + 1 < t.Groups() then PutFrom(t.Mark(g, h), key, p + 1) else t
  }

  function Put<K(!new)>(t: Table<K>, key: K): Table<K>
    requires t.Shaped()
  {
    PutFrom(t, key, 0)
  }

  ghost predicate HasRoom<K(!new)>(t: Table<K>)
    requires t.Shaped()
  {
    exists g: nat, s: nat :: g < t.Groups() && s < 15 && t.Tag(g, s) == EMPTY
  }

  // t' stores what t does, and key.
  ghost predicate Adds<K(!new)>(t: Table<K>, t': Table<K>, key: K)
    requires t.Shaped() && t'.Shaped()
  {
    forall k :: t'.Has(k) <==> t.Has(k) || k == key
  }

  lemma {:induction false} PutFromAdds<K(!new)>(t: Table<K>, key: K, p: nat, q: nat) returns (r: Table<K>)
    requires t.Wf() && !t.Has(key) && t.Trail(HashOf(t.hash, key), p)
    requires p <= q < t.Groups() && FreeSlot(t, t.ProbeAt(HashOf(t.hash, key), q)).Some?
    ensures r == PutFrom(t, key, p) && r.Wf() && Adds(t, r, key)
    decreases t.Groups() - p
  {
    var g := t.ProbeAt(HashOf(t.hash, key), p);
    match FreeSlot(t, g) {
      case Some(s) =>
        FreeSlotIsLowest(t, g);
        WriteKeepsWf(t, g, s, key);
        WriteAdds(t, g, s, key);
        r := t.Write(g, s, HashTag(t.feature, HashOf(t.hash, key)), key);
      case None =>
        MarkStep(t, key, p, q);
        var t' := t.Mark(g, HashOf(t.hash, key));
        r := PutFromAdds(t', key, p + 1, q);
        SameKeysAdds(t, t', r, key);
    }
  }

  lemma {:induction false} SameKeysAdds<K(!new)>(t: Table<K>, t': Table<K>, t'': Table<K>, key: K)
    requires t.Shaped() && t'.Shaped() && t''.Shaped() && Adds(t', t'', key)
    requires forall k :: t'.Has(k) <==> t.Has(k)
    ensures Adds(t, t'', key)
  {
  }

  // Marking the full group at step p leaves everything ready for step p + 1.
  lemma {:induction false} MarkStep<K(!new)>(t: Table<K>, key: K, p: nat, q: nat)
    requires t.Wf() && t.Trail(HashOf(t.hash, key), p)
    requires p <= q < t.Groups() && FreeSlot(t, t.ProbeAt(HashOf(t.hash, key), q)).Some?
    requires FreeSlot(t, t.ProbeAt(HashOf(t.hash, key), p)).None?
    ensures var t' := t.Mark(t.ProbeAt(HashOf(t.hash, key), p), HashOf(t.hash, key));
      && p < q && t'.Wf() && t'.Trail(HashOf(t.hash, key), p + 1)
      && FreeSlot(t', t'.ProbeAt(HashOf(t.hash, key), q)).Some?
      && (forall k :: t'.Has(k) <==> t.Has(k))
  {
    var h := HashOf(t.hash, key);
    var g := t.ProbeAt(h, p);
    MarkKeepsWf(t, g, h);
    MarkExtendsTrail(t, h, p);
    MarkKeepsFree(t, g, h, t.ProbeAt(h, q));
    MarkKeepsHas(t, g, h);
  }

  lemma {:induction false} MarkKeepsHas<K(!new)>(t: Table<K>, g: nat, h: u64)
    requires t.Wf() && g < t.Groups()
    ensures forall k :: t.Mark(g, h).Has(k) <==> t.Has(k)
  {
    var t' := t.Mark(g, h);
    MarkKeepsWf(t, g, h);
    forall k ensures t'.Has(k) <==> t.Has(k) {
      if t.Has(k) { var g': nat, s: nat :| t.At(k, g', s); assert t'.At(k, g', s); }
      if t'.Has(k) { var g': nat, s: nat :| t'.At(k, g', s); assert t.At(k, g', s); }
    }
  }

  lemma {:induction false} WriteAdds<K(!new)>(t: Table<K>, g: nat, s: nat, key: K)
    requires t.Wf() && g < t.Groups() && s < 15 && t.Tag(g, s) == EMPTY
    requires !t.Has(key) && t.Reaches(HashOf(t.hash, key), g)
    ensures Adds(t, t.Write(g, s, HashTag(t.feature, HashOf(t.hash, key)), key), key)
  {
    var t' := t.Write(g, s, HashTag(t.feature, HashOf(t.hash, key)), key);
    WriteKeepsWf(t, g, s, key);
    assert t'.At(key, g, s);
    forall k | t.Has(k) ensures t'.Has(k) {
      var g': nat, s': nat :| t.At(k, g', s');
      assert t'.At(k, g', s');
    }
  }

  lemma {:induction false} MarkExtendsTrail<K(!new)>(t: Table<K>, h: u64, p: nat)
    requires t.Shaped() && t.Trail(h, p)
    ensures t.Mark(t.ProbeAt(h, p), h).Trail(h, p + 1)
  {
    var t' := t.Mark(t.ProbeAt(h, p), h);
    MarkEffect(t, t.ProbeAt(h, p), h);
    TrailGrows(t, t', h, p);
    assert t'.ProbeAt(h, p) == t.ProbeAt(h, p);
  }

  lemma {:induction false} MarkKeepsFree<K(!new)>(t: Table<K>, g: nat, h: u64, g': nat)
    requires t.Shaped() && g < t.Groups() && g' < t.Groups()
    ensures FreeSlot(t.Mark(g, h), g').Some? <==> FreeSlot(t, g').Some?
  {
    var t' := t.Mark(g, h);
    MarkEffect(t, g, h);
    FreeSlotIsLowest(t, g');
    FreeSlotIsLowest(t', g');
    assert forall s: nat :: s < 15 ==> t'.Tag(g', s) == t.Tag(g', s);
  }

  // Wherever the room is, the insertion finds it and keeps the invariant.
  lemma {:induction false} PutAdds<K(!new)>(t: Table<K>, key: K)
    requires t.Wf() && !t.Has(key) && HasRoom(t)
    ensures Put(t, key).Wf() && Adds(t, Put(t, key), key)
  {
    var g: nat, s: nat :| g < t.Groups() && s < 15 && t.Tag(g, s) == EMPTY;
    FreeSlotIsLowest(t, g);
    var q := ProbesCover(t.GroupIndex(HashOf(t.hash, key)), t.log, g);
    var r := PutFromAdds(t, key, 0, q);
  }

  // ---- room ----

  lemma {:induction false} BucketAt<K(!new)>(t: Table<K>, n: nat) returns (g: nat, s: nat)
    requires t.Shaped() && n < |t.buckets|
    ensures g < t.Groups() && s < 15 && n == 15 * g + s && t.Key(g, s) == t.buckets[n]
  {
    g, s := n / 15, n % 15;
  }

  lemma {:induction false} FullBucket<K(!new)>(t: Table<K>, n: nat)
    requires t.Wf() && !HasRoom(t) && n < |t.buckets|
    ensures t.Has(t.buckets[n])
    ensures forall i :: 0 <= i < n ==> t.buckets[i] != t.buckets[n]
  {
    var g, s := BucketAt(t, n);
    assert t.At(t.buckets[n], g, s);
    forall i | 0 <= i < n ensures t.buckets[i] != t.buckets[n] {
      var g', s' := BucketAt(t, i);
      assert t.At(t.buckets[i], g', s');
    }
  }

  // A table with fewer keys than buckets has a free slot.
  lemma {:induction false} FewKeysLeaveRoom<K(!new)>(t: Table<K>, contents: set<K>)
    requires t.Wf() && |contents| < |t.buckets| && forall key :: t.Has(key) ==> key in contents
    ensures HasRoom(t)
  {
    if !HasRoom(t) {
      forall i, j | 0 <= i < j < |t.buckets| ensures t.buckets[i] != t.buckets[j] { FullBucket(t, j); }
      forall i | 0 <= i < |t.buckets| ensures t.buckets[i] in contents { FullBucket(t, i); }
      DistinctSize(t.buckets);
      SubsetSize(Members(t.buckets), contents);
    }
  }
}
