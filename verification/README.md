# optimap: perfect hashing, the grouped hash table, the B-tree map and the adaptive map

A Dafny model of the library's data structures, with proofs of what they promise
and, where a promise does not hold, the input on which it fails and the exact
condition under which it holds.

- **Perfect hashing.** One construction attempt is a greedy first-fit placement
  (`Placement`); the program's counting sort, occupancy bitset and displacement
  loop compute exactly that (`CountingSort`, `Bitset`, `ChdAttempt`). The build
  runs attempts under successive seeds (`ChdBuild`); the parallel build is a
  state machine of racing workers with a cancel flag (`SeedRace`). Dense,
  sparse, unchecked maps and the set sit on top (`PerfectMap`). The two mixers
  are bijections on 64-bit words (`Hashing`, over the bit arithmetic of `Bits`).
- **The grouped hash table.** Triangular probing (`Probing`), group matching in
  all its instruction-set forms (`GroupOps`), the table as a value with its
  displaced-key invariant (`TableLayout`), and the table and the set as classes
  (`RawTable`, `FlatSet`). `ProbeTrap` is a run after which a lookup never returns.
- **The B-tree map.** Leaves chained in key order (`LeafChain`) under an interior
  of separators (`Interior`, `Guides`), descended by scanning in short trees and
  by bisecting in tall ones (`Descent`): bulk loading (`BulkLoad`, `LeafBuild`),
  searching (`RawBTree`), inserting with splits (`LeafSplit`, `TreeInsert`),
  double-ended iteration (`LeafIter`), retain (`Retain`), drain and into-iter
  (`Drains`), collecting (`FromIter`), grafting (`Graft`, `Relabel`), appending
  in five ways and splitting by draining (`FlatBTree`), and splitting by surgery
  (`Surgery` for the interior, `SplitOff` for the leaves and the trees).
  `BTreeTraps` holds the runs that go wrong.
- **The adaptive map.** `Policy` and `OptiMap`: whatever the backends'
  capacities do, the map answers like a plain one. `BTreeBackend` shows that the
  B-tree map keeps what is asked of a backend.

`Seqs` and `Wrappers` are small helpers, and `SortedEntries` is the ordered map
as a sequence, the reference that all B-tree operations are proved against.
In a key, `rank` is what comparison sees and `rest` what it does not, so that
which of two equal keys survives can be told.

`dafny verify dfyconfig.toml` checks everything.

## Model

| member | source | states |
|---|---|---|
| Hashing.MixIsBijective | src/perfect/util.rs:14-21 | for every seed the bucket mixer is a bijection on 64-bit words, with an explicit two-sided inverse |
| Hashing.SlotMixIsBijective | src/perfect/chd.rs:41-54 | for every seed and displacement the word that is reduced to a slot is a bijection of the hash |
| Hashing.BucketOfAnyWord | src/perfect/util.rs:27-30 | the bucket is the high half of the mixed word reduced by the bucket count, whatever word that is |
| Hashing.SlotOfAnyWord | src/perfect/chd.rs:41-54 | the slot is the slot word reduced by the table size, whatever word that is and under every displacement |
| Hashing.DisplacementsDiffer | src/perfect/chd.rs:43-54 | no two displacements send a hash to the same slot word |
| Hashing.DisplacementsSeparate | src/perfect/chd.rs:43-54 | any two displacements of any hash come to different slots in some table of a size the build accepts |
| Placement.OutcomeIsFirstFit | src/perfect/chd.rs:343-404 | an undisturbed attempt returns displacements exactly when they are the first-fit placement of all buckets, and gives up exactly when some bucket, after first fit of those before it, fits nowhere |
| Placement.PlacementIsPerfect | src/perfect/chd.rs:343-408 | a first-fit placement sends no two keys to one slot |
| CountingSort.AssignBuckets | src/perfect/chd.rs:297-306 | phase 1 gives every key its bucket and every bucket its size |
| CountingSort.PrefixSums | src/perfect/chd.rs:311-317 | each start is the number of keys in earlier buckets, and the last one is the number of keys |
| CountingSort.Scatter | src/perfect/chd.rs:319-325 | the slice between two starts lists the keys of that bucket, ascending |
| CountingSort.LayoutIsPermutation | src/perfect/chd.rs:308-325 | the flat layout lists every key index exactly once |
| Bitset.TestIsMembership | src/perfect/chd.rs:410-413 | the bit test answers membership in the set of occupied slots |
| Bitset.SetAddsSlot | src/perfect/chd.rs:415-418 | setting a bit adds exactly that slot |
| ChdAttempt.TryDisplacement | src/perfect/chd.rs:375-385 | the inner loop accepts a displacement exactly when it puts the bucket on distinct free slots, and yields those slots |
| ChdAttempt.PlaceBucket | src/perfect/chd.rs:358-403 | the displacement loop returns the least displacement that fits, or none when none up to the maximum does; a flag that is up at one of the displacements at which it is looked at is the only other way out; the counters tell how many were tried and the largest taken |
| ChdAttempt.SearchAccepts | src/perfect/chd.rs:358-403 | trying displacements in turn and accepting at once come to the same outcome |
| ChdAttempt.SearchGivesUp | src/perfect/chd.rs:360-363 | when no displacement up to the maximum fits, the attempt's outcome is failure |
| ChdAttempt.TryBuildSeed | src/perfect/chd.rs:285-408 | a whole attempt returns its first-fit outcome; only a cancel flag can make it give up where that outcome is a success; a success has tried each displacement up to those it took, and no more |
| ChdBuild.HasDuplicate | src/perfect/util.rs:36-40 | sorting and looking at neighbours finds an equal pair exactly when there is one |
| ChdBuild.OutcomeIsPerfect | src/perfect/chd.rs:244-263 | what a successful attempt returns indexes the hashes below m without collision |
| ChdBuild.DuplicatesNeverPlace | src/perfect/chd.rs:154-158 | two equal hashes defeat every seed, which is why the check comes first |
| ChdBuild.TrySeeds | src/perfect/chd.rs:216-238 | the first seed whose attempt succeeds alone wins, and the build is exhausted only when none of them does |
| ChdBuild.Build | src/perfect/chd.rs:123-241 | DuplicateHash exactly for an equal pair; success is a perfect hash function from the least working seed of 32, with a bucket for every five keys or part of five; Exhausted means that none of them works |
| SeedRace.StepInv | src/perfect/chd.rs:162-204 | every step of every worker keeps the race invariant: each worker in flight stands where its attempt would stand alone |
| SeedRace.RaceIsSafe | src/perfect/chd.rs:162-204 | in every interleaving the flag is up only if some seed works alone, and what a worker finds is what its seed builds alone |
| SeedRace.RaceAgreesWithSeeds | src/perfect/chd.rs:162-214 | a finished race has a find exactly when some seed works alone |
| SeedRace.ParallelBuild | src/perfect/chd.rs:162-214 | the parallel build succeeds exactly when the sequential one would, and whichever worker wins returns a perfect hash function |
| SeedRace.RunsAreBounded | src/perfect/chd.rs:357-404 | a measure falls with every step, so no interleaving runs for ever |
| SeedRace.RaceProgresses | src/perfect/chd.rs:365-374 | until all workers are done some worker can move |
| SeedRace.PollsOften | src/perfect/chd.rs:365-374 | a worker looks at the flag when it comes to a bucket with keys in it, and again within any 64 displacements |
| PerfectMap.ChdFamilyIsRanged | src/perfect/util.rs:27-30 | the program's own bucket and slot functions stay in range, so that whatever is proved of a hash family holds of them |
| PerfectMap.Place | src/perfect/mod.rs:106-142 | the placement loop finds every slot free and stores each item at the index of its hash |
| PerfectMap.ProbeIsLookup | src/perfect/mod.rs:147-160 | comparing the one stored key answers as a lookup in the list of entries |
| PerfectMap.PerfectMap.FromEntries | src/perfect/mod.rs:106-145 | fails only as the build does; otherwise holds exactly the entries, fills every slot, and answers every key as the entries do |
| PerfectMap.PerfectMapSparse.FromEntriesWith | src/perfect/mod.rs:314-352 | the same with spare slots: iteration yields exactly the entries, and the empty slots are table size less entries |
| PerfectMap.PerfectMapUnchecked.FromEntries | src/perfect/mod.rs:483-517 | a stored key is answered with its own value, and any key with some stored value |
| PerfectMap.PerfectMapUnchecked.AnswersStoredKeys | src/perfect/mod.rs:520-531 | the read without a key check is right for every key given to the build, and always within the table |
| PerfectMap.PerfectSet.FromKeys | src/perfect/set.rs:48-78 | holds exactly the keys; contains and get answer exactly for them |
| PerfectMap.PerfectSet.ContainsStored | src/perfect/set.rs:81-113 | a set whose slots are the placed keys contains a key exactly when it was given |
| Probing.ProbesDiffer | src/raw/mod.rs:249-281 | two steps below the number of groups probe different groups |
| Probing.ProbesCover | src/raw/mod.rs:249-281 | every group is probed within as many steps as there are groups |
| GroupOps.WideMatchMatches | src/raw/group64.rs:27-50 | one wide compare gives exactly the allowed slots with the byte sought |
| GroupOps.WideNonEmptyMatches | src/raw/group32.rs:52-60 | one wide compare with zero, complemented, gives exactly the allowed occupied slots |
| GroupOps.HalvesAgree | src/raw/group64.rs:105-116 | two half-width compares, shifted together, equal one wide compare |
| GroupOps.HalvesNonEmptyMatches | src/raw/group64.rs:124-136 | the complement of two halves, taken over the whole word, equals the wide form and gives the allowed occupied slots |
| GroupOps.QuartersMatch | src/raw/group64.rs:164-176 | the loop over four chunks equals one wide compare |
| GroupOps.QuartersNonEmpty | src/raw/group64.rs:184-197 | its complement equals the wide form for occupied slots |
| GroupOps.ScalarMatch | src/raw/group32.rs:168-177 | the byte-by-byte fallback equals one wide compare |
| GroupOps.ScalarNonEmpty | src/raw/group32.rs:184-193 | so does the fallback for occupied slots |
| GroupOps.BitMask.Next | src/raw/bitmask.rs:34-46 | yields the lowest set bit and clears exactly that one |
| GroupOps.Collect | src/raw/bitmask.rs:34-46 | draining a mask yields its set bits, each once, ascending |
| GroupOps.MatchByteSlots | src/raw/group.rs:73-80 | a match in a 16-byte group never reports the overflow byte, and reports every slot with the byte |
| GroupOps.MatchNonEmptySlots | src/raw/group.rs:95-105 | likewise for occupied slots |
| TableLayout.TagIsNeverEmpty | src/lib.rs:194-250 | none of the three tag forms yields the empty marker |
| TableLayout.TagsCollide | src/lib.rs:194-250 | which hashes share a tag: those that differ in the lowest bit only, or only the bytes 254 and 255, or only 0 and 1 |
| TableLayout.Table.HomeIsTopBits | src/raw/mod.rs:204-206 | the home group of a hash is the number that its highest bits make, one group and a shift by 64 included |
| TableLayout.DisplacedIsMarked | src/raw/mod.rs:347-373 | a key stored outside its home group has its overflow bit set there |
| TableLayout.FirstStopAnswers | src/raw/mod.rs:249-281 | the first step at which a lookup stops sees the key exactly when the table has it |
| TableLayout.LookupLoops | src/raw/mod.rs:249-281 | a lookup never returns exactly when the key is absent and every group carries the overflow bit of its hash; one that has not returned within a round never will |
| TableLayout.FreeSlotIsLowestBit | src/raw/mod.rs:347-373 | the lowest bit of the match for empty is the lowest free slot |
| TableLayout.PutAdds | src/raw/mod.rs:347-373 | inserting an absent key wherever there is room adds exactly that key and keeps the invariant |
| TableLayout.FewKeysLeaveRoom | src/raw/mod.rs:47-56 | with fewer keys than buckets some slot is free |
| RawTable.RawTable.FindByHash | src/raw/mod.rs:249-281 | finds a key exactly when it is there, with the slot it is in, and tells the case in which the loop never ends |
| RawTable.RawTable.ProbeAndWrite | src/raw/mod.rs:347-373 | the insertion loop does to the table what the specification function does, and ends |
| RawTable.RawTable.InsertNoCheck | src/raw/mod.rs:347-373 | adds exactly one key, keeps the invariant and counts it |
| RawTable.RawTable.RemoveByHash | src/raw/mod.rs:319-342 | removes exactly that key, says whether it was there, and lowers the load limit by one exactly when it was and its home group carries the overflow bit |
| RawTable.RawTable.RemoveAt | src/raw/mod.rs:319-342 | clears one tag, and lowers the load limit exactly when the home group carries the overflow bit |
| RawTable.RawTable.RehashWith | src/raw/mod.rs:521-561 | moves every key into fresh groups and loses none |
| FlatSet.UnorderedFlatSet.Contains | src/set.rs:100-109 | answers membership, or tells that the probe never ends |
| FlatSet.UnorderedFlatSet.InsertFused | src/set.rs:115-155 | the fused fast path leaves the same table as find followed by insert |
| FlatSet.HomeInsert | src/set.rs:121-155 | when the home group shows a free slot and no overflow bit, the value is absent and writing there is what the general insertion does |
| FlatSet.UnorderedFlatSet.Insert | src/set.rs:115-189 | true exactly when the value was absent; afterwards it is there once; a first value allocates one group, a full table doubles its groups, and otherwise groups and load limit stay |
| FlatSet.UnorderedFlatSet.GrowAndRehash | src/set.rs:181-189 | doubles the groups, keeps the contents, and the load limit is seven eighths of the buckets again |
| FlatSet.UnorderedFlatSet.Remove | src/set.rs:192-202 | true exactly when the value was there; afterwards it is not; the load limit falls by one exactly when it was there and its home group carries the overflow bit |
| FlatSet.UnorderedFlatSet.Retain | src/set.rs:264-297 | shows every value once and keeps exactly those accepted; no overflow bit changes, and the load limit falls by the number of rejected values whose home group carries the overflow bit |
| ProbeTrap.LookupTrapIsReachable | src/raw/mod.rs:249-281 | from an empty two-group table, inserts and removals that all return reach a state in which looking up an absent key never returns |
| SortedEntries.InsertLookup | src/flat_btree/raw.rs:919-1029 | inserting changes what one key maps to and nothing else; a key already there keeps its own identity and takes the new value |
| SortedEntries.MergedIsUnion | src/flat_btree/map.rs:692-744 | the merge is the union in which the right map wins, key and value |
| SortedEntries.SameMapSameEntries | src/flat_btree/map.rs:429-445 | a strictly ascending sequence is determined by the map it stands for |
| Interior.DescentCountsSeparators | src/flat_btree/raw.rs:624-643 | a scanning descent ends in the leaf with as many leaves in front of it as there are separators below the key |
| Interior.RouteIsFlat | src/flat_btree/raw.rs:624-643 | a scanning descent through the levels ends where the flat list of separators points |
| Interior.GrowIsSplice | src/flat_btree/raw.rs:1266-1450 | putting a key and a subtree into the interior, with all splits up to the root, inserts exactly its leaves and separators at that place and keeps all leaves at one depth |
| Descent.ScanOfSorted | src/flat_btree/raw.rs:494-507 | on keys in order the bisection of tall trees stops where the scan of short ones does |
| Descent.ScanWithLast | src/flat_btree/raw.rs:494-507 | with one key more behind keys in order, out of place or not, either stops where it would have stopped without it, or behind it |
| Descent.RoutesAgree | src/flat_btree/raw.rs:439-443 | when all separators are in order both kinds of descent end in the same leaf |
| Descent.GrowRoutes | src/flat_btree/raw.rs:2537-2596 | hanging a subtree in at the right edge changes where a descent of either kind ends exactly when it enters the subtree: above the node that takes the new key it keeps to the edge, and there it passes that key |
| Descent.EntersAbove | src/flat_btree/raw.rs:2537-2596 | a descent that enters does so for every higher key too, though keys be out of order |
| Descent.SeamInOrder | src/flat_btree/raw.rs:2537-2596 | in a short tree, and in any tree when the new key is not below the last one of its node, the key is passed exactly when it and all keys of the node are below the rank |
| Descent.GrowSplits | src/flat_btree/raw.rs:2537-2596 | the root is split, and the tree may become tall, exactly when every node above the graft on the right edge is full |
| BulkLoad.BuildLevel | src/flat_btree/raw.rs:2313-2370 | one level groups the subtrees below from left to right, as many as fit to a node, the last one with what is left |
| BulkLoad.BuildInterior | src/flat_btree/raw.rs:2296-2380 | the finished interior has the first key of each leaf after the first as separators, on whatever level they lie, and all leaves at the height returned |
| Guides.SearchReachesLeaf | src/flat_btree/raw.rs:447-522 | when separators guide, the one leaf a search looks at answers for the whole tree |
| Guides.DescentFindsRank | src/flat_btree/raw.rs:613-695 | the entries below a key end in the leaf a lower-bound descent reaches, or right behind it |
| LeafBuild.PackLeaves | src/flat_btree/raw.rs:2248-2276 | leaves in order that hold exactly the entries, all but the last one full |
| LeafBuild.WireLeaves | src/flat_btree/raw.rs:2278-2294 | every leaf is linked to its two neighbours, and the ends to nothing |
| LeafBuild.FirstKeysGuide | src/flat_btree/raw.rs:2296-2310 | for ordered entries the first keys guide every search |
| RawBTree.FindLeaf | src/flat_btree/raw.rs:744-785 | scanning down as many levels as the tree is high ends in the leaf that the separators name |
| RawBTree.FindLeafTall | src/flat_btree/raw.rs:489-508 | bisecting down as many levels ends in the leaf that the bisections name |
| RawBTree.FindLeafBy | src/flat_btree/raw.rs:439-443 | below height 3 the descent scans, from height 3 on it bisects |
| RawBTree.SlotFor | src/flat_btree/raw.rs:662-681 | scanned for or bisected for, the slot in a leaf is where its keys below the one sought end |
| RawBTree.RawBTree.BulkLoad | src/flat_btree/raw.rs:2233-2387 | holds exactly the entries given; searchable when they are ascending; every leaf but the last is full and none is empty |
| RawBTree.RawBTree.Search | src/flat_btree/raw.rs:431-522 | by either scan, as the height has it, finds the slot of the key in the leaf reached, or nothing when that leaf lacks it, whatever the separators are |
| RawBTree.RawBTree.FoundByHeight | src/flat_btree/raw.rs:439-443 | what a search comes upon is told by scanning in trees below height 3 and by bisecting in all others, in order or not |
| RawBTree.RawBTree.SearchableFinds | src/flat_btree/raw.rs:431-522 | in a searchable tree what a search by either scan finds is what the contents hold |
| RawBTree.RawBTree.LowerBound | src/flat_btree/raw.rs:613-695 | an answer is where the entries below the key end; no answer means that there is none, except exactly when the next leaf is empty and entries lie further on |
| RawBTree.RawBTree.FirstNonemptyLeaf | src/flat_btree/raw.rs:321-333 | the first entry's leaf, past any empty ones, or nothing for an empty tree |
| RawBTree.RawBTree.LastNonemptyLeaf | src/flat_btree/raw.rs:336-348 | the last entry's leaf, or nothing |
| LeafIter.Iter.Next | src/flat_btree/map.rs:1202-1241 | yields the entry at the front of what is left, past empty leaves, and nothing exactly when nothing is left |
| LeafIter.Iter.NextBack | src/flat_btree/map.rs:1243-1279 | likewise at the back; the branch that runs off the chain is never taken |
| LeafIter.Drive | src/flat_btree/map.rs:1202-1279 | any interleaving of the two ends yields a prefix and a reversed suffix that never overlap and together are as long as they can be |
| Retain.RetainLeaf | src/flat_btree/map.rs:565-600 | the in-place loop over one leaf keeps what the predicate accepts, in order; a leaf that loses everything still shows the last key it lost in its dead slot 0 |
| Retain.Retain | src/flat_btree/map.rs:554-606 | keeps exactly the accepted entries, each shown once and in order, with the values the predicate left in them; the tree stays searchable though leaves may be left empty |
| Retain.RetainedIsJudged | src/flat_btree/map.rs:554-606 | said with the predicate alone: an accepted key is there with its rewritten value, a rejected one is not, and no other is there |
| Drains.Drain.Next | src/flat_btree/map.rs:1014-1038 | moves out the next entry in order, and nothing exactly when all are out |
| Drains.Drain.Drop | src/flat_btree/map.rs:1045-1057 | whatever was left has been yielded, and the tree is empty |
| Drains.DrainAll | src/flat_btree/map.rs:610-617 | collecting a drain gives the contents and leaves an empty tree |
| Drains.IntoIter.Next | src/flat_btree/map.rs:1382-1412 | moves out the next entry, so that it is no longer the tree's to drop |
| Drains.IntoIter.Drop | src/flat_btree/map.rs:1421-1467 | drops exactly the entries not taken |
| Drains.DropInternalKeys | src/flat_btree/raw.rs:2086-2106 | drops every separator below a node once |
| Drains.DropAllContents | src/flat_btree/raw.rs:2109-2138 | drops every entry and separator once when there is a root, and nothing otherwise |
| Drains.TakeThenDrop | src/flat_btree/map.rs:1382-1467 | each entry is taken or dropped exactly once; of the separators none is dropped, and what leaks is every one that the interior held |
| FromIter.Dedup | src/flat_btree/map.rs:1907-1915 | removing equal neighbours keeps of each class the first key and the last value |
| FromIter.SortingIsInvisible | src/flat_btree/map.rs:1906-1906 | a stable sort does not change what inserting one by one gives |
| FromIter.Collect | src/flat_btree/map.rs:1898-1922 | sorting and removing duplicates gives the entries that inserting everything one by one would |
| FromIter.FoldedKeepsFirstKeyLastValue | src/flat_btree/map.rs:1907-1915 | of equal keys the first key survives with the last value |
| LeafSplit.LeafInsertAt | src/flat_btree/raw.rs:1032-1053 | shifting the later slots and writing one inserts the entry at its place |
| LeafSplit.LeafSplitAndInsert | src/flat_btree/raw.rs:1059-1195 | the two halves together are the leaf with the entry inserted, half and half, the odd one left |
| LeafSplit.SplitStaysLinked | src/flat_btree/raw.rs:1160-1192 | the new leaf is linked in right behind the old one, in both directions |
| TreeInsert.SplitState | src/flat_btree/raw.rs:1059-1195 | a leaf split inserts the entry, keeps the chain linked and every separator in its place, with the new leaf's first key among them |
| TreeInsert.PutAt | src/flat_btree/raw.rs:919-1029 | a new key goes into the gap where it belongs, with or without a split |
| TreeInsert.ReplaceAt | src/flat_btree/raw.rs:919-1029 | a key that is there keeps its place and identity and takes the new value |
| TreeInsert.Insert | src/flat_btree/raw.rs:919-1029 | the contents become the ordered insertion of the entry, the value replaced is returned, and the tree stays searchable through all splits |
| Relabel.RelabelledIsSame | src/flat_btree/raw.rs:2399-2470 | a copied interior leads to the new leaves in the old order by the same separators |
| Graft.CopyIsLinked | src/flat_btree/raw.rs:2399-2470 | leaves copied one by one behind the last leaf extend the chain, hold what they held and leave the others alone |
| Graft.GraftRaises | src/flat_btree/raw.rs:2537-2596 | a graft makes the tree higher exactly when every node above it on the right edge is full |
| Graft.GraftedLeaf | src/flat_btree/raw.rs:2482-2596 | after a graft a descent of either kind comes upon what it came upon before in one of the two trees, and exactly when in which |
| Graft.GraftGuided | src/flat_btree/raw.rs:2482-2530 | all separators keep their places exactly when the new one fits between the touching ends |
| Graft.DeadSlotWhenEmptied | src/flat_btree/raw.rs:2500-2516 | the new separator is read from a dead slot exactly when the other tree's first leaf holds nothing; otherwise it is that tree's least key |
| Graft.AppendGraftDisjoint | src/flat_btree/raw.rs:2482-2530 | refuses and changes nothing when the other tree is taller; otherwise has both contents one behind the other and empties the other |
| FlatBTree.MergeRuns | src/flat_btree/map.rs:700-735 | the two-way merge loop gives the merge |
| FlatBTree.InsertAllIsUnion | src/flat_btree/map.rs:780-792 | inserting a run one by one gives every key the value that merging does, and tells which key object is kept |
| FlatBTree.FlatBTree.FromPairs | src/flat_btree/map.rs:1898-1922 | building from an iterator gives the map that inserting everything would |
| FlatBTree.FlatBTree.Extend | src/flat_btree/map.rs:1924-1930 | inserts every entry in order |
| FlatBTree.FlatBTree.AppendDrain | src/flat_btree/map.rs:692-744 | the contents become the merge of both, and the other map is empty |
| FlatBTree.FlatBTree.AppendConcat | src/flat_btree/map.rs:750-774 | the contents become one behind the other; searchable when the keys are disjoint in that order |
| FlatBTree.FlatBTree.AppendExtend | src/flat_btree/map.rs:780-792 | the contents become those of inserting the other's entries one by one |
| FlatBTree.FlatBTree.AppendGraft | src/flat_btree/map.rs:810-828 | the contents are always right; for every key, whether a search for it is right afterwards, by the scan that the new height has, is told exactly, and so is whether all separators keep their places |
| FlatBTree.RouteIsByKeys | src/flat_btree/map.rs:656-685 | the maps are grafted one way or the other exactly when all keys of one are below all of the other |
| FlatBTree.FlatBTree.Append | src/flat_btree/map.rs:656-685 | the contents become the merge whichever of the three ways is taken; for every key, whether a search for it is right afterwards is told exactly |
| FlatBTree.GraftFindsAll | src/flat_btree/map.rs:810-828 | every search is right after a graft exactly when two are: the descent for the other map's least key enters the graft and the one for this map's greatest key does not |
| FlatBTree.FullEndsCanBeGrafted | src/flat_btree/map.rs:656-685 | when the touching leaves hold something, all separators keep their places |
| FlatBTree.FlatBTree.SplitOffDrain | src/flat_btree/map.rs:903-954 | what is below the key stays and the rest is returned, in both early exits too; exactly when the lower-bound search misses, everything stays |
| FlatBTree.FlatBTree.SplitAndRejoin | src/flat_btree/map.rs:656-685 | splitting at any key and appending what came off restores the contents |
| Surgery.CutLeftIsTake | src/flat_btree/raw.rs:2883-3001 | what the walk up the spine keeps on the left, freeing emptied nodes and dropping stranded separators, is the interior over the leaves kept |
| Surgery.TakeIsPrefix | src/flat_btree/raw.rs:2883-3001 | its leaves and separators are the first ones of the tree |
| Surgery.CutRightIsSuffix | src/flat_btree/raw.rs:2883-2972 | the right part has exactly the leaves from the boundary on and the separators between them |
| Surgery.CollapseRightIsFlat | src/flat_btree/raw.rs:2612-2666 | taking one-child nodes out along the right edge keeps leaves and separators |
| Surgery.CollapseLeftIsFlat | src/flat_btree/raw.rs:2612-2666 | likewise along the left edge |
| Surgery.ShapedDescends | src/flat_btree/raw.rs:447-522 | when all leaves lie at one depth, a descent of that many levels, of either kind, ends where its scans point |
| Surgery.HighDescent | src/flat_btree/raw.rs:447-522 | a descent for a key above all separators ends in a leaf exactly when it is as long as the right edge is deep |
| Surgery.LeftPartDepths | src/flat_btree/raw.rs:2612-2683 | after the collapse the left part has all leaves at the measured height exactly when the way to its last leaf takes no first child behind a later one |
| Surgery.RightPartDepths | src/flat_btree/raw.rs:2612-2683 | the right part does exactly when the way to its first leaf takes no last child behind an earlier one |
| SplitOff.KeptLeftIsLeft | src/flat_btree/raw.rs:2786-3042 | the part kept on the left is linked, ends at the cut and holds the first entries |
| SplitOff.CopiedRightIsRight | src/flat_btree/raw.rs:2823-3076 | the part copied to the right is linked and holds the rest |
| SplitOff.PrependedInOrder | src/flat_btree/raw.rs:3197-3270 | a batch copied as a chain of its own and put in front keeps the copied chain linked and in key order |
| SplitOff.LeftCopyIsLeftPart | src/flat_btree/raw.rs:3111-3270 | the batches copied from the boundary upwards make, in chain order, exactly the left part |
| SplitOff.CopiedLeftIsLeft | src/flat_btree/raw.rs:3088-3399 | the part copied to the left is linked and holds the first entries |
| SplitOff.KeptRightIsRight | src/flat_btree/raw.rs:3088-3399 | the part kept on the right, its boundary leaf shifted to the front, is linked and holds the rest |
| SplitOff.HalfDescends | src/flat_btree/raw.rs:2669-2683 | a tree that came of a surgical split is searchable exactly when every descent of its measured height ends in a leaf |
| SplitOff.LastLeafIsLost | src/flat_btree/raw.rs:447-522 | when it is not, every search for a key in its last leaf goes astray |
| SplitOff.SplitOff | src/flat_btree/map.rs:841-898 | whichever side is copied, what is below the key stays and the rest is returned; whether each of the two trees is still searchable is told exactly by the way to the leaf at its side of the cut |
| BTreeTraps.SplitLeavesGreaterKeyBehind | src/flat_btree/map.rs:903-954 | keys 1, 3, 5 without 3: splitting at 2 leaves 5 behind |
| BTreeTraps.AppendLosesKey | src/flat_btree/map.rs:656-685 | keys 10, 90 without 90, and then 60 appended: 60 is there and the search for it finds nothing |
| BTreeTraps.ReverseAppendLosesKey | src/flat_btree/map.rs:668-679 | the map that came of 10, 90 without 90 appended to one of 11: the two change places, 11 is there and the search for it finds nothing |
| BTreeTraps.ScanFindsKey | src/flat_btree/raw.rs:439-443 | keys 10 to 40 without 40, and then 25, 41, 42 without 25 appended: at height 2 the scan stops at the separator 40 in front of 25 and finds 30 |
| BTreeTraps.EqualHeightsLoseKey | src/flat_btree/raw.rs:2537-2557 | keys 10, 30, and then 25, 41, 42 without 25 appended: two trees of one height come under a root that holds 25, 30 is there and the search for it finds nothing |
| BTreeTraps.BisectionLosesKey | src/flat_btree/raw.rs:489-522 | keys 10 to 100 without 100, and then 85, 101, 102, 103 without 85 appended: 90 is there and the bisecting search for it finds nothing |
| BTreeTraps.BisectionFindsKey | src/flat_btree/raw.rs:489-522 | with 95 to 98 appended instead, 95 is found although its separator stands behind a greater one |
| BTreeTraps.SplitStrandsLeaf | src/flat_btree/raw.rs:2612-2683 | keys 1 to 5, split at 5: 4 is there and the descent for it runs past its leaf, whichever side was copied |
| Policy.AddBandReplaces | src/optimap.rs:417-423 | in whatever order bands are added they stay sorted, and one starting where another did replaces it |
| Policy.BackendForIsGreatestBand | src/optimap.rs:429-438 | the backend is that of the last band that starts at or below the capacity |
| Policy.DocumentedWhenReached | src/optimap.rs:425-438 | the documented answer is given exactly when the policy is empty, its first band starts at or below the capacity, or that band names Splitsies anyway |
| Policy.FallbackIsNotSplitsies | src/optimap.rs:425-438 | one band from 1024 on: the answer for 16 is that band's backend and not Splitsies |
| OptiMap.OptiMap.Insert | src/optimap.rs:803-823 | the entries change as a map's do and the value replaced is returned; an automatic map whose capacity a new key changed ends in the backend for that capacity, in a new one exactly when that differs from the old |
| OptiMap.OptiMap.Reserve | src/optimap.rs:933-949 | the entries stay, and an automatic map is in the backend for the capacity asked for, which the new one is asked for too |
| OptiMap.OptiMap.TransitionTo | src/optimap.rs:1233-1247 | moving to another backend keeps exactly the entries |
| OptiMap.OptiMap.Equals | src/optimap.rs:1319-1355 | equal length and one-way lookup decide equality of the maps, whatever the backends |
| OptiMap.RunAll | src/optimap.rs:803-949 | through any run of operations, whatever the capacities do, the answers are those of a plain map, and a pinned map never leaves its backend |
| BTreeBackend.InsertIsUpdate | src/flat_btree/map.rs:112-114 | inserting into the ordered run is updating the map it stands for |
| BTreeBackend.PairsAreListed | src/flat_btree/map.rs:610-617 | what a drain yields lists exactly that map, each key once |
| BTreeBackend.BTreeBackend.Insert | src/flat_btree/map.rs:112-114 | the contract of a backend: the map is updated and the value replaced returned; the tree stays searchable |
| BTreeBackend.BTreeBackend.Get | src/flat_btree/map.rs:320-326 | the contract of a backend: a lookup answers as the map does |
| BTreeBackend.BTreeBackend.Drain | src/flat_btree/map.rs:610-617 | the contract of a backend: the pairs list the map and nothing is left |
| BTreeBackend.BTreeBackend.ShrinkToFit | src/flat_btree/map.rs:528-548 | rebuilding from the entries keeps the map and leaves the tree searchable |
| BTreeBackend.RunAll | src/optimap.rs:803-949 | through any run of operations without removals a B-tree backend stays searchable and answers like a plain map |

## Findings

Properties that the code does not have, each with its input and the exact
condition under which it does.

1. **A surgical split can leave a tree whose leaves lie at different depths.**
   `collapse_along_edge` (src/flat_btree/raw.rs:2612-2666) takes out one-child
   nodes anywhere along the cut, also below nodes that stay, and
   `compute_height` then measures along the first children only. Searches go
   down exactly that many levels, so they take leaves for interior nodes or
   interior nodes for leaves. This is the default `split_off`. The entries and
   the leaf chain are always right (`SplitOff.SplitOff`), which is what
   iteration shows. Which tree is searchable is exact: the left one when the way
   to its last leaf never takes a first child behind a later one, the right one
   when the way to its first leaf never takes a last child behind an earlier
   one (`Surgery.LeftPartDepths`, `Surgery.RightPartDepths`,
   `SplitOff.HalfDescends`). A run: `BTreeTraps.SplitStrandsLeaf`.
2. **A lookup in the grouped table can run for ever.** `find_by_hash`
   (src/raw/mod.rs:249-281) has no bound on its probe loop, and overflow bits
   are never cleared. It never returns exactly when the key is absent and every
   group carries the overflow bit of its hash (`TableLayout.LookupLoops`), and
   such a state can be reached (`ProbeTrap.LookupTrapIsReachable`).
3. **`lower_bound` looks at one next leaf only** (src/flat_btree/raw.rs:613-695).
   After a retain has emptied that leaf it answers None although greater keys
   are there: exactly when `RawBTree.RawBTree.Misses` holds
   (`RawBTree.RawBTree.LowerBound`). Both kinds of split then move nothing
   (`BTreeTraps.SplitLeavesGreaterKeyBehind`).
4. **Appending after a retain can lose keys to searches**
   (src/flat_btree/map.rs:656-685). A graft hangs the other tree under
   separators that a retain has made stale, with a new one read from slot 0 of
   the other tree's first leaf, which is a dead slot exactly when that leaf is
   empty (`Graft.DeadSlotWhenEmptied`), and then shows the last key it lost
   (`Retain.RetainLeaf`). The new key may come to stand behind a greater one.
   Trees of fewer than three levels scan a node and stop at the greater one;
   taller ones bisect and may never look at it (src/flat_btree/raw.rs:439-443),
   so that other keys are lost. For each key it is told exactly whether it is
   still found, by the scan that the height after the append has
   (`FlatBTree.FlatBTree.Append`); all are exactly under the condition of
   `FlatBTree.GraftFindsAll`. Runs: `BTreeTraps.AppendLosesKey` and, with the two
   maps met the other way round, `BTreeTraps.ReverseAppendLosesKey` in short
   trees, `BTreeTraps.EqualHeightsLoseKey` in two of one height,
   `BTreeTraps.BisectionLosesKey` and `BTreeTraps.BisectionFindsKey` in tall ones,
   and `BTreeTraps.ScanFindsKey` in the highest that is still scanned.
5. **`Policy::backend_for` does not fall back as documented**
   (src/optimap.rs:425-438). With all bands above the capacity it answers with
   the first band and not with Splitsies: `Policy.DocumentedWhenReached`,
   `Policy.FallbackIsNotSplitsies`.
6. **An into-iterator leaks the separators.** The comment that ends its drop
   (src/flat_btree/map.rs:1463-1467) says that the tree's own drop will see to
   the interior keys; but the root is gone by then, so it returns at once
   (`Drains.TakeThenDrop`).

Smaller differences between code and comments, where the model follows the
code: buckets of equal size are in no fixed order, although the comment at
src/perfect/chd.rs:328 promises one; a load limit that removals have worn down to
zero makes an allocated table count as unallocated, so that growing it drops
nothing; on equal keys `append` keeps the other map's key object and
`append_extend` keeps its own; after a transition the new backend's actual
capacity is not checked against the policy again.

## Left out

- RawTable.RawTable.FindByHash: the unbounded loop is modelled with a bound of one round and an explicit answer for not returning, because a method that does not end has no contract; TableLayout.LookupLoops shows the bound to lose nothing.
- FlatSet.UnorderedFlatSet.Insert: asks for fewer than 2^63 groups, which no machine can hold.
- RawTable.RawTable.RehashWith: the memory of a table whose load limit has worn down to zero is not tracked, so its loss is not stated.
- OptiMap.OptiMap.Insert: the backends are one class with the entries as a map and arbitrary capacities; of the concrete ones only the B-tree map is shown to keep that contract.
- BTreeBackend.RunAll: leaves out removals, whose rebalancing in the B-tree is not modelled, and takes keys for integers that are nothing but their rank.
- Descent.Bisect: on keys out of order the library leaves the outcome of a partition point open; the model has the loop that the standard library has had since Rust 1.82 (the let chains of the source need 1.88). On keys in order every version agrees, and so it does in short trees and under the condition of Descent.SeamInOrder.
- SeedRace.ParallelBuild: the thread pool's find-any is taken at its word that it returns the result of some worker that found one, and none only if none did; atomic loads may miss earlier stores.
- Interior.GrowIsSplice: interior nodes are values and a path is a leaf's position; parent pointers, node indices of interior nodes and the walk back up through them are not modelled.
- SplitOff.SplitOff: which side is copied is a parameter, since the estimate that decides is in floating point; the outcome is proved the same for both. The spine is walked by recursion and not over a path buffer.
- LeafBuild.PackLeaves: slots past the live ones do not exist in a fresh leaf; in the program they are uninitialised memory.
- Removal from the B-tree with borrowing and merging, and the entry interface over it.
- The range iterators, which the bounds resolution of src/flat_btree/raw.rs:363-425 feeds.
- The arena's free list, byte layout and growth: leaves are a sequence that only grows, and freed nodes stay in it unreached.
- Borrowed keys, zero-sized types, drop glue that is skipped when nothing needs dropping, and a drain that is forgotten.
- Timings of the construction profile, and the sorting routines themselves, which are parameters with the contract the standard library gives them.
- The load-factor arithmetic of the sparse map: the table size is a parameter not smaller than the number of entries.
- The bucketed perfect maps, and the other hash maps and sets of the library with their tag and overflow strategies.
- Prefetching and the instructions themselves: a vector compare is a comparison byte by byte, and its mask one bit a byte.
