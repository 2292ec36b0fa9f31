# Verified models of litetvm-ffi

Dafny models of the algorithmic cores of litetvm-ffi, with proofs of what they promise. Each module follows one
component of the repository; methods are proved against specification functions, and the main results are lemmas
about those functions or invariants that every method keeps.

- **Maps** (`AssocList`, `DenseLayout`, `DenseTable`, `DenseRoom`, `Probing`, `DenseMap`, `MapObj`, `MapHandles`). The
  dense table threads bucket chains as 7-bit jump codes and a doubly linked iteration list through the same slots.
  Every insert, erase and rehash refines an ordered association list, also when evicting a foreign chain fails
  halfway, and it is stated exactly when a table refuses a key. Small and dense layouts agree with one mathematical
  map, and copy-on-write handles do not see each other's writes.
- **Reference counting** (`RefCount`). The 64-bit word with both counts as a state machine over any number of threads,
  each atomic instruction a step.
- **Value cells** (`AnyCells`). Equality and hash of 16-byte cells, with strings stored inline or on the heap.
- **Structural equality and hashing** (`StructuralValues`, `StructuralEqual`, `StructuralMatching`,
  `StructuralSymmetry`, `HashOrder`, `StructuralHash`, `StructuralContent`, `StructuralVisits`, `StructuralLaw`,
  `StructuralLimits`). Two stateful traversals of an object graph with maps. What a True comparison has matched is a
  relation that does not depend on its order; from it follow symmetry and the law that equal values hash alike, on
  stated classes of values; and what a value holds reaches its hash. Concrete counterexamples show what each condition
  is for.
- **The type table** (`TypeTables`). Slot allocation, and the range check that stands for the subtype relation.
- **JSON** (`JsonText`, `JsonWriting`, `JsonLayout`, `JsonReading`, `JsonLaw`, `JsonGrammar`, `GrammarLaw`). A printer and
  a parser with a cursor and two shared stacks. The parser reads exactly the texts of a grammar that is given without
  it, and reading what was printed gives the value back. RFC 8259 section 7 describes the string escapes.
- **Object graphs** (`GraphModel`, `GraphLaw`, `GraphMeaning`, `GraphCoding`, `GraphJson`, `GraphReading`, `Base64`). A
  memoised encoder and decoder with sharing, through a node list, base64 (RFC 4648 section 4) and JSON text. What is
  written reads back, and foreign node lists and texts are read exactly as they mean.
- **Arrays** (`ArrayCow`). In-place edits of shared arrays behind copy-on-write handles.
- **Modules** (`ModuleGraphs`). The cycle check of imports and lookup through them.

Findings, each with a lemma in the table below:

- Structurally equal values can hash differently when a unique or constant node holds a graph node or a free variable
  that is mapped elsewhere, when short bytes are stored once inline and once on the heap, when a tree node is the key
  of a map, when a graph node is a key before it has been met, and when a map uses a free variable under one key and
  defines it under another.
- Structural equality of maps is not symmetric when a graph node is a key before it has been recorded, or when one value
  of a map uses a free variable unmapped that another defines; without these two it is.
- A double from 2^53 on whose 17 digits need no exponent is printed without a decimal point and read back as an integer.
- A static type whose block is not free, for example because an earlier static type reserved slots there, is registered
  all the same, and a later child can overwrite another type's entry. A static type outside the block of a parent that
  does not allow overflow is missed by the instance check for that parent.
- Where `char` is signed, a string with a byte from 0x80 on is printed but not read back.
- `StableHashCombine` does not tell its first argument apart: two arrays that differ in an element before the last can
  have one hash. A change in the last value hashed always shows.
- A use count of one is not stable for its owner while another thread holds a weak reference.

To check the whole project, run `dafny verify --resource-limit 2000000 dfyconfig.toml`.

## Model

| member | source | states |
|---|---|---|
| DenseMaps.DenseMap.Search | include/ffi/container/map.h:652-666 | Search returns the slot of the entry the association list finds for the key, and none when the list has no entry; it terminates |
| DenseMaps.DenseMap.TryInsert | include/ffi/container/map.h:681-730 | succeeds exactly when the table does not refuse the key (new key, home slot taken, and: full, or no free slot in reach of the chain, or the foreign chain cannot move); then the key is in a slot ready to be appended, else the iteration list is unchanged |
| DenseMaps.DenseMap.TrySpareListHead | include/ffi/container/map.h:742-791 | evicting a foreign chain fails exactly when moving its slots one by one runs out of free slots in reach; either the key gets the home slot with all chains well formed, or the iteration list holds exactly the old entries |
| DenseMaps.DenseMap.MoveChainAway | include/ffi/container/map.h:752-784 | the same for the moving itself; whatever happens halfway, the iteration list holds the old entries, and on success only the target slot is left protected |
| DenseRoom.RoundDone | include/ffi/container/map.h:758-784 | a round of the move lands on the first free slot in reach and frees the slot it leaves, except the very first |
| DenseRoom.NeverStuck | include/ffi/container/map.h:752-784 | where every slot is in reach, a move that starts with two free slots never runs out of them |
| DenseRoom.SmallTableTakes | include/ffi/container/map.h:681-791 | a table of at most 16 slots takes every new key until the load check finds it full |
| DenseRoom.CopyRefuses | include/ffi/container/map.h:892-920 | a copy has room for the same keys as the original |
| DenseRoom.FreeCount | include/ffi/container/map.h:199-203 | the free slots are the slots not counted by size |
| DenseTable.MoveStep | include/ffi/container/map.h:758-784 | one round of the eviction, with its writes to two metadata bytes, the slot and the list, keeps the half-moved table in order |
| DenseTable.MoveDone | include/ffi/container/map.h:784-790 | when the last slot has moved, all chains are closed and the target alone is protected |
| DenseTable.HeadInserted | include/ffi/container/map.h:689-694 | the key becomes head of its own one-slot chain in an empty or freed home slot |
| DenseTable.TailInserted | include/ffi/container/map.h:715-729 | the key joins the end of its chain through the jump that was found |
| DenseTable.ExistingTaken | include/ffi/container/map.h:702-711 | a present key is unlinked so that pushing it back moves it to the end |
| DenseMaps.DenseMap.Erase | include/ffi/container/map.h:571-576 | erasing a key removes its entry from the association list, keeps the order of the rest and keeps the table valid |
| DenseMaps.DenseMap.EraseMiddle | include/ffi/container/map.h:796-829 | moving the last slot of the chain into the hole erases exactly one entry of the list and keeps the table valid |
| DenseTable.MidErased | include/ffi/container/map.h:812-827 | the table after those writes is valid: chains, list, contents and size |
| DenseTable.TailErased | include/ffi/container/map.h:800-811 | erasing the last slot of a longer chain keeps the table valid |
| DenseTable.OnlyErased | include/ffi/container/map.h:796-811 | erasing a one-slot chain keeps the table valid |
| DenseMaps.DenseMap.FindPrev | include/ffi/container/map.h:1116-1124 | the walk from the chain head ends at the predecessor |
| DenseMaps.DenseMap.GetNextEmpty | include/ffi/container/map.h:1126-1143 | the first empty candidate and its jump code; none exactly when all 125 candidates are taken |
| DenseMaps.DenseMap.IterListUnlink | include/ffi/container/map.h:590-607 | unlinking a slot drops it from the doubly linked list, head and tail included |
| DenseMaps.DenseMap.IterListPushBack | include/ffi/container/map.h:610-625 | pushing back appends a slot to the doubly linked list |
| DenseMaps.DenseMap.IterListReplaceNodeBy | include/ffi/container/map.h:629-646 | a slot takes over the place of another in the doubly linked list |
| DenseLayout.UnlinkKeepsList | include/ffi/container/map.h:590-607 | prev stays the inverse of next, each listed slot once, after an unlink |
| DenseLayout.PushBackKeepsList | include/ffi/container/map.h:610-625 | the same after a push back |
| DenseLayout.ReplaceKeepsList | include/ffi/container/map.h:629-646 | the same after a replacement |
| DenseTable.OnExactlyOneChain | include/ffi/container/map.h:437-500 | between operations every occupied slot stands at exactly one place of exactly one chain, the chain of its key's home, with the head bit only there; no slot is protected |
| DenseTable.SizeCountsOccupied | include/ffi/container/map.h:199-203 | size equals the number of occupied slots and never exceeds the slots |
| DenseMaps.DenseMap.InsertMaybeReHash | include/ffi/container/map.h:926-959 | the contents become the list with the key set and moved to the end; the same table exactly when it does not refuse the key; each doubling is owed to a valid table of that size that holds a prefix of the entries and refuses the next one, up to 2^62 slots on a failure; eight slots never fail and double at most once |
| DenseMaps.DenseMap.MoveEntries | include/ffi/container/map.h:938-951 | the new table holds exactly the entries of the old iteration list, in order, even when the old chains are broken; it grows further, and fails, only by tables that refuse the next of these entries |
| DenseMaps.EightGrowOnce | include/ffi/container/map.h:937-957 | up to nine entries that do not go into a table of eight slots go into one of sixteen |
| DenseMaps.DenseMap.CopyFrom | include/ffi/container/map.h:892-920 | a fresh valid table with the same contents |
| DenseMaps.DenseMap.IncItr | include/ffi/container/map.h:973-984 | iteration visits the entries in list order |
| DenseMaps.DenseMap.DeRefItr | include/ffi/container/map.h:1000-1000 | an iterator shows its entry |
| DenseMaps.DenseMap.Get | include/ffi/container/map.h:551-569 | lookup equals lookup in the association list |
| DenseMaps.DenseMap.Empty | include/ffi/container/map.h:865-886 | a new table is valid and empty |
| DenseLayout.AddHead | include/ffi/container/map.h:1087-1091 | a new head keeps all chains well formed |
| DenseLayout.AddTail | include/ffi/container/map.h:1092-1097 | a new tail keeps all chains well formed |
| DenseLayout.CutBefore | include/ffi/container/map.h:742-760 | a chain cut before a slot leaves one closed chain and one loose fragment |
| DenseLayout.FoundAt | include/ffi/container/map.h:652-666 | an equal key in an occupied slot is the entry the list finds |
| DenseLayout.NotOnChain | include/ffi/container/map.h:652-666 | a key not on its home chain is not in the map |
| AssocList.LookupAfterSetLast | include/ffi/container/map.h:706-711 | setting with move to the end is the update of one mathematical map |
| AssocList.LookupAfterSetInPlace | include/ffi/container/map.h:387-393 | setting in place is the same update |
| AssocList.LookupAfterRemove | include/ffi/container/map.h:796-829 | removal takes one key out of the mathematical map |
| AssocList.RebuildIsIdentity | include/ffi/container/map.h:926-959 | inserting the entries of a map in order rebuilds exactly that map |
| Maps.SmallMap.FindIndex | include/ffi/container/map.h:296-303 | linear search finds the listed entry |
| Maps.SmallMap.EraseAt | include/ffi/container/map.h:322-341 | erasing shifts the rest and keeps their order |
| Maps.SmallMap.InsertMaybeReHash | include/ffi/container/map.h:387-406 | overwrites in place, appends, or grows to two and four slots; fails only when a fifth entry would be needed |
| Maps.InsertMaybeReHash | include/ffi/container/map.h:1313-1334 | whatever the layout, the lookup is updated; a small map never fails, and a full four-slot map turns dense even for a present key; a dense map fails only when tables of its size, of twice its size and so on up to 2^62 slots each refuse one of the entries, and with eight slots never |
| Maps.DenseFromSmall | include/ffi/container/map.h:1284-1311 | the eight-slot table for a full small map takes its four entries without rehash, keeping contents and order |
| Maps.Erase | include/ffi/container/map.h:309-341 | erase agrees with the list in both layouts |
| Maps.Get | include/ffi/container/map.h:296-303 | get agrees with the list in both layouts |
| MapHandles.Handles.CopyOnWrite | include/ffi/container/map.h:1504-1511 | after it the handle is the only one on its object; an object with one handle is kept, a shared one is copied |
| MapHandles.Handles.Set | include/ffi/container/map.h:1476-1479 | a write through one handle updates its own map and changes no other handle's view, also when it fails; it can fail only on a dense map, not one of eight slots, and only when tables of its size and of every larger one refuse one of its entries or the key |
| MapHandles.Handles.Erase | include/ffi/container/map.h:1494-1494 | erase through one handle, invisible to the others |
| MapHandles.Handles.Get | include/ffi/container/map.h:1487-1492 | lookups through a handle agree with its view |
| Probing.CalcTableSize | include/ffi/container/map.h:1018-1033 | for every capacity from 1 to 2^62 - 1 the slots are 2^(64 - shift) and between twice and four times the capacity; it fails exactly from 2^63 on |
| Probing.DoubledTable | include/ffi/container/map.h:938-938 | doubling a table keeps slots = 2^(64 - shift) |
| Probing.FibHashInTable | include/ffi/container/map.h:1041-1044 | multiplying modulo 2^64 and shifting lands inside the table |
| Probing.ProbeInTable | include/ffi/container/map.h:1100-1143 | every probe stays inside the table and index plus distance does not overflow 64 bits |
| RefCount.LifeOfAnObject | include/ffi/object.h:272-413 | in every interleaving the word is exactly (strong references, weak references and one for the strong group); destroyed once and not under a strong reference; freed once, after that, and not under any holder |
| RefCount.StrongZeroIsFinal | include/ffi/object.h:286-314 | once the strong count is zero it stays zero, and a promotion only succeeds before that |
| RefCount.StepKeepsInv | include/ffi/object.h:272-413 | every atomic step of every thread keeps the invariant below 2^32 references of a kind |
| RefCount.StepIsSafe | include/ffi/object.h:328-413 | nobody touches a freed block; the destructor and the release each run at their moment |
| RefCount.WordTells | include/ffi/object.h:264-268 | no carry passes between the halves of the word |
| RefCount.OwnersAreSafe | include/ffi/object.h:272-413 | what a strong or weak reference guarantees its owner |
| RefCount.StepEffect | include/ffi/object.h:272-413 | every step has its effect and no other: on the references of its own thread and their totals, on the word without a carry, on the runs of destructor and release, and on what its thread has to do next |
| RefCount.NobodyIsStuck | include/ffi/object.h:328-413 | a thread inside a call, or with a reference, can always go on |
| RefCount.CallComesToEnd | include/ffi/object.h:328-413 | without references every step brings its call closer to its end and makes no reference |
| RefCount.ObjectDies | include/ffi/object.h:328-413 | once all references are gone, whatever the threads do comes to an end; when none can go on, destructor and release have run once each |
| RefCount.NothingLeaks | include/ffi/object.h:328-413 | when all references are gone and all calls have returned, destructor and release have run |
| RefCount.InitInv | include/ffi/memory.h:95-105 | the header make_object writes satisfies the invariant |
| RefCount.RunDestructorStep | include/ffi/memory.h:163-176 | the destroying part of the deleter keeps the invariant |
| RefCount.FreeStep | include/ffi/memory.h:163-176 | the freeing part of the deleter keeps the invariant |
| RefCount.PromoteWinStep | include/ffi/object.h:286-314 | a successful compare-exchange sees a strong reference alive |
| RefCount.DecRefStep | include/ffi/object.h:363-389 | exactly the thread that drops the last strong reference is sent to the deleter; what the step changes is in StepEffect |
| RefCount.UniqueIsStable | include/ffi/object.h:210-228 | a use count of one cannot change under its owner while no other thread owns a weak reference |
| RefCount.WeakOwnerCanShare | include/ffi/object.h:698-706 | with a weak reference elsewhere it can: two steps make a second strong reference |
| AnyCells.AnyEqualMeaning | include/ffi/any.h:604-662 | AnyEqual compares kinds, and contents for strings and bytes however stored, payloads for the rest |
| AnyCells.EqualCellsHashAlike | include/ffi/any.h:575-601 | AnyEqual implies equal AnyHash |
| AnyCells.AnyTraitsLawful | include/ffi/any.h:575-662 | AnyEqual is an equivalence and AnyHash a 64-bit hash compatible with it |
| AnyCells.AnyHashTells | include/ffi/any.h:575-601 | cells of one kind with one AnyHash have the same payload or, as strings, bytes of one hash |
| AnyCells.HashContinues | include/ffi/base_details.h:91-168 | up to eight bytes are one word, and a longer string goes on from the hash of the whole words before |
| AnyCells.StableHashBytes | include/ffi/base_details.h:91-168 | the loop computes the word-by-word hash with a zero-padded last word |
| AnyCells.TailWord | include/ffi/base_details.h:137-157 | the 4/2/1 assembly is the zero-padded little-endian word |
| AnyCells.SmallHashAgrees | include/ffi/base_details.h:175-182 | an inline string hashes like the same bytes on the heap |
| AnyCells.MakeBytesWellFormed | include/ffi/string.h:177-197 | inline cells keep their unused bytes zero |
| StructuralLaw.EqualImpliesSameHash | src/ffi/extra/structural_equal.cpp:24-106 | Equal(a, b) implies Hash(a) = Hash(b) for the same free-variable setting, and neither hash fails, maps included: when an object that is a map key is a graph node or free variable met before its map, no free variable of b can be met first both mapped and unmapped, unique and constant nodes hold no graph node and no variable that may be mapped, and short bytes are stored alike |
| StructuralLaw.EqualImpliesSameHashWithoutMaps | src/ffi/extra/structural_equal.cpp:24-106 | on values without maps the same without the conditions on keys and on first meetings |
| StructuralLaw.LockAny | src/ffi/extra/structural_hash.cpp:27-73 | what a True comparison has matched is met by both hash traversals in lockstep: partners get one hash, and the memos and counters of both sides agree |
| StructuralLaw.LockMap | src/ffi/extra/structural_hash.cpp:206-238 | the same for maps, whose entries are hashed in another order than they are compared in, with ties and keys without a hash |
| StructuralLaw.LockLoose | src/ffi/extra/structural_hash.cpp:75-159 | a constant or unique node equal by its pointer is hashed alike on both sides and moves no counter, when no graph node and no mapped variable is below it |
| StructuralVisits.LooseAny | src/ffi/extra/structural_hash.cpp:141-149 | a value without graph nodes and mapped variables gets one hash wherever it is met, and moves no counter |
| StructuralMatching.Matched | src/ffi/extra/structural_equal.cpp:24-288 | a True comparison ends with mappings under which both values are related throughout, without reference to the order it went in |
| StructuralMatching.Follows | src/ffi/extra/structural_equal.cpp:24-288 | a comparison of values related under some mappings is True from any start below them and records nothing outside them |
| StructuralLimits.PointerShortcutBreaksTheLaw | src/ffi/extra/structural_equal.cpp:123-135 | a concrete pair with a unique or constant node that holds a graph node, or a free variable mapped elsewhere, is equal but hashed differently |
| StructuralLimits.TreeKeysBreakTheLaw | src/ffi/extra/structural_hash.cpp:173-204 | a concrete pair with a tree node as a map key is equal but hashed differently |
| StructuralLimits.UnmetKeysBreakTheLaw | src/ffi/extra/structural_hash.cpp:173-204 | a concrete pair with a graph node as a map key that is met only after the map is equal but hashed differently |
| StructuralLimits.OrderBreaksTheLaw | src/ffi/extra/structural_hash.cpp:206-238 | a concrete pair with a free variable used under one key and defined under another is equal but hashed differently |
| StructuralLimits.InlineBytesBreakTheLaw | src/ffi/extra/structural_hash.cpp:39-46 | inline and heap copies of short bytes are equal but hashed differently |
| StructuralLimits.StableCombineTells | include/ffi/base_details.h:78-83 | StableHashCombine tells the two numbers apart that the first of these needs |
| StructuralLimits.StableCombineTellsEntries | include/ffi/base_details.h:78-83 | it tells a hashed entry from one passed over, as the second needs |
| StructuralHash.InsertionOrderIsIrrelevant | src/ffi/extra/structural_hash.cpp:206-238 | the hash of a map and the state it leaves do not depend on the order of its entries |
| StructuralContent.LeafKeysHaveHashes | src/ffi/extra/structural_hash.cpp:173-204 | every plain value and every string has a hash as a map key, the one it has as a value but for a NaN |
| StructuralContent.OtherKeysHaveHashes | src/ffi/extra/structural_hash.cpp:173-204 | an object has one exactly once it has been visited, an array or a map never |
| StructuralContent.ChangeReachesTheHash | src/ffi/extra/structural_hash.cpp:206-236 | changing one leaf to one of another hash, below any arrays, untied entries and fields that are not ignored, changes the hash of the whole: anywhere for a combine that tells both arguments apart, and for the last value hashed when it tells the second apart |
| StructuralContent.NodeChangeSeen | src/ffi/extra/structural_hash.cpp:141-158 | a leaf changed in a graph node or a mapped free variable met for the first time changes the hash it is remembered under |
| StructuralContent.TextsTold | src/ffi/extra/structural_hash.cpp:49-56 | strings whose bytes hash differently have different hashes |
| StructuralContent.CellsTold | src/ffi/extra/structural_hash.cpp:31-47 | so have cells of one type with different payloads, unless both are NaN |
| StructuralContent.StableCombineTellsValues | include/ffi/base_details.h:78-83 | StableHashCombine tells its second argument apart |
| StructuralContent.EarlierChangeMayBeLost | include/ffi/base_details.h:78-83 | but not its first: two arrays of two integers that differ in the first alone can have one hash |
| StructuralHash.TreeMemoIsIrrelevant | src/ffi/extra/structural_hash.cpp:95-99 | remembering tree nodes changes no hash, when the keys of maps are met before their maps |
| StructuralHash.AgainAny | src/ffi/extra/structural_hash.cpp:95-99 | hashing a covered value again gives the same hash in any mode and moves no counter |
| HashOrder.NextGroup | src/ffi/extra/structural_hash.cpp:221-236 | in the sorted vector the next group of items is the next hash in order, and a tie exactly when it has two items |
| HashOrder.Sort | src/ffi/extra/structural_hash.cpp:218-219 | sorting by the hash gives an ascending permutation |
| StructuralHash.StructuralHashHandler.HashAny | src/ffi/extra/structural_hash.cpp:27-73 | the handler computes the specified hash and leaves the specified state |
| StructuralHash.StructuralHashHandler.HashObject | src/ffi/extra/structural_hash.cpp:75-159 | the same for objects: memo, fields, free-variable and graph counters |
| StructuralHash.StructuralHashHandler.HashFields | src/ffi/extra/structural_hash.cpp:106-122 | the same for the fields, with the mode swapped in def fields |
| StructuralHash.StructuralHashHandler.HashArray | src/ffi/extra/structural_hash.cpp:161-167 | the same for arrays |
| StructuralHash.StructuralHashHandler.HashMap | src/ffi/extra/structural_hash.cpp:206-238 | the same for maps: key hashes collected, sorted, ties detected, values hashed in that order; which entries take part is in StructuralContent |
| StructuralHash.StructuralHashHandler.HashKeys | src/ffi/extra/structural_hash.cpp:208-215 | collects the keys that have a hash, each once |
| StructuralEqual.EqualReflexive | src/ffi/extra/structural_equal.cpp:408-413 | a value is equal to itself exactly when all that is reached can be compared, else the comparison throws; it is never reported different |
| StructuralEqual.PlainEqualIff | src/ffi/extra/structural_equal.cpp:62-70 | plain values are equal exactly when their cells are the same or both are NaN, of whatever bits |
| StructuralSymmetry.EqualSymmetric | src/ffi/extra/structural_equal.cpp:408-413 | without maps Equal is symmetric, errors included |
| StructuralSymmetry.EqualSymmetricWithMaps | src/ffi/extra/structural_equal.cpp:246-288 | Equal is True in both directions or in none whenever iteration order decides nothing: each graph node or free variable that is a key has been recorded before its map is reached, and no free variable below a map can be met first both mapped and unmapped |
| StructuralSymmetry.OneModeIsOrderFree | src/ffi/extra/structural_equal.cpp:221-233 | so it is when no map has a graph node or free variable as a key and the free variables below each map all stand in mapped positions or all in others, whatever graph nodes are below it |
| StructuralSymmetry.MirrorSettled | src/ffi/extra/structural_equal.cpp:246-288 | the two directions are True together and end with swapped mappings, whatever the start |
| StructuralMatching.TrueBack | src/ffi/extra/structural_equal.cpp:246-288 | a True comparison is True in the other direction and records no more |
| StructuralMatching.RelatedSwaps | src/ffi/extra/structural_equal.cpp:246-288 | the relation a True comparison establishes holds in the other direction under the swapped mappings |
| StructuralMatching.KeysPairOff | src/ffi/extra/structural_equal.cpp:246-265 | the keys of two maps of one size pair off when those of the one are found in the other |
| StructuralSymmetry.NodeKeysBreakSymmetry | src/ffi/extra/structural_equal.cpp:246-288 | with graph nodes as keys that are met first in the map it is not symmetric: a concrete heap and pair that meet the other condition |
| StructuralSymmetry.FreeVariablesBreakSymmetry | src/ffi/extra/structural_equal.cpp:246-288 | nor with plain keys and a free variable used unmapped in one value and defined in another: a concrete heap and pair that meet the other condition |
| StructuralEqual.MappingsStayInverse | src/ffi/extra/structural_equal.cpp:137-149 | the two recorded mappings stay mutually inverse through every comparison |
| StructuralEqual.InverseObject | src/ffi/extra/structural_equal.cpp:221-244 | an object is recorded only while it is in neither mapping |
| StructuralEqual.MismatchIffUnequal | src/ffi/extra/structural_equal.cpp:408-433 | GetFirstMismatch returns none exactly when Equal returns true, unless the traced comparison meets an unsupported type |
| StructuralEqual.StructEqualHandler.CompareAny | src/ffi/extra/structural_equal.cpp:24-106 | the handler decides the specified comparison and leaves the specified mappings |
| StructuralEqual.StructEqualHandler.CompareObject | src/ffi/extra/structural_equal.cpp:108-244 | the same for objects |
| StructuralEqual.StructEqualHandler.CompareFields | src/ffi/extra/structural_equal.cpp:155-187 | the same for fields |
| StructuralEqual.StructEqualHandler.CompareArray | src/ffi/extra/structural_equal.cpp:290-323 | the same for arrays |
| StructuralEqual.StructEqualHandler.CompareMap | src/ffi/extra/structural_equal.cpp:246-288 | the same for maps |
| TypeTables.ReachableInstanceCheck | include/ffi/object.h:1069-1104 | in every table that fitting, non-escaping registrations produce, the instance check is the subtype relation of the declared hierarchy |
| TypeTables.InstanceCheckExact | include/ffi/object.h:1069-1104 | in any sound table the check is wrong exactly for descendants outside the block of a non-final target declared without overflow |
| TypeTables.SubtypeIffAbove | src/ffi/object.cpp:61-72 | one ancestor lookup at the target's depth decides the subtype relation |
| TypeTables.RegistersExactly | src/ffi/object.cpp:93-163 | in a sound table a new key is registered exactly when its static slot is in range, empty, above its parent and of the right depth, or its parent is there, the depth is right and the reserved slots suffice or it may overflow; the index is the static one, the next reserved one or the old counter, and only then the counter grows, by the children's slots and one |
| TypeTables.RegisterSound | src/ffi/object.cpp:93-163 | a registration, failed ones included, keeps blocks nested or disjoint, children above parents, and blocks closed under descent, exactly when the entry it writes fits: its block is free, at a place of its own family |
| TypeTables.DeclaredParent | src/ffi/object.cpp:61-72 | a new type is a subtype of itself and of exactly what the parent it was registered with is a subtype of |
| TypeTables.RegularRun | src/ffi/object.cpp:93-163 | low static indices without child slots, and depth 0 for roots only, always fit: such runs keep the table sound |
| TypeTables.WasFree | src/ffi/object.cpp:112-118 | a sound table with a new entry had the whole block of that entry free before |
| TypeTables.NothingOverwritten | src/ffi/object.cpp:93-163 | in a sound table a successful registration of any kind fills an empty slot above its parent and changes no other type |
| TypeTables.ContainedUnlessEscapes | src/ffi/object.cpp:111-118 | descendants of no-overflow types stay in their blocks, except exactly after a static registration below such a type and outside its block |
| TypeTables.StaticChildSlotsOverwrite | src/ffi/object.cpp:112-118 | after a registration that did not fit, a child overwrites another type: a concrete run |
| TypeTables.TypeTable.GetOrAllocTypeIndex | src/ffi/object.cpp:93-163 | on any table in which the slot it takes lies inside, the method does what the specification says; on a sound one it succeeds exactly for a known key and for those RegistersExactly accepts, with the index given there; a sound table stays sound exactly when the entry fits, and contained exactly when it does not escape |
| TypeTables.TypeTable.constructor | src/ffi/object.cpp:301-343 | the table after startup is sound and contained |
| JsonLaw.RoundTrip | src/ffi/extra/json_writer.cpp:21-25 | Parse(Stringify(v, indent)) = v for every indent, floats included that the platform carries |
| JsonLaw.FloatRoundTripIff | src/ffi/extra/json_writer.cpp:127-155 | on a platform that keeps the C standard a double comes back as itself exactly when it is no NaN with a payload and, where it is printed with 17 digits, its text does not look like an integer |
| JsonLaw.LargeFloatsComeBackAsIntegers | src/ffi/extra/json_writer.cpp:140-153 | the double 2^53 comes back as an integer |
| JsonLaw.StringRoundTripIff | src/ffi/extra/json_parser.cpp:111-114 | a string comes back exactly when the platform's char is unsigned or the string is ASCII |
| JsonLaw.ValueReads | src/ffi/extra/json_parser.cpp:534-592 | the printed text of a value is read back and nothing more |
| JsonLaw.StringReads | include/ffi/string.h:630-669 | every escaped string is read back |
| JsonLaw.NumberReads | src/ffi/extra/json_parser.cpp:126-220 | every 64-bit integer is read back and ends where it was printed to end |
| JsonLaw.CodePointReads | src/ffi/extra/json_parser.cpp:347-400 | every code point outside the surrogate range is read from its \u escape or surrogate pair |
| JsonLaw.Utf8Decodes | src/ffi/extra/json_parser.cpp:401-443 | the bytes pushed for a code point decode to it and are as few as can be |
| JsonWriting.EscapeString | include/ffi/string.h:630-669 | the loop writes the specified literal |
| JsonWriting.JSONWriter.WriteValue | src/ffi/extra/json_writer.cpp:71-112 | appends the specified text and restores the indent level |
| JsonWriting.JSONWriter.WriteFloat | src/ffi/extra/json_writer.cpp:127-155 | NaN, the infinities, integral doubles below 2^53 with one decimal, and the rest in the general format |
| JsonWriting.JSONWriter.WriteArray | src/ffi/extra/json_writer.cpp:162-181 | the same for arrays |
| JsonWriting.JSONWriter.WriteObject | src/ffi/extra/json_writer.cpp:183-212 | the same for objects |
| JsonWriting.JSONWriter.WriteIndent | src/ffi/extra/json_writer.cpp:214-220 | a newline and one space per level, none for a negative level |
| JsonLayout.LinesAreLaidOut | src/ffi/extra/json_writer.cpp:162-220 | with an indent every element and entry has a line of its own, as many spaces in as its level, and so has the closing bracket; nothing else breaks a line |
| JsonLayout.Compact | src/ffi/extra/json_writer.cpp:162-212 | without an indent a container is its elements or entries with commas between them |
| JsonLayout.EscapedExactly | include/ffi/string.h:630-669 | which bytes are escaped, and in how many characters |
| JsonReading.JSONParser.Parse | src/ffi/extra/json_parser.cpp:500-521 | the parser finds a value exactly when the grammar derives the text with it, and rejects every other text; the temp stacks end as they began |
| GrammarLaw.ParsesExactly | src/ffi/extra/json_parser.cpp:500-532 | Parse yields v exactly when some derivation of the grammar has this text and the value v: spaces, literals, numbers, escapes and surrogate pairs, arrays, objects, nothing after the value |
| GrammarLaw.OneMeaning | src/ffi/extra/json_parser.cpp:500-532 | all derivations of a text have one value |
| GrammarLaw.RejectsTheRest | src/ffi/extra/json_parser.cpp:524-532 | a text without a derivation is rejected |
| GrammarLaw.WholeIff | src/ffi/extra/json_parser.cpp:194-205 | a lexeme is read as an integer exactly when it is an optional sign and digits whose place value fits 64 bits |
| GrammarLaw.MakesCollected | src/ffi/extra/json_parser.cpp:630-640 | a repeated key has its last value, and stands where it came first among fewer than four entries, else where it came last |
| JsonReading.JSONParser.ParseValue | src/ffi/extra/json_parser.cpp:534-592 | the same for one value; on success both temp stacks are back at their entry contents |
| JsonReading.JSONParser.ParseElements | src/ffi/extra/json_parser.cpp:648-689 | the array loop takes its elements off the shared stack again |
| JsonReading.JSONParser.ParseEntries | src/ffi/extra/json_parser.cpp:594-646 | the object loop takes its entries off the shared stack again |
| JsonReading.JSONParser.NextString | src/ffi/extra/json_parser.cpp:97-119 | the fast path and the full handling together read the specified string |
| JsonReading.JSONParser.NextStringWithFullHandling | src/ffi/extra/json_parser.cpp:316-459 | escapes, control characters and the end of the text as specified |
| JsonReading.JSONParser.NextNumber | src/ffi/extra/json_parser.cpp:126-220 | collects the lexeme and reads it as an integer first |
| JsonReading.JSONParser.Parse4Hex | src/ffi/extra/json_parser.cpp:465-482 | four hex digits or failure |
| JsonReading.JSONParser.SkipSpaces | src/ffi/extra/json_parser.cpp:61-73 | skips exactly the leading spaces |
| GraphLaw.RoundTrip | src/ffi/extra/serialization.cpp:208-217 | FromJSONGraph(ToJSONGraph(v)) is v with its identities renamed one to one; every child index is below its node's index |
| GraphMeaning.DecodesExactly | src/ffi/extra/serialization.cpp:219-363 | any acyclic node list decodes exactly when its root has a meaning, read node by node without a memo, and then to that value with one new identity for every object node |
| GraphMeaning.LastValueWins | src/ffi/extra/serialization.cpp:295-304 | a rebuilt map holds the last value given for each key, and each key once |
| GraphReading.TextMeans | src/ffi/extra/serialization.cpp:365-393 | FromJSONGraphString reads exactly the texts that derive an object graph whose root has a meaning, and yields that value |
| GraphReading.GatherEach | src/ffi/extra/serialization.cpp:347-361 | the fields are read in the order of the type; a missing one is an error, others do not matter |
| GraphReading.NodesEach | src/ffi/extra/serialization.cpp:219-235 | a node list is readable exactly when each of its nodes is |
| GraphLaw.SharingKept | src/ffi/extra/serialization.cpp:35-143 | two positions share an object afterwards exactly when they did before |
| GraphLaw.IndexWrites | src/ffi/extra/serialization.cpp:35-143 | every value gets one node of its own that describes it, bottom up |
| GraphLaw.DecodeMatches | src/ffi/extra/serialization.cpp:219-235 | decoding a node yields its value with renamed identities, once per node |
| GraphLaw.PairsAppended | src/ffi/extra/serialization.cpp:295-304 | a map is rebuilt with its entries in their order |
| GraphCoding.ObjectGraphSerializer.GetOrCreateNodeIndex | src/ffi/extra/serialization.cpp:35-124 | the serializer computes the specified index and state |
| GraphCoding.ObjectGraphSerializer.CreateData | src/ffi/extra/serialization.cpp:126-200 | the same for array, map and object data |
| GraphCoding.ObjectGraphDeserializer.GetOrDecodeNode | src/ffi/extra/serialization.cpp:219-235 | on every acyclic node list the deserializer computes the specified value and state and terminates |
| GraphCoding.ObjectGraphDeserializer.DecodeNode | src/ffi/extra/serialization.cpp:238-284 | the same for one node |
| GraphCoding.ObjectGraphDeserializer.DecodeData | src/ffi/extra/serialization.cpp:286-363 | the same for array, map and object data |
| GraphJson.StringRoundTrip | src/ffi/extra/serialization.cpp:390-397 | FromJSONGraphString(ToJSONGraphString(v)) is v up to the renaming, through JSON text |
| GraphJson.GraphAgain | src/ffi/extra/serialization.cpp:365-379 | a graph is read back from its JSON object |
| Base64.RoundTrip | include/ffi/extra/base64.h:18-50 | decoding an encoding gives the bytes back |
| Base64.DigitIsInAlphabet | include/ffi/extra/base64.h:20-21 | the digits of both tables are the alphabet of RFC 4648 |
| Base64.GroupIsNumber | include/ffi/extra/base64.h:25-34 | three bytes are one number of 24 bits, written in four digits of base 64 |
| Base64.GroupReads | include/ffi/extra/base64.h:66-109 | any four letters are a number of 24 bits read as three bytes, one less for each = at the end |
| Base64.Base64Encode | include/ffi/extra/base64.h:18-50 | the loop computes the specified encoding |
| Base64.Base64Decode | include/ffi/extra/base64.h:66-109 | the loop computes the specified decoding; fails on a length that is no multiple of four |
| ArrayCow.ArrayHandles.CopyOnWrite | include/ffi/container/array.h:812-821 | in place exactly at use count one, otherwise on a fresh copy |
| ArrayCow.ArrayHandles.CopyOnWriteFor | include/ffi/container/array.h:845-858 | the same with room for the new elements |
| ArrayCow.ArrayHandles.SwitchContainer | include/ffi/container/array.h:864-873 | contents moved or copied into a fresh object of the given capacity |
| ArrayCow.ArrayHandles.PushBack | include/ffi/container/array.h:534-537 | appends on its own handle only |
| ArrayCow.ArrayHandles.Insert | include/ffi/container/array.h:550-588 | inserts on its own handle only, single and range |
| ArrayCow.ArrayHandles.PopBack | include/ffi/container/array.h:591-601 | drops the last element of its own handle only; an error on an empty array |
| ArrayCow.ArrayHandles.Erase | include/ffi/container/array.h:607-649 | erases a range of its own handle only; bad ranges are errors |
| ArrayCow.ArrayHandles.Resize | include/ffi/container/array.h:655-671 | cuts or pads its own handle only |
| ArrayCow.ArrayHandles.Reserve | include/ffi/container/array.h:677-681 | more capacity, same contents |
| ArrayCow.ArrayHandles.Clear | include/ffi/container/array.h:684-689 | empties its own handle only |
| ArrayCow.ArrayHandles.Set | include/ffi/container/array.h:728-734 | replaces one element of its own handle only; a bad index is an error that changes no view |
| ArrayCow.ArrayObj.MoveElementsRight | include/ffi/container/array.h:235-242 | overlapping elements survive the shift to the right |
| ArrayCow.ArrayObj.MoveElementsLeft | include/ffi/container/array.h:219-226 | overlapping elements survive the shift to the left |
| ArrayCow.ArrayObj.InsertRange | include/ffi/container/array.h:581-587 | the in-place steps of an insertion give the spliced sequence |
| ArrayCow.ArrayObj.EraseRange | include/ffi/container/array.h:646-648 | the in-place steps of an erasure give the cut sequence |
| ModuleGraphs.ModuleObj.ImportModule | src/ffi/extra/module.cpp:31-48 | the worklist visits exactly the modules reached from the new import; it is refused exactly when that would close a cycle; the graph stays acyclic |
| ModuleGraphs.EveryRunIsAcyclic | src/ffi/extra/module.cpp:31-50 | whatever modules are made, import each other and drop their imports: no graph reached from nothing has a cycle or an import outside it |
| ModuleGraphs.ModuleObj.NewModuleJoins | src/ffi/extra/module.cpp:31-48 | a new module joins the modules with the graph closed and acyclic |
| ModuleGraphs.ImportKeepsAcyclic | src/ffi/extra/module.cpp:44-47 | an import keeps the graph acyclic exactly when the importer is not reached from the imported module |
| ModuleGraphs.ModuleObj.ClearImports | src/ffi/extra/module.cpp:50-50 | clearing keeps the graph acyclic |
| ModuleGraphs.ModuleObj.GetFunction | src/ffi/extra/module.cpp:17-29 | terminates and returns the first definition in depth-first preorder |
| ModuleGraphs.FoundIffReachable | src/ffi/extra/module.cpp:17-29 | a function is found exactly when a module reached through the imports defines it |
| ModuleGraphs.PreorderReaches | src/ffi/extra/module.cpp:17-29 | the preorder lists exactly the modules reached |

## Left out

- Maps: blocks of 16 slots are flattened into parallel arrays; `ReleaseMemory`, `Reset` and reverse iteration are not modelled.
- Maps: hash and probe are any functions with values inside the table; `FibHash` and the probe distances are shown to be such functions in `Probing`.
- Maps: the load check in double arithmetic is an exact comparison with 99 hundredths; the rehash that would exceed 2^62 slots is a failed outcome.
- Maps: building a map from a range is modelled where JSON objects are built and where a small map turns dense, not for other ranges.
- MapHandles.Handles.Set: after a failure nothing is promised about the map of the handle itself, whose entries have been moved out.
- RefCount: atomics are sequentially consistent, a compare-exchange may fail spuriously; a header without deleter and the Windows variant are not modelled; `Few` stands for fewer than 2^32 references of a kind.
- AnyCells: little-endian layout only.
- StructuralEqual: custom equality hooks, shapes, tensors and mismatch paths are not modelled; object types are flat field lists; the loop that only looks for a key to report is skipped.
- StructuralHash: shapes, tensors and custom hooks are not hashed in the model; an object type without metadata is an error, as there.
- StructuralLaw.EqualImpliesSameHash: its conditions are sufficient; those on nodes, keys, order and storage each have a counterexample in `StructuralLimits`, but not every value beyond them breaks the law, which depends on the hash function and on the order of the key hashes.
- StructuralSymmetry.EqualSymmetricWithMaps: only whether the answer is True is symmetric, since which entry is met first decides between different and an error; an object has one value per field of its type. Its condition is sufficient; beyond it, as the two counterexamples show, the answer can depend on the order in which the left map is iterated.
- TypeTables: indices are unbounded, type attributes, fields and methods are not modelled.
- TypeTables.TypeTable.GetOrAllocTypeIndex: asks that the slot it would take from its parent lies inside the table, because the repository would index past it; a sound table always has it inside.
- StructuralContent.ChangeReachesTheHash: one leaf at a time and the same keys on both sides; objects on the way are neither graph nodes nor free variables, whose copies would be remembered under another identity; StructuralContent.NodeChangeSeen has those by themselves.
- JSON: `strtod`, the general format of `snprintf` and the conversion of an integer to a double are parameters; error messages and positions are not modelled, bytes from 0x80 on only through the platform parameter.
- JSON: keys that are not strings cannot be written down in the model, so the error for them is missing.
- GraphCoding.ObjectGraphDeserializer.GetOrDecodeNode: cyclic node lists and indices of no node are outside its precondition; on the first the recursion of the repository does not end, on the second it indexes past its vector.
- GraphJson: texts with such node lists are no result in the model.
- Object graphs: shapes, dtypes, devices, metadata, custom hooks and default field values are not modelled; a decoded map keeps one identity while it grows; its pairs are set after all of them are decoded.
- Base64.Base64Decode: bytes behind the decode table are excluded, because the code would read past it.
- Arrays: null handles, values that alias the array, `Map`, `MutateByApply`, `Assign` and `Agregate` are not modelled.
- Modules: library loading, metadata and documentation lookup, lookup without imports and the import lookup cache are not modelled; module functions are integers.
- Signal handling, dynamic libraries, function packing, reflection registration, dtype strings and access paths are not modelled.
