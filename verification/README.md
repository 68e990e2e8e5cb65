# Verified models of prpc

This project models the parts of prpc that hold the most intricate state, and proves what they are
for. Each part has a plain specification (a map, a sequence, a tree, a sum) that complicated code
must agree with.

| files | what they model |
|---|---|
| `PoolNodes`, `PoolHashTable` | the pool hash table: coalesced chaining in one node pool, tagged nodes, a circular free list through node 0, the chain-suffix shift, both ways of rehashing |
| `LinearHashing`, `HashTable` | the linear-hashing table: buckets split one at a time, the bucket array migrated a bucket at a time, chains of heap entries reached through pointers to pointers |
| `MapRuns` | what a run of calls on a finite map observes; both tables are held against it |
| `JsonValues`, `JsonLexers`, `JsonParsers` | values, scanner and parser of PicoJsonNode |
| `JsonStrings`, `JsonNumerals`, `JsonGrammars` | the grammar of RFC 7159, and that the parser is exact for it |
| `JsonTexts` | the printer, and that parsing undoes it |
| `JsonPointers`, `Decimals`, `JsonPatches`, `JsonOperations` | JSON Pointer, diff, and JSON Patch with what each of its operations does |
| `Aggregators`, `Accumulators`, `AccumulatorReads`, `AccumulatorUsers`, `AccumulatorObjects` | the accumulator protocol as a state machine over all interleavings, what reads see of it, the accumulators that write to it, and the objects whose methods make its steps |
| `LazyVectors` | LazyVector: views into shared, growing buffers |
| `Monitors` | the timer thread as a state machine, and its object |
| `BlockAllocators` | the block allocator's free list through its own cells |
| `JumpHash` | jump consistent hashing |
| `Basics`, `Bits` | shared constants, bit masks |

`dafny verify dfyconfig.toml` checks everything.

Conventions. Where the program updates objects in place the model has classes with the same fields,
and loops where the program loops; a method is proved against a function of the old state, and the
laws are lemmas about such functions or contracts of methods that make whole runs. Ghost fields
carry what the proof needs to know (which chain a node is on, which list a bucket holds). A region
under a lock is one step. Numbers are unbounded unless written otherwise; 32-bit and 64-bit
arithmetic is written out where it matters: the distance test of the pool, array indices and
numerals in JSON, the keys of jump hashing. Rounding to double is a parameter of jump hashing.

Where the code and its documentation disagree the code is followed:

- The documentation of diff promises `source.patch(diff(source, target)) == target` without
  exception. It throws if and only if an array has to get an element at an index i with i mod 2^32 at
  least 2^31, or at least 2^63 (`JsonPatches.PatchOfDiffExact`); from arrays below 2^32 elements this
  means growth beyond 2^31 elements (`JsonPatches.PatchOfDiffFails`). Arrays of 2^32 and more elements
  that grow may get the new elements in the wrong place (`JsonPatches.PatchOfDiffMisplaces`).
- get_number means to turn to floating point when a number overflows, and can miss it
  (`JsonNumerals.OverflowMissed`). It notices the overflow if and only if the remainders modulo 2^64 of
  the number's prefixes do not climb up to the maximum (`JsonNumerals.OverflowNoticed`).
- Destroying an event of the monitor also drops the events that are due at the same time
  (`Monitors.EventDropped`).

## Model

| member | source | states |
|---|---|---|
| `PoolHashTables.PoolHashTable.Execute` | src/misc/PoolHashTable.h:597-761 | every run of find, emplace/try_emplace/insert, operator[] with assignment, erase, clear, reserve, rehash and max_load_factor, of any length, is answered call by call as a finite map answers it, and leaves the table equal to that map, however often the pool grows or shrinks on the way; unless max_load_factor is called it never gets fuller than the load factor allows |
| `PoolHashTables.PoolHashTable.Call` | src/misc/PoolHashTable.h:597-761 | one such call: the answer and the new map are those of the finite map, and the whole pool invariant is kept |
| `PoolHashTables.PoolHashTable.Tune` | src/misc/PoolHashTable.h:601-635 | reserve, rehash to more or fewer buckets and any load factor keep the pool invariant and leave exactly the same map |
| `PoolHashTables.PoolHashTable.ChangeLoadFactor` | src/misc/PoolHashTable.h:601-608 | a new load factor, even one that the pool already exceeds, keeps the whole invariant |
| `PoolHashTables.PoolHashTable.Sweep` | src/misc/PoolHashTable.h:677-698 | a loop that erases some items through its iterator and steps over the others offers every item that was there exactly once, and what is left is exactly what was stepped over |
| `PoolHashTables.PoolHashTable.EraseAt` | src/misc/PoolHashTable.h:677-698 | erasing at an iterator removes exactly that key; the slot takes over the next chain item, from a lower or a higher offset, and the returned iterator stands where no item is skipped or met twice |
| `PoolHashTables.PoolHashTable.NextOffset` | src/misc/PoolHashTable.h:1030-1036 | the iterator goes to the next occupied node, so no item lies between |
| `PoolHashTables.PoolHashTable.Placement` | src/misc/PoolHashTable.h:920-931 | every stored item lies on the chain that starts at its own head slot, and is met once in walking it |
| `PoolHashTables.PoolHashTable.FreeNodes` | src/misc/PoolHashTable.h:1062-1090 | the list through node 0, read forwards, is exactly the EMPTY nodes, read backwards it is the same list, and items plus free nodes are all nodes |
| `PoolNodes.ChainExact` | src/misc/PoolHashTable.h:920-931 | walking next links from a HEAD node ends, and meets exactly the nodes of that chain, each once: chains are acyclic and disjoint and cover the occupied nodes |
| `PoolNodes.FreeListExact` | src/misc/PoolHashTable.h:1062-1090 | the same for the free list: it is exactly the EMPTY nodes |
| `PoolHashTables.PoolHashTable.AllocateNode` | src/misc/PoolHashTable.h:1074-1080 | takes an EMPTY node out of the doubly linked list and makes it a PROBE node; all chains and the rest of the list stand |
| `PoolHashTables.PoolHashTable.DeallocateNode` | src/misc/PoolHashTable.h:1082-1090 | puts a node at the tail of the free list; all chains stand |
| `PoolHashTables.PoolHashTable.ProbeNode` | src/misc/PoolHashTable.h:1092-1101 | returns an EMPTY node whenever there is one, as written: the unsigned distance test fails after one step, so it is the start node or the tail of the free list |
| `PoolHashTables.PoolHashTable.ProbeNodeRehash` | src/misc/PoolHashTable.h:1103-1112 | returns an EMPTY or a marked node whenever there is one |
| `PoolHashTables.PoolHashTable.InnerFind` | src/misc/PoolHashTable.h:920-931 | returns the offset of the key if and only if the key is in the map, else 0 |
| `PoolHashTables.PoolHashTable.InnerAllocate` | src/misc/PoolHashTable.h:933-975 | gives a new key a node on its own chain in all three cases (empty slot, slot is a HEAD, slot holds a foreign PROBE node), keeping every other item and every chain; needs a free node and never gets node 0 |
| `PoolHashTables.PoolHashTable.EvictProbe` | src/misc/PoolHashTable.h:949-974 | the chain-suffix shift: the foreign chain loses the slot but no item, each item of the suffix moving one node on |
| `PoolHashTables.PoolHashTable.OpenSlot` | src/misc/PoolHashTable.h:952-968 | the items of the suffix move one node on, so that the slot is open and the chain has one more node |
| `PoolHashTables.PoolHashTable.InnerEmplaceNotExist` | src/misc/PoolHashTable.h:977-983 | adds the key and value to the map; the preceding reserve has always left a free node |
| `PoolHashTables.PoolHashTable.Emplace` | src/misc/PoolHashTable.h:700-741 | inserts only a key that is not there, and says so |
| `PoolHashTables.PoolHashTable.Put` | src/misc/PoolHashTable.h:743-761 | operator[] followed by an assignment: the map with this key set to this value |
| `PoolHashTables.PoolHashTable.EraseKey` | src/misc/PoolHashTable.h:668-675 | removes exactly this key, and says whether it was there |
| `PoolHashTables.PoolHashTable.Find` | src/misc/PoolHashTable.h:644-666 | the value of the key in the map, or nothing |
| `PoolHashTables.PoolHashTable.Clear` | src/misc/PoolHashTable.h:637-642 | the empty map in the same nodes, all of them free |
| `PoolHashTables.PoolHashTable.InitializeNodes` | src/misc/PoolHashTable.h:1062-1071 | all nodes end up on the free list |
| `PoolHashTables.PoolHashTable.SetMaxLoadFactor` | src/misc/PoolHashTable.h:601-608 | the factor is clamped to [0.1, 1] and the item limit is what it allows (real arithmetic) |
| `PoolHashTables.PoolHashTable.SetSpace` | src/misc/PoolHashTable.h:345-363 | the nodes there were are kept, new ones are EMPTY, and the mask is the largest 2^k - 1 that fits |
| `PoolHashTables.PoolHashTable.Resize` | src/misc/PoolHashTable.h:610-623 | rehashing by either path, growing or shrinking, keeps exactly the same map and leaves the least number of nodes that is at least the requested one and enough for the items at the load factor |
| `PoolHashTables.PoolHashTable.Reserve` | src/misc/PoolHashTable.h:625-635 | afterwards there are nodes for n items within the load factor, with the same map, and nothing changes if there were; hence an insertion always finds a free node |
| `PoolHashTables.PoolHashTable.RemapRehash` | src/misc/PoolHashTable.h:822-894 | the three in-place passes together end with exactly the same map, in a valid pool under the new mask |
| `PoolHashTables.PoolHashTable.MarkNodes` | src/misc/PoolHashTable.h:827-837 | pass 1: the free list is rebuilt from the empty nodes and all items are marked for rehashing, none lost |
| `PoolHashTables.PoolHashTable.FillHeads` | src/misc/PoolHashTable.h:839-863 | pass 2 ends, with every key that has a waiting item having an item at its head slot; the map is unchanged |
| `PoolHashTables.PoolHashTable.HeadStep` | src/misc/PoolHashTable.h:841-863 | one round of pass 2: fewer marked nodes, or the same number and a later offset; the map is unchanged |
| `PoolHashTables.PoolHashTable.FillProbes` | src/misc/PoolHashTable.h:865-893 | pass 3 ends with no marked node and every item on its own chain; the map is unchanged |
| `PoolHashTables.PoolHashTable.ProbeStep` | src/misc/PoolHashTable.h:866-893 | one round of pass 3, with the same measure |
| `PoolHashTables.PoolHashTable.SerializeRehash` | src/misc/PoolHashTable.h:896-918 | draining and inserting again keeps exactly the same map |
| `PoolHashTables.PoolHashTable.Drain` | src/misc/PoolHashTable.h:898-904 | the drained queue lists every item exactly once |
| `PoolHashTables.PoolHashTable.constructor` | src/misc/PoolHashTable.h:451-463 | a valid pool of one node that holds the empty map |
| `PoolHashTables.PoolHashTable.TakeHead` | src/misc/PoolHashTable.h:936-939 | an empty head slot becomes a HEAD node that waits for the key's item; nothing else changes |
| `PoolHashTables.PoolHashTable.AppendProbe` | src/misc/PoolHashTable.h:940-948 | a free node is appended to the chain of the head slot |
| `PoolHashTables.PoolHashTable.LastOf` | src/misc/PoolHashTable.h:941-944 | the walk ends at the last node of the same chain |
| `PoolHashTables.PoolHashTable.ChainFrom` | src/misc/PoolHashTable.h:952-959 | the suffix of the chain, node by node, without repetition, up to its end |
| `PoolHashTables.PoolHashTable.ShiftItems` | src/misc/PoolHashTable.h:964-968 | moving every item of the suffix one node on frees its first node and keeps the map |
| `PoolHashTables.PoolHashTable.Promote` | src/misc/PoolHashTable.h:970-973 | the freed slot leaves the foreign chain and becomes a HEAD of its own |
| `PoolHashTables.PoolHashTable.FindNodeBefore` | src/misc/PoolHashTable.h:985-991 | the walk from the head finds the node that links to this one |
| `PoolHashTables.PoolHashTable.MoveIn` | src/misc/PoolHashTable.h:981 | the item is put into its node, and the map has gained exactly this key |
| `PoolHashTables.PoolHashTable.EraseShift` | src/misc/PoolHashTable.h:681-686 | the erased item is replaced by that of the next node, which becomes free |
| `PoolHashTables.PoolHashTable.EraseLast` | src/misc/PoolHashTable.h:687-695 | the last node of a chain is unlinked, or a lone HEAD freed |
| `PoolHashTables.PoolHashTable.ClaimHead` | src/misc/PoolHashTable.h:845-852 | a marked head slot becomes HEAD and gets the item, whose place takes the item that was there |
| `PoolHashTables.PoolHashTable.TagHead` | src/misc/PoolHashTable.h:845-847 | a marked node that holds an item of its own becomes HEAD; every other node and the map stay |
| `PoolHashTables.PoolHashTable.MoveToHead` | src/misc/PoolHashTable.h:853-858 | an empty head slot becomes HEAD and gets the item, whose old node becomes free |
| `PoolHashTables.PoolHashTable.AdoptProbe` | src/misc/PoolHashTable.h:874-882 | a marked node joins the chain with the item, whose place takes the item that was there |
| `PoolHashTables.PoolHashTable.MoveToProbe` | src/misc/PoolHashTable.h:883-888 | an empty node joins the chain with the item, whose old node becomes free |
| `PoolHashTables.PoolHashTable.GrowMarked` | src/misc/PoolHashTable.h:822-837 | growing and pass 1 together: every item waits to be rehashed, and there is a free node |
| `PoolHashTables.PoolHashTable.EmptyPool` | src/misc/PoolHashTable.h:906-909 | an empty pool of the new size |
| `PoolHashTables.PoolHashTable.Refill` | src/misc/PoolHashTable.h:911-916 | inserting the drained items one by one restores the map, and always finds a free node |
| `PoolHashTables.PoolHashTable.ExpandSpace` | src/misc/PoolHashTable.h:365-376 | the pool grows by at least a ninth and at least one node, so that growth is geometric |
| `PoolHashTables.RoundUp` | src/misc/PoolHashTable.h:611-615 | the counting loop of rehash and reserve ends with the first number of buckets that is enough under the load factor |
| `HashTables.HashTable.Execute` | src/misc/HashTable.h:390-629 | every run of find, insert, operator[] with assignment, erase, clear and max_load_factor is answered as a finite map answers it, while buckets are split and the bucket array is migrated; with a fixed load factor of at least 1/2 it never gets fuller than that |
| `HashTables.HashTable.Call` | src/misc/HashTable.h:390-629 | one such call, with the whole invariant kept |
| `HashTables.HashTable.SetMaxLoadFactor` | src/misc/HashTable.h:627-629 | any factor keeps the invariant |
| `HashTables.HashTable.Iterate` | src/misc/HashTable.h:91-103 | a loop from begin to end visits every entry exactly once |
| `HashTables.HashTable.Next` | src/misc/HashTable.h:91-103 | incrementing passes exactly the entry the iterator stood at, whether the next one is in the same bucket or in a later one |
| `HashTables.HashTable.Begin` | src/misc/HashTable.h:436-442 | begin stands before every entry |
| `HashTables.HashTable.FirstNonempty` | src/misc/HashTable.h:344-349 | skips exactly the empty buckets |
| `HashTables.HashTable.HomeOf` | src/misc/HashTable.h:333-339 | every entry is in the bucket that hash_to_bucket gives for its hash code, and that bucket exists |
| `MapRuns.StateIs` | src/misc/HashTable.h:390-602 | the finite map that both tables are held against, key by key: the last value put under the key and not erased |
| `MapRuns.AnswerIs` | src/misc/HashTable.h:390-602 | and its answers: the value of the key, or whether the key was new or was there |
| `HashTables.HashTable.InsertPostprocess` | src/misc/HashTable.h:803-811 | counts the entry and adds exactly two buckets if the load asks for them, else none; ends with migration no further behind than buckets are left to add, so the check in reserve never fails |
| `HashTables.TwoBuckets` | src/misc/HashTable.h:803-811 | two more buckets keep the load within the factor after an insertion, for factors from 1/2 on |
| `HashTables.TwoBucketsFail` | src/misc/HashTable.h:803-811 | for every smaller factor enough insertions exceed it |
| `HashTables.HashTable.Grow` | src/misc/HashTable.h:804-809 | one added bucket is paid for by one moved bucket |
| `HashTables.HashTable.AddBucket` | src/misc/HashTable.h:762-785 | splits one bucket, growing the array only when migration has finished; every bucket access is inside its array |
| `HashTables.HashTable.SplitChain` | src/misc/HashTable.h:773-784 | the rehashing loop through pointers to pointers leaves in the old bucket exactly the entries that stay and puts exactly the others, in order, into the new one |
| `HashTables.HashTable.MoveEntry` | src/misc/HashTable.h:776-780 | the three pointer writes move one entry between two lists and disturb nothing else |
| `HashTables.HashTable.MoveBucket` | src/misc/HashTable.h:790-798 | moves one bucket to the new array; every list stays where bucket() finds it |
| `HashTables.HashTable.Reserve` | src/misc/HashTable.h:636-645 | starts a migration that changes no list; the table stays on schedule if and only if nothing is done or the new array has at least twice the buckets |
| `HashTables.HashTable.FindEntry` | src/misc/HashTable.h:719-756 | the pointer to the entry of the key, or the null pointer at the end of its list if and only if the key is not there |
| `HashTables.HashTable.Insert` | src/misc/HashTable.h:505-518 | adds a key that is not there and leaves an existing one alone |
| `HashTables.HashTable.Put` | src/misc/HashTable.h:390-403 | operator[] followed by an assignment: the map with this key set to this value |
| `HashTables.HashTable.Erase` | src/misc/HashTable.h:590-602 | removes exactly this key, and says whether it was there |
| `HashTables.HashTable.Clear` | src/misc/HashTable.h:480-498 | releases every entry, so that the size is 0 as the program checks, and keeps the capacity |
| `HashTables.HashTable.Find` | src/misc/HashTable.h:423-431 | the value of the key, or nothing |
| `HashTables.HashTable.constructor` | src/misc/HashTable.h:253-259 | the empty map in one bucket, for any capacity from 1 on |
| `HashTables.HashTable.SplitStep` | src/misc/HashTable.h:775-783 | one round of the rehashing loop: the entry moves or is passed over, and the lists so far are right |
| `HashTables.HashTable.Widen` | src/misc/HashTable.h:766-771 | the mask and the count grow together, and the bucket to split is an existing one |
| `HashTables.HashTable.SplitNext` | src/misc/HashTable.h:766-784 | after the split every entry is where the grown table looks for it |
| `HashTables.HashTable.LinkIn` | src/misc/HashTable.h:511-515 | writing the new entry through the found pointer appends it to its bucket |
| `HashTables.HashTable.LinkOut` | src/misc/HashTable.h:595-598 | writing the next entry through the found pointer takes exactly this entry out |
| `HashTables.HashTable.Release` | src/misc/HashTable.h:482-490 | one bucket is emptied and its entries are counted off |
| `HashTables.HashTable.FreeEntries` | src/misc/HashTable.h:483-489 | the walk along a list counts off exactly its entries, and the rest stays indexed |
| `HashTables.HomesSplit` | src/misc/HashTable.h:762-785 | splitting one bucket keeps every entry in the bucket of its hash code |
| `LinearHashing.Splits` | src/misc/HashTable.h:762-772 | adding a bucket moves exactly the hash codes of one old bucket whose masked code is the new number; all other codes keep their bucket |
| `LinearHashing.BucketRange` | src/misc/HashTable.h:333-339 | hash_to_bucket always gives an existing bucket |
| `LinearHashing.PowerTest` | src/misc/HashTable.h:766-768 | the bit test recognizes exactly the powers of two |
| `JsonPatches.PatchOfDiff` | src/addition/PicoJsonNode.h:10739-10743 | patching source with diff(source, target) succeeds and gives the target, up to the signedness of its numbers, for all float-free values whose arrays do not grow beyond 2^31 elements |
| `JsonPatches.PatchOfDiffExact` | src/addition/PicoJsonNode.h:10511-10572 | for every float-free source, of arrays of any size: patching with the diff succeeds if and only if every added index i has i mod 2^32 below 2^31 (and is below 2^63), and the result is given exactly, with the elements to be added at their index cut to 32 bits |
| `JsonPatches.PatchOfDiffOnlyIf` | src/addition/PicoJsonNode.h:10511-10572 | for sources with arrays below 2^32 elements both success and the law hold exactly if no array grows beyond 2^31 elements |
| `JsonPatches.PatchOfDiffFails` | src/addition/PicoJsonNode.h:10541-10559 | a concrete pair of values for which it throws |
| `JsonPatches.PatchOfDiffMisplaces` | src/addition/PicoJsonNode.h:10541-10559 | a concrete pair, with 2^32 elements in the source, for which it succeeds with a value that is not the target |
| `JsonPatches.GrowthPatched` | src/addition/PicoJsonNode.h:10541-10559 | where no array grows beyond 2^31 elements every added element goes to the end, so that the exact result is the target merged into the source |
| `JsonPatches.ApplyDiff` | src/addition/PicoJsonNode.h:10765-10895 | the same below any path prefix of any document: only the value at the path changes, to exactly that result, or the patch throws |
| `JsonPatches.ApplyRemovals` | src/addition/PicoJsonNode.h:10804-10819 | the removals, in reverse order, cut the array down to its common prefix |
| `JsonPatches.ApplyAdditions` | src/addition/PicoJsonNode.h:10821-10831 | the additions put the missing elements in at their cut index if all indices fit, and throw otherwise |
| `JsonPatches.ApplyKeys` | src/addition/PicoJsonNode.h:10838-10859 | the pass over the old keys, whose names are escaped in the paths, recurses, or removes the key |
| `JsonPatches.ApplyNewKeys` | src/addition/PicoJsonNode.h:10861-10875 | the pass over the new keys adds exactly those |
| `JsonPatches.PatchLoop` | src/addition/PicoJsonNode.h:10610-10731 | the loop over the operations, with every operation and error case, is the fold of the single steps |
| `JsonOperations.PatchIs` | src/addition/PicoJsonNode.h:10603-10731 | a patch goes through with result r if and only if it is an array and its operations lead, each from what the one before has left, from the document to r |
| `JsonOperations.OnlyOperations` | src/addition/PicoJsonNode.h:10613-10650 | only the six operations, with the members they need and well-formed pointers, are carried out |
| `JsonOperations.MoveIs` | src/addition/PicoJsonNode.h:10671-10686 | move is the removal of the value at from, which must exist, followed by its addition at path |
| `JsonOperations.MoveKey` | src/addition/PicoJsonNode.h:10671-10686 | a move between objects: the value is at path, no longer at from, and every path apart from both keeps its value |
| `JsonOperations.CopyOnto` | src/addition/PicoJsonNode.h:10688-10696 | copy onto a location that exists: it holds the value at from, which stays, and what is apart from it stays |
| `JsonOperations.CopyToKey` | src/addition/PicoJsonNode.h:10688-10696 | copy to a key of an object, new or not |
| `JsonOperations.CopyToIndex` | src/addition/PicoJsonNode.h:10688-10696 | copy to an index of an array replaces the element; behind the end nulls fill the gap |
| `JsonOperations.TestIs` | src/addition/PicoJsonNode.h:10698-10719 | test goes through, without a change, if and only if the location exists and its value equals the given one |
| `JsonOperations.ReplaceIs` | src/addition/PicoJsonNode.h:10664-10669 | replace sets exactly the value at a location that exists, and fails as the lookup fails otherwise |
| `JsonOperations.AddToObject` | src/addition/PicoJsonNode.h:10511-10539 | add to an object sets the key, and every path apart from it keeps its value |
| `JsonOperations.AddToArray` | src/addition/PicoJsonNode.h:10541-10563 | add to an array at index i inserts before the i-th element, - appends, and an index behind the end throws |
| `JsonOperations.AddNegative` | src/addition/PicoJsonNode.h:10550-10555 | a negative index is out of range |
| `JsonOperations.AddRoot` | src/addition/PicoJsonNode.h:10514-10517 | add at the root replaces the document |
| `JsonOperations.AddCreates` | src/addition/PicoJsonNode.h:10527-10539 | add below a missing key of an object below the top level creates an object there |
| `JsonOperations.AddBelowNothing` | src/addition/PicoJsonNode.h:10520-10525 | add below a missing top level is refused |
| `JsonOperations.AddToScalar` | src/addition/PicoJsonNode.h:10565-10569 | add to a number, string or boolean fails an assertion |
| `JsonOperations.RemoveFromObject` | src/addition/PicoJsonNode.h:10575-10594 | remove from an object: the key must be there and is gone, and every path apart from it keeps its value |
| `JsonOperations.RemoveFromArray` | src/addition/PicoJsonNode.h:10595-10599 | remove from an array closes the gap; an index out of range changes nothing |
| `JsonOperations.RemoveElsewhere` | src/addition/PicoJsonNode.h:10575-10600 | remove at the root is refused, and below a scalar it changes nothing |
| `JsonOperations.IndexIs` | src/addition/PicoJsonNode.h:9898-9940 | which tokens denote element i of an array, both ways |
| `JsonPatches.EditIsSet` | src/addition/PicoJsonNode.h:9898-9940 | writing through the reference that a pointer resolves to replaces exactly the value at that path |
| `JsonPatches.EditOpenIsEdit` | src/addition/PicoJsonNode.h:9854-9896 | unchecked access changes nothing else where the path exists |
| `JsonPatches.AtSet` | src/addition/PicoJsonNode.h:9898-9940 | reading and writing at a path are a lens |
| `JsonValues.EqualIsCanon` | src/addition/PicoJsonNode.h:5836-5909 | operator== holds if and only if the two values are the same with their numbers taken as 64-bit patterns: the same strings, lengths, keys and elements |
| `JsonPatches.MergeEqual` | src/addition/PicoJsonNode.h:5836-5909 | what the patch leaves is equal to the target under operator== |
| `JsonPatches.MergeCanon` | src/addition/PicoJsonNode.h:5836-5909 | and is the target itself up to the signedness of its numbers |
| `JsonPatches.DiffEmpty` | src/addition/PicoJsonNode.h:10765-10776 | the diff of two values is empty if and only if they are equal |
| `JsonValues.LessIs` | src/addition/PicoJsonNode.h:10838-10875 | keys are visited in lexicographic byte order |
| `JsonPointers.SplitToString` | src/addition/PicoJsonNode.h:9720-9740 | parsing a printed pointer gives its tokens back, for all token lists |
| `JsonPointers.ToStringSplit` | src/addition/PicoJsonNode.h:10039-10097 | printing a parsed pointer gives the string back, for all accepted strings |
| `JsonPointers.SplitAccepts` | src/addition/PicoJsonNode.h:10042-10089 | a string is accepted if and only if it is empty, or begins with a slash and has each tilde followed by 0 or 1 |
| `JsonPointers.SplitLoop` | src/addition/PicoJsonNode.h:10039-10097 | the loop over slashes, with its check of the tildes, computes this |
| `JsonPointers.TakeToken` | src/addition/PicoJsonNode.h:10072-10093 | a piece between slashes is refused exactly if a tilde in it is not followed by 0 or 1, and unescaped otherwise |
| `JsonPointers.EscapeRoundTrip` | src/addition/PicoJsonNode.h:10129-10144 | unescaping an escaped token gives the token |
| `JsonPointers.UnescapeRoundTrip` | src/addition/PicoJsonNode.h:10129-10144 | escaping an unescaped, well-escaped token without slashes gives the token |
| `JsonPointers.ReplaceSubstring` | src/addition/PicoJsonNode.h:10114-10126 | the in-place replacement loop ends, although "~" is replaced by "~0", and has replaced the occurrences found from left to right, none inside a replacement |
| `JsonPointers.EscapeLoop` | src/addition/PicoJsonNode.h:10129-10135 | the two replacements in sequence escape the string character by character |
| `JsonPointers.UnescapeLoop` | src/addition/PicoJsonNode.h:10138-10144 | the two replacements in the opposite order give, for a well escaped token, the string whose escaping it is |
| `Decimals.CastDigits` | src/common/pico_lexical_cast.h:204-240 | a decimal numeral is converted to its number, or refused if it is too large; the conversion to a 32-bit integer cuts it off unchecked |
| `JsonTexts.ParseOfDump` | src/addition/PicoJsonNode.h:9420-9628 | parsing the text dump prints, compact or with any indentation, gives an equal value, for every float-free value with 64-bit integers; only a non-negative signed number comes back as an unsigned one |
| `JsonGrammars.ParseComplete` | src/addition/PicoJsonNode.h:9420-9628 | every text of the RFC 7159 grammar, with any blanks and byte order marks between its tokens, is parsed as exactly what it means: its value, a floating-point number, or an error for a high surrogate without a low one |
| `JsonGrammars.ParseSound` | src/addition/PicoJsonNode.h:9420-9628 | conversely every text that is parsed to a value is a text of the grammar and means that value, but that a NUL ends it |
| `JsonGrammars.ValueTaken` | src/addition/PicoJsonNode.h:9437-9627 | the same for a value inside a text |
| `JsonTexts.DumpLaidOut` | src/addition/PicoJsonNode.h:6746-6885 | what dump prints is a text of the grammar that means the value; every value, key and closing bracket starts a line indented by its nesting depth times the step (in 32 bits), and the keys of every object ascend in byte order |
| `JsonTexts.EscapeIs` | src/addition/PicoJsonNode.h:6622-6727 | which characters are escaped and how: the two-character escapes except that of the slash, \u for the other control characters, all else as it is |
| `JsonStrings.StringScanned` | src/addition/PicoJsonNode.h:8525-8960 | the scanner takes every string of the grammar as a whole, with \u escapes of either case and all two-character escapes |
| `JsonStrings.StringRead` | src/addition/PicoJsonNode.h:9099-9202 | get_string decodes it: each escape to its character or the UTF-8 of its code point, surrogate pairs together, and refuses exactly a high surrogate without a low one |
| `JsonStrings.UnitRead` | src/addition/PicoJsonNode.h:9160-9165 | four hexadecimal digits of either case are read as their number |
| `JsonStrings.StringTaken` | src/addition/PicoJsonNode.h:8525-8960 | what the scanner takes as a string is one of the grammar |
| `JsonNumerals.NumeralScans` | src/addition/PicoJsonNode.h:8390-8798 | a numeral with sign, fraction and exponent is taken as one token |
| `JsonNumerals.NumeralReads` | src/addition/PicoJsonNode.h:9285-9368 | get_number gives the number of an integer numeral, its remainder where an overflow is missed, and a float for every fraction or exponent |
| `JsonNumerals.NumeralTaken` | src/addition/PicoJsonNode.h:8390-8798 | what the scanner takes as a number is a numeral of the grammar |
| `JsonGrammars.ReadValue` | src/addition/PicoJsonNode.h:9437-9627 | a value of the grammar, wherever it stands in a text, is read as what it means, and the parser stops behind it |
| `JsonGrammars.ReadItems` | src/addition/PicoJsonNode.h:9522-9575 | the values of an array, with any gaps between them, are read in order |
| `JsonGrammars.ReadMembers` | src/addition/PicoJsonNode.h:9443-9519 | the members of an object, with any gaps, are read key by key; of two with the same key the later one stays |
| `JsonTexts.EscapedString` | src/addition/PicoJsonNode.h:8180-8960 | every byte string survives escape_string, the string states of the scanner and get_string |
| `JsonTexts.EscapeInPlace` | src/addition/PicoJsonNode.h:6622-6727 | the loop that fills a string of backslashes in place computes the escaped string |
| `JsonTexts.PutEscaped` | src/addition/PicoJsonNode.h:6636-6722 | one character: its whole escape stands at pos and no other place of the buffer changes |
| `JsonTexts.ExtraSpace` | src/addition/PicoJsonNode.h:6574-6607 | the computed extra space is exactly what escaping needs, and 0 only if nothing is escaped |
| `JsonTexts.NumberToken` | src/addition/PicoJsonNode.h:9285-9368 | a printed 64-bit number is scanned as one token and converted back, up to signedness |
| `JsonNumerals.ExactInRange` | src/addition/PicoJsonNode.h:9313-9349 | get_number gives the number its digits denote if and only if that number is in range |
| `JsonNumerals.AccumulateRest` | src/addition/PicoJsonNode.h:9313-9349 | from any digit on, the 64-bit accumulation ends with the remainder modulo 2^64 of the number its digits denote, or turns to floating point exactly if the remainders of the prefixes fall or pass the maximum somewhere |
| `JsonNumerals.OverflowNoticed` | src/addition/PicoJsonNode.h:9330-9342 | the exact condition for a numeral of any length to come back right or as a float: it is in range, or the remainders of its prefixes do not climb up to the maximum; otherwise it comes back as its remainder |
| `JsonNumerals.OverflowMissed` | src/addition/PicoJsonNode.h:9334-9342 | the condition can fail: a concrete numeral is converted to a number 2^64 smaller |
| `JsonTexts.NormCanon` | src/addition/PicoJsonNode.h:5836-5909 | what comes back is the printed value up to the signedness of its numbers |
| `JsonTexts.NormEqual` | src/addition/PicoJsonNode.h:5836-5909 | and hence equal to it under operator== |
| `JsonParsers.Parser.ParseText` | src/addition/PicoJsonNode.h:9420-9433 | the parser object, reading token by token, computes the parse of its text |
| `JsonParsers.Parser.ParseInternal` | src/addition/PicoJsonNode.h:9437-9628 | for any token to start from, the value that starts there and the token behind it, or the error |
| `JsonParsers.Parser.ParseArray` | src/addition/PicoJsonNode.h:9522-9576 | the loop over the values of an array |
| `JsonParsers.Parser.ParseObject` | src/addition/PicoJsonNode.h:9443-9520 | the loop over the members of an object; a repeated key keeps the later value |
| `JsonParsers.Parser.GetToken` | src/addition/PicoJsonNode.h:9631-9635 | scanning from the cursor gives the next token, after blanks and byte order marks |
| `JsonParsers.SkipString` | src/addition/PicoJsonNode.h:8525-8960 | the string states end behind the closing quote of a well-formed string, else refuse it |
| `JsonParsers.SkipNumber` | src/addition/PicoJsonNode.h:8390-8798 | the number states end behind the longest number, backing up from an incomplete fraction or exponent |
| `JsonParsers.ReadString` | src/addition/PicoJsonNode.h:9099-9202 | the decoding loop of get_string, with its surrogate pairs |
| `JsonParsers.ReadNumber` | src/addition/PicoJsonNode.h:9285-9368 | the accumulation loop of get_number, with its wrap-around test |
| `JsonLexers.ScanBound` | src/addition/PicoJsonNode.h:8180-8960 | every token but the end of input is a non-empty piece of the text, so the parser always advances |
| `JsonLexers.ToUnicodeIs` | src/addition/PicoJsonNode.h:8054-8116 | to_unicode gives the UTF-8 encoding of the code point that one or two UTF-16 units stand for, and refuses exactly a high surrogate without a low one |
| `Accumulators.Conservation` | src/accumulator/AccumulatorClient.cpp:141-204 | in every state of every interleaving, for each name: the server value, the requests on their way and both buffers of all clients merge to exactly the merge of the deltas accepted by client writes |
| `Accumulators.RunInv` | src/accumulator/AccumulatorClient.cpp:141-204 | what every step of writers, senders and server keeps, over whole runs: buffer counts, flags, the place of each sender and conservation |
| `Accumulators.DrainIsComplete` | src/accumulator/AccumulatorClient.cpp:119-169 | if wait_empty_writer returns with the writer open, or finalize_writer returns, both buffers hold only identities, nothing is on its way, and everything this client accepted is merged at the server |
| `Accumulators.DrainedInRun` | src/accumulator/AccumulatorClient.cpp:119-169 | the same for any client in any state of any run, whatever the other clients do |
| `Accumulators.DrainedTable` | src/accumulator/AccumulatorClient.cpp:119-169 | once all clients are drained the server has exactly the merge of all accepted deltas |
| `Accumulators.ClosedRefuses` | src/accumulator/AccumulatorClient.h:67-78 | a closed writer accepts nothing, whatever else happens, until it is opened again |
| `Accumulators.WriteAccepted` | src/accumulator/AccumulatorClient.h:52-79 | over every run, told by its steps alone: a write is accepted and logged last if and only if its name has been added and the writer has been opened and not been closed since |
| `Accumulators.OrderIndependent` | src/accumulator/AccumulatorServer.cpp:192-224 | two runs that accept the same deltas, in any order, from any clients and with any interleaving, end with the same server values |
| `Accumulators.BatchingIndependent` | src/accumulator/Accumulator.h:92-112 | if the accepted deltas are batches of values, the server ends with an aggregator that has seen each value once; AccumulatorUsers derives the premise |
| `AccumulatorUsers.AcceptedIsHanded` | src/accumulator/Accumulator.h:92-150 | in every state of every run of any accumulators, with any flush frequencies, on any clients: the deltas accepted under a name are, as a multiset, exactly the merged batches that were handed over |
| `AccumulatorUsers.HandedMerged` | src/accumulator/Accumulator.h:92-150 | once all clients are finalized the server value of a name is the merge of exactly the values in the accepted batches |
| `AccumulatorUsers.GivenMerged` | src/accumulator/Accumulator.h:92-150 | and if the accumulators of the name have flushed and none of their batches was refused, of every value ever written to them, each once: its sums, counts and extremes are those of these values |
| `AccumulatorUsers.FlushedOnTime` | src/accumulator/Accumulator.h:92-101 | an accumulator that nobody flushes hands its values over in batches of exactly flush_freq: what it caches is the remainder, and with flush_freq 0 it hands nothing over |
| `AccumulatorUsers.FrequencyIndependent` | src/accumulator/Accumulator.h:92-112 | two such runs whose users write the same values end with the same server value, whatever the flush frequencies, batches, clients and interleavings |
| `AccumulatorUsers.RunBooked` | src/accumulator/Accumulator.h:92-150 | in every state of every run each value written is in the cache, in an accepted batch or in a refused one, and with no refusal they are in the order of writing |
| `AccumulatorUsers.Protocol` | src/accumulator/Accumulator.h:92-150 | every run of accumulators and clients is a run of the protocol, so that what holds for the protocol holds for it |
| `AccumulatorReads.ReadSees` | src/accumulator/AccumulatorServer.cpp:146-167 | once all clients are drained a read answers not found if and only if nothing was accepted under the name, and otherwise with the merge of all that was accepted |
| `AccumulatorReads.ReadFinds` | src/accumulator/AccumulatorServer.cpp:146-167 | at any time, what a read finds has been accepted |
| `AccumulatorReads.RunTracks` | src/accumulator/AccumulatorServer.cpp:192-224 | in every state a client knows (as served, on its way or flagged) exactly the names under which it has accepted something, and the server exactly those served |
| `Accumulators.WriteConserves` | src/accumulator/AccumulatorClient.h:52-79 | an accepted write adds exactly its delta to what the client holds |
| `Accumulators.SendConserves` | src/accumulator/AccumulatorClient.cpp:171-204 | building a request moves exactly the flagged aggregators from the buffer to the wire |
| `Accumulators.ServedGains` | src/accumulator/AccumulatorServer.cpp:192-224 | serving a request adds exactly what it carries, for new and for known names |
| `AccumulatorObjects.AccumulatorClient.Write` | src/accumulator/AccumulatorClient.h:52-79 | write makes the write step, and returns false exactly for an unknown name or a closed writer |
| `AccumulatorObjects.AccumulatorClient.AddAggregator` | src/accumulator/AccumulatorClient.h:180-206 | a new name gets an identity in both buffers; a known one is left alone |
| `AccumulatorObjects.AccumulatorClient.BuildRequest` | src/accumulator/AccumulatorClient.cpp:171-200 | the two loops of send2server collect exactly the flagged aggregators and initialize them |
| `AccumulatorObjects.AccumulatorClient.SendFlagged` | src/accumulator/AccumulatorClient.cpp:188-199 | the second loop serializes exactly the flagged aggregators, in order, and leaves identities and no flags |
| `AccumulatorObjects.AccumulatorClient.TakeBuffer` | src/accumulator/AccumulatorClient.cpp:144-153 | the sender takes the active buffer if it has writes, else it stops, which it does only when closed |
| `AccumulatorObjects.AccumulatorClient.EndSend` | src/accumulator/AccumulatorClient.cpp:154-166 | after the response the buffer counts as empty, and a closed writer sends the other buffer before it stops |
| `AccumulatorObjects.AccumulatorClient.InitializeWriter` | src/accumulator/AccumulatorClient.cpp:109-117 | opens a closed writer and starts the sender |
| `AccumulatorObjects.AccumulatorClient.CloseWriter` | src/accumulator/AccumulatorClient.cpp:119-127 | closes the writer |
| `AccumulatorObjects.AccumulatorClient.constructor` | src/accumulator/AccumulatorClient.cpp:96-107 | the initial client of a run |
| `AccumulatorObjects.AccumulatorServer.ProcessWrite` | src/accumulator/AccumulatorServer.cpp:192-224 | the loop over the entries of a request makes the serve step |
| `AccumulatorObjects.Accumulator.Write` | src/accumulator/Accumulator.h:92-101 | the value joins the cache; the cache goes out as one delta exactly when it has flush_freq values, and is booked as handed over if the client accepts it and as lost if it refuses; the books are kept |
| `AccumulatorObjects.Accumulator.Flush` | src/accumulator/Accumulator.h:142-150 | hands the whole cache over as one delta, books it as handed over or lost by the answer, and empties it either way |
| `AccumulatorObjects.Accumulator.constructor` | src/accumulator/Accumulator.h:31-37 | an empty cache, and the name is added to the client |
| `Aggregators.MergeAssociates` | src/accumulator/TimerAggregator.h:76-86 | merging aggregators of one kind is associative |
| `Aggregators.MergeCommutes` | src/accumulator/TimerAggregator.h:76-86 | and commutative |
| `Aggregators.MergeZero` | src/accumulator/TimerAggregator.h:16-22 | and an initialized aggregator changes nothing |
| `Aggregators.MergeValueIs` | src/accumulator/TimerAggregator.h:64-74 | merging a value is merging an aggregator that has seen just this value |
| `Aggregators.FoldPermutes` | src/accumulator/Aggregator.h:44-55 | the merge of many aggregators does not depend on their order |
| `Aggregators.BatchesMerge` | src/accumulator/Accumulator.h:92-112 | however values are cut into batches, merging the batches merges the values |
| `Aggregators.MergedPermutes` | src/accumulator/TimerAggregator.h:64-74 | nor does the order of values matter |
| `Aggregators.MergedDescribes` | src/accumulator/TimerAggregator.h:64-74 | what an aggregator says of the values it has seen: their sum, sum of squares, count, attained least and greatest value, and sum and count under each key |
| `Aggregators.TimerAggregator.Init` | src/accumulator/TimerAggregator.h:16-22 | the identity |
| `Aggregators.TimerAggregator.Record` | src/accumulator/TimerAggregator.h:64-74 | the five fields together are the merge with one value |
| `Aggregators.TimerAggregator.MergeAggregator` | src/accumulator/TimerAggregator.h:76-86 | the five fields together are the merge, also into itself |
| `Aggregators.AvgAggregator.MergeAggregator` | src/accumulator/AvgAggregator.h:87-95 | the merge of sums and counts |
| `Aggregators.AvgAggregator.Record` | src/accumulator/AvgAggregator.h:83-95 | the merge with one value |
| `Aggregators.KeyedAvgAggregator.MergeAggregator` | src/accumulator/AvgAggregator.h:42-48 | the loop over the keys of the other aggregator, in any order, gives the merge key by key, also into itself |
| `Aggregators.KeyedAvgAggregator.Record` | src/accumulator/AvgAggregator.h:36-40 | the merge with one value under its key |
| `LazyVectors.Workspace.Run` | src/misc/LazyVector.h:120-323 | whatever legal mix of push_back, cut, merge, sub, shrink and clear is run on any number of vectors that share buffers, each vector holds what an independent plain sequence would hold |
| `LazyVectors.Workspace.Perform` | src/misc/LazyVector.h:120-323 | one such operation |
| `LazyVectors.Undisturbed` | src/misc/LazyVector.h:120-165 | a vector that is not itself operated on keeps its element sequence while the buffers it shares grow |
| `LazyVectors.ApplyIs` | src/misc/LazyVector.h:110-323 | what each operation makes of plain sequences, element by element, and which it leaves alone |
| `LazyVectors.CutMerged` | src/misc/LazyVector.h:220-257 | merging restores what cutting has split |
| `LazyVectors.LazyVector.PushBack` | src/misc/LazyVector.h:120-165 | appends one item; every buffer only grows, and only at its end |
| `LazyVectors.LazyVector.PushItems` | src/misc/LazyVector.h:167-173 | appends a whole vector |
| `LazyVectors.LazyVector.PushView` | src/misc/LazyVector.h:175-180 | appends the items of a view |
| `LazyVectors.LazyVector.At` | src/misc/LazyVector.h:194-208 | operator[] gives the element of the sequence |
| `LazyVectors.LazyVector.Locate` | src/misc/LazyVector.h:199-203 | the search loop stays within the views and finds the one that holds the item |
| `LazyVectors.LazyVector.Cut` | src/misc/LazyVector.h:220-250 | splits the sequence at idx into two parts that concatenate to the old one; at or behind the end nothing happens to either vector |
| `LazyVectors.LazyVector.Join` | src/misc/LazyVector.h:252-257 | concatenates |
| `LazyVectors.LazyVector.Sub` | src/misc/LazyVector.h:259-303 | the slice for a range that ends before the last item, nothing for an empty or too long one; the search for the end leaves the views if and only if the range ends with the last item |
| `LazyVectors.LazyVector.Shrink` | src/misc/LazyVector.h:312-323 | one view with the same elements |
| `LazyVectors.LazyVector.Clear` | src/misc/LazyVector.h:110-114 | the empty sequence in a new buffer |
| `LazyVectors.LazyVector.constructor` | src/misc/LazyVector.h:99-103 | the empty sequence |
| `Monitors.NoStartAfterDestroy` | src/common/Monitor.h:134-153 | in every run, once an issued event has been destroyed its handler is never started again |
| `Monitors.NotRunningAfterWait` | src/common/Monitor.h:180-186 | after a waiter has returned the handler is not running, then or ever again, and the event stays done |
| `Monitors.IdsGrow` | src/common/Monitor.h:193-200 | ids are never reused |
| `Monitors.NotBeforeDue` | src/common/Monitor.h:202-247 | a handler that has been started n times is not started again before its first due time plus n periods |
| `Monitors.OnceOnly` | src/common/Monitor.h:232-239 | a handler without period is started once at most |
| `Monitors.Periodic` | src/common/Monitor.h:216-240 | a periodic event that nobody destroys is with the monitor in every later state; whenever it is not running it is pending and due at its first due time plus one period per start |
| `Monitors.OneTime` | src/common/Monitor.h:216-240 | an event without period that nobody destroys is pending until it is started, then running, then done |
| `Monitors.WaitsInQueue` | src/common/Monitor.h:216-240 | such an event waits in the queue, unless another waiting event with its due time has been destroyed |
| `Monitors.StartsEarliest` | src/common/Monitor.h:205-217 | of two queued events the one that is due first, by its submission and its starts, is started first |
| `Monitors.DestroyedEnds` | src/common/Monitor.h:120-153 | a destroyed event is done, or running for the last time; only ids not yet issued are not found |
| `Monitors.DestroyKeepsQueued` | src/common/Monitor.h:144-145 | destroying an event leaves all other waiting events in the queue if and only if none of them is due at the same time |
| `Monitors.OthersKeepQueued` | src/common/Monitor.h:193-247 | all other steps keep waiting events queued |
| `Monitors.DroppedStays` | src/common/Monitor.h:144-145 | an event that has dropped out of the queue is never started, and stays pending until it is destroyed |
| `Monitors.EventDropped` | src/common/Monitor.h:144-145 | a concrete run in which this happens |
| `Monitors.RunInv` | src/common/Monitor.h:134-247 | what every step keeps: ids, flags, the worker and the due times fit together |
| `Monitors.Monitor.SubmitEvent` | src/common/Monitor.h:193-200 | makes the submit step and returns the new id |
| `Monitors.Monitor.DestroyEvent` | src/common/Monitor.h:134-153 | makes the destroy step, with its erase by due time |
| `Monitors.Monitor.QueryEvent` | src/common/Monitor.h:120-132 | the four states of an id |
| `Monitors.Monitor.TakeDue` | src/common/Monitor.h:206-217 | starts a due event that no queued one is due before, or finds none due |
| `Monitors.Monitor.AfterRun` | src/common/Monitor.h:222-240 | drops a canceled or one-time event, and queues a periodic one a period later |
| `Monitors.Monitor.Enqueue` | src/common/Monitor.h:197 | the queue stays ordered by due time |
| `Monitors.Monitor.EraseEqual` | src/common/Monitor.h:144 | erases exactly the events with an equal due time |
| `Monitors.Monitor.constructor` | src/common/Monitor.h:189-192 | the initial state of a run |
| `BlockAllocators.User.Run` | src/misc/BlockAllocator.h:54-74 | any run of Store (allocate a cell and write a value into it) and Drop (deallocate a cell), with positive block sizes that may change, keeps every live cell's data, and _elm_num is the number of live cells |
| `BlockAllocators.ApplyIs` | src/misc/BlockAllocator.h:54-74 | storing and dropping on the plain sequence of values, element by element |
| `BlockAllocators.BlockAllocator.Allocate` | src/misc/BlockAllocator.h:54-63 | returns a cell that is not live, and overwrites none |
| `BlockAllocators.BlockAllocator.Deallocate` | src/misc/BlockAllocator.h:65-72 | the cell leaves the live ones and heads the free list |
| `BlockAllocators.BlockAllocator.AllocateNewBlock` | src/misc/BlockAllocator.h:86-96 | live cells and the free list still share out the cells of all blocks, and the new cells are new |
| `BlockAllocators.BlockAllocator.Thread` | src/misc/BlockAllocator.h:91-94 | the loop links every cell to the one below it |
| `BlockAllocators.BlockAllocator.Take` | src/misc/BlockAllocator.h:59-62 | pops the head of the free list |
| `BlockAllocators.BlockAllocator.constructor` | src/misc/BlockAllocator.h:98-101 | no cells |
| `JumpHash.Consistent` | src/addition/HashFunction.h:14-25 | for any strictly forward jumps, every key and 1 <= n <= m: the bucket for m lies in [0, m), and it is the bucket for n or one of the new ones |
| `JumpHash.ConsistentRounded` | src/addition/HashFunction.h:14-25 | the same for the jumps of the program, however its quotients and products are rounded to double |
| `JumpHash.JumpConsistentHash` | src/addition/HashFunction.h:14-25 | the loop ends and computes the hash, for every rounding; without buckets the result is -1 |
| `JumpHash.JumpForward` | src/addition/HashFunction.h:20-21 | every jump is strictly forward and at most 2^62, for any rounding that keeps the order and the integers up to 2^53 and 2^62 |
| `JumpHash.ExactJump` | src/addition/HashFunction.h:21 | without rounding the jump is the integer quotient (b + 1) * 2^31 / ((key >> 33) + 1) |
| `JumpHash.KeysReverse` | src/addition/HashFunction.h:20 | the key generator has an inverse, so that different keys stay different |
| `JumpHash.ReferenceHash` | src/addition/HashFunction.h:14-25 | a reference value: key 10863919174838991 goes to bucket 6 of 11 |

## Left out

- PoolHashTables.PoolHashTable.SetMaxLoadFactor: real arithmetic in place of double.
- PoolHashTables.PoolHashTable.Reserve: real arithmetic in place of double.
- PoolHashTables.PoolHashTable.SetSpace: nodes are numbered 0 to n; memory mapping, node alignment and the byte layout of items are not modelled, and new memory is taken to read as EMPTY nodes.
- HashTables.HashTable.InsertPostprocess: the load comparison is over reals.
- HashTables.HashTable.Reserve: a call by a user while a migration is under way trips the program's own check and is excluded by the precondition.
- AccumulatorUsers.GivenMerged: values are within the 64-bit range and sums are exact integers, without overflow.
- Aggregators.MergeZero: about extremes within the limits of their type; for floating-point values the program starts the maximum at the smallest positive value, and the law does not hold.
- LazyVectors.Workspace.Run: excludes a sub that ends with the last item, which searches beyond the last view, and cut and merge of a vector with itself.
- JsonTexts.ParseOfDump: JSON floats are not modelled; a numeral with a fraction, an exponent or a detected overflow is an outcome of its own.
- JsonPatches.PatchOfDiffOnlyIf: is for sources whose arrays have fewer than 2^32 elements; for larger ones JsonPatches.PatchOfDiffExact gives success and the result, but no condition for that result to equal the target.
- Monitors.RunInv: the clock is a parameter of each step.
- flatten and unflatten, comparison by <, parser callbacks and refilling the scanner from a stream.
- Pool table: prioritise, the temporary-file serializer and the memory-mapped variant of the hash space.
- Pool table and hash table: copying, moving and swapping whole tables, and iterator ranges in erase.
- Accumulator: the RPC transport and its failures (a request is a step, its response another), reset, erase and the server's reports; a name is taken to have one aggregator type in all clients, which the server checks.
- Accumulator: data races on the vectors that add_aggregator extends while a write is under way.
- LazyVector iterators, whose increment ignores where the next view begins.
- Monitor: destroy_with_additional_run, the destructor and the wake-up of waiting threads (what they wait for is modelled, that they are woken is not).
- BlockAllocator: alignment and the release of blocks at the end.
- LRUCache, Base64, URI and string utilities, configuration, logging, compression, file systems, the RPC layer itself and the foreign hash functions.
