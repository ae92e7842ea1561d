# Verified models of the iShell core utilities

A Dafny model of the parts of the iShell library whose correctness is not visible in any one function, with proofs of
what they promise: a lock-free free list, the media time range, a skip-table string searcher, a cost-bounded LRU
cache, the strong and weak reference counts, the array buffer that rebalances its free space, and the bit-level
arithmetic underneath. `dafny verify dfyconfig.toml` checks all of it.

## What is here

**The free list** (`head_word`, `free_list*`). Any number of threads run `next`, `release`, `push` and `pop`, one
atomic access per step, in any interleaving, with head CASes that may fail spuriously. The shared memory is the two
head words, the published blocks, the `_next` fields and the payloads; the history variables (the owner of each id,
the log of linearization points, the release counts) influence no step, except that a client may release only ids
recorded as its own. The invariant is inductive, and the theorems are about whole runs from the constructor's state.
Two conditions on a run are needed, and both are exact; a run that meets both is called orderly:

* *Timely.* Between a head load and its CAS fewer releases reach that list than there are serials, 2^19 with the
  default constants. `FreeListAba` builds a run with exactly that many, after which an id a client holds is again
  the head of the empty list. (The comment at include/core/utils/ifreelist.h:58-60 speaks of 16777216 elements and 8
  serial bits; the constants below it say 12 index bits and 19 serial bits, and the model follows the constants.)
* *First block.* `push` and `pop` pass their `id` to `blockfor`, which changes it by reference to the index within
  the block, and then release that changed value (include/core/utils/ifreelist.h:208-212, 221-225). For an id of the
  first block the two are the same. Otherwise one thread that does nothing but `push` loses an id as soon as the
  first block is used up, and its last value goes where no list leads. The ids stay split over every timely run, and
  over every timely run that calls only `push` and `pop`, if and only if `_maxIndex` is at most the size of the
  first block; with the default constants, if and only if the list was created with a size from 1 to 128. `next` and
  `release` are not affected.

Beside safety there is what the calls come to (`free_list_calls`): no call ends except as its text says, contention
never makes one fail, a `pop` gives its id back, and an undisturbed `pop` undoes a `push` as a `next` undoes a
`release`. And the list is what its name says, lock-free (`free_list_progress`): on every schedule, the accesses that n
threads make are at most 39n for each call begun and 13 for each CAS that failed spuriously.

**The media time range** (`time_range`). The list of intervals is a field edited in place by loops that follow the
source's iterator loops; the meaning of a list is a set of integers. Adding is set union and removing is set
difference, the list stays sorted, normal and non-adjacent, and that form is canonical, so that structural equality is
set equality. Every method says, in a ghost result, whether some value it computes does not fit in a signed 64-bit
integer, which C++ leaves undefined. Removing never does. Adding does if and only if the interval and the range both
start at the smallest integer (`AddOverflows`): line 219 then computes one less. A caller who rules that out has
defined behaviour and a canonical list. Beyond it, with that value read as a two's complement wrap, the result still
denotes the union, and stays canonical if and only if the first interval already ends at the largest integer
(`AddOk`). Copies share one list, because `iSharedDataPointer::operator->` does not detach
(include/core/utils/ishareddata.h:68-69), so `operator+` and `operator-` also change their left operand, and the
contracts of `Plus` and `Minus` say so.

**The skip-table searcher** (`latin1_matcher`) returns the leftmost match for every needle length, above the table's
limit of 255 as well, and `indexIn` builds on it with its fold buffer of 256 bytes.

**The LRU cache** (`cache_model`, `cache`). `cache_model` says what the cache is: a sequence of entries, most recent
first, and the fate of every object. `cache` is the class over a hash of linked nodes, each of whose methods is proved
to refine the operation on that sequence. `cache_laws` says what those operations mean, up to the law the cache is for:
an entry that was used less recently never outlives one that was used since.

**Shared and weak pointers** (`shared_ptr*`). Any number of threads copy, weakly copy, lock and drop handles, one
counter access per step. The counts are exact, the deleters run once and in order, every operation that is over has done
what it was called for, and the retry loop of `lock` is lock-free.

**The array buffer** (`array_buffer`). The in-place moves are proved to keep the contents, and a block used as a queue
is proved to move at most twice as many elements as are appended, plus its capacity. A block that grows backwards moves
no more than are prepended, plus its capacity, because each move halves the free space between the two sides.

**Bits and numbers** (`bits`, `endian`, `bitfields`, `float_distance`, `bit_count`). Words are natural numbers below a
power of two and every operator is characterised bit by bit, so each law holds for every word size at once.

## Assumptions

Accesses are sequentially consistent. The block-publish CAS of the free list is modelled as strong: it is a weak one
(include/core/thread/iatomicpointer.h:90), and a spurious failure there would trip the assertion at
include/core/utils/ifreelist.h:278. Block sizes add up to at least the number of indices, and the exactness of the
first-block condition is stated for lists whose first id lies in the first block. Clients release only ids they were
given. Line 63 of include/core/utils/icache.h is read as `Node &n = i->second`.

## Model

| member | source | states |
|---|---|---|
| `HeadWord.RelinkParts` | include/core/utils/ifreelist.h:284 | the bitwise or that builds a pop's new head never reaches the serial, because every successor fits the index mask: the index is the successor and the serial is unchanged |
| `HeadWord.IncrementSerialParts` | include/core/utils/ifreelist.h:115-117 | a release installs the released index and advances the serial by one, wrapping after the last |
| `HeadWord.SameSerial` | include/core/utils/ifreelist.h:75-77 | two release counts with the same serial are equal or at least one full cycle of serials apart, and exactly one cycle apart they do collide |
| `FreeList.BlockFor` | include/core/utils/ifreelist.h:93-104 | the loop finds the one block whose range holds the index and the index inside it, or runs off the end exactly when the index is beyond all blocks |
| `FreeList.Allocate` | include/core/utils/ifreelist.h:106-113 | a new block links every element to the next index of the whole pool |
| `FreeList.ElementsOfBlock` | include/core/utils/ifreelist.h:273 | the block published by a step holds what `Allocate` fills in, at the block's own indices |
| `FreeListSafety.StepKeepsInv` | include/core/utils/ifreelist.h:255-304 | every step of every thread, under every choice of the scheduler, that is orderly keeps the global invariant and the facts of all other threads |
| `FreeListSafety.PopIsCurrent` | include/core/utils/ifreelist.h:284-285 | if the head CAS would succeed on a timely snapshot, the index is the head now and the successor read earlier is its successor now, whatever happened to the element meanwhile |
| `FreeListSafety.GiveUpMeansEmpty` | include/core/utils/ifreelist.h:260-268 | the range and block tests after the head load fail exactly when that list is empty at the load |
| `FreeListRuns.HeadCasIsCurrent` | include/core/utils/ifreelist.h:255-287 | ABA safety over all orderly runs from the constructor's state |
| `FreeListRuns.IdsStaySplit` | include/core/utils/ifreelist.h:119-123 | over all orderly runs, the chains found by following `_next` from the two heads, the clients' ids and the threads' ids partition all ids; both chains are free of repetition |
| `FreeListRuns.OnlyLoadHeadGivesUp` | include/core/utils/ifreelist.h:279-281 | the exit for an unallocated block is never taken by `pop` |
| `FreeListRuns.FailureIsHonest` | include/core/utils/ifreelist.h:216-219 | `next` and `push` fail only when every id is stored or held at the last head load, `pop` only when the stored list is empty then |
| `FreeListRuns.ValuesAreAStack` | include/core/utils/ifreelist.h:198-227 | replaying the linearization points on an ordinary stack succeeds and ends in the values found on the stored list: `push` and `pop` are last in, first out |
| `FreeListRuns.ValuesAreConserved` | include/core/utils/ifreelist.h:203-227 | each value was pushed exactly as often as it is stored, in flight or returned, so it is popped at most once and unchanged |
| `FreeListCalls.CallsEndWell` | include/core/utils/ifreelist.h:255-304 | a step that ends a call is one of four: a head load that finds the list empty, the head CAS of a `next` that hands out the head, or the last CAS of a `push`, or of a `pop` or `release`, with the id in front of the stored or the empty list; so no call gives up on contention |
| `FreeListCalls.RunsEndCallsWell` | include/core/utils/ifreelist.h:198-227 | the same over all orderly runs from the constructor's state, for the lists found in memory before and after |
| `FreeListCalls.OnlyNextHandsOut` | include/core/utils/ifreelist.h:192-195 | the only step that gives a client an id it did not have is the successful head CAS of a `next` |
| `FreeListCalls.PushPopReturnsAllIds` | include/core/utils/ifreelist.h:216-227 | over all orderly runs of `push` and `pop` alone no id goes to a client, and when all calls have ended every id is on one of the two lists |
| `FreeListCalls.PushStores` | include/core/utils/ifreelist.h:203-214 | from every state of the invariant, an undisturbed `push` with an id to be had stores its value on top |
| `FreeListCalls.PopFetches` | include/core/utils/ifreelist.h:216-227 | an undisturbed `pop` returns the top value and gives its id back to the empty list |
| `FreeListCalls.PopUndoesPush` | include/core/utils/ifreelist.h:203-227 | a `pop` right after a `push` returns the value and leaves both lists as they were |
| `FreeListCalls.NextTakes` | include/core/utils/ifreelist.h:192-195 | an undisturbed `next` with an id to be had gives the client the head of the empty list, whatever the blocks are |
| `FreeListCalls.ReleaseStores` | include/core/utils/ifreelist.h:196 | an undisturbed `release` puts the client's id in front of the empty list |
| `FreeListCalls.NextUndoesRelease` | include/core/utils/ifreelist.h:192-196 | a `next` right after a `release` hands out the same id and leaves owners and lists as they were |
| `FreeListProgress.RunsAreShort` | include/core/utils/ifreelist.h:255-304 | lock freedom: over all runs, orderly or not, n threads that begin k calls make at most 39nk accesses and 13 more for each spurious CAS failure |
| `FreeListProgress.AloneEnds` | include/core/utils/ifreelist.h:255-304 | from any state whatever, a thread left to itself ends its call within 13 accesses |
| `FreeListAba.UntimelyRunHandsOutTwice` | include/core/utils/ifreelist.h:255-304 | the bound on releases is tight: with exactly as many releases as serials between load and CAS, a client's id becomes the head of the empty list |
| `FreeListAba.DefaultIsRoomy` | include/core/utils/ifreelist.h:71-81 | the default constants are an instance, with 2^19 serials |
| `FreeListBlocks.SplitExactlyWhenOneBlock` | include/core/utils/ifreelist.h:203-227 | every timely run, and every timely run of `push` and `pop` alone, keeps the ids split if and only if all ids lie in the first block |
| `FreeListBlocks.FarPushLosesAnId` | include/core/utils/ifreelist.h:203-214 | otherwise a single thread that only pushes loses an id, timely and undisturbed, and the head of the stored list does not carry the value pushed last |
| `FreeListBlocks.OneBlockIsOrderly` | include/core/utils/ifreelist.h:216-227 | with all ids in the first block every timely run is orderly, so that all results above apply to it |
| `FreeListBlocks.NextOnlyIsOrderly` | include/core/utils/ifreelist.h:192-196 | a run that uses only `next` and `release` is orderly whatever the blocks are |
| `FreeListBlocks.DefaultSizes` | include/core/utils/ifreelist.h:119-123 | for the default constants both hold if and only if the list was made with a size from 1 to 128 |
| `TimeSets.CanonicalUnique` | src/multimedia/imediatimerange.cpp:610-613 | two canonical lists are equal element by element if and only if they denote the same set |
| `MediaTimeRange.TimeRangeData.AddInterval` | src/multimedia/imediatimerange.cpp:198-235 | the new list denotes the union for every canonical list and every 64-bit interval; some computed value leaves 64 bits if and only if list and interval both start at the smallest integer; read as a wrap, the list is canonical if and only if that does not mislead the merge |
| `MediaTimeRange.TimeRangeData.MergeTrailing` | src/multimedia/imediatimerange.cpp:225-234 | merging the trailing intervals keeps the times, and no value computed there leaves 64 bits |
| `MediaTimeRange.TimeRangeData.RemoveInterval` | src/multimedia/imediatimerange.cpp:237-272 | the new list is canonical and denotes the exact difference, in the split, trim and cover cases, and no computed value leaves 64 bits, nor in the addition it makes itself |
| `MediaTimeRange.SplitMergesNothing` | src/multimedia/imediatimerange.cpp:248-252 | the call to `addInterval` in the split case merges nothing: the result is the list with the two halves in place |
| `MediaTimeRange.TimeRangeData.FromInterval` | src/multimedia/imediatimerange.cpp:192-196 | a range made from an interval is canonical, and empty when the interval is not normal |
| `MediaTimeRange.TimeRange.AddTimeRange` | src/multimedia/imediatimerange.cpp:448-455 | adding a range denotes the union of the two sets, for any two canonical ranges; the first interval of the range alone decides whether a value leaves 64 bits and whether the list stays canonical |
| `MediaTimeRange.TimeRange.RemoveTimeRange` | src/multimedia/imediatimerange.cpp:497-504 | removing a range denotes the difference of the two sets, with every value inside 64 bits |
| `MediaTimeRange.TimeRange.Contains` | src/multimedia/imediatimerange.cpp:592-603 | the search with its early break decides membership in the set |
| `MediaTimeRange.Plus` | src/multimedia/imediatimerange.cpp:630-633 | the result denotes the union, with the same exact conditions for overflow and form, and shares its list with the left operand |
| `MediaTimeRange.Minus` | src/multimedia/imediatimerange.cpp:640-643 | the result denotes the difference, with every value inside 64 bits, and shares its list with the left operand |
| `MediaTimeRange.UnionCommutes` | src/multimedia/imediatimerange.cpp:448-455 | union by adding ranges is commutative as lists |
| `MediaTimeRange.UnionAssociates` | src/multimedia/imediatimerange.cpp:448-455 | and associative as lists |
| `MediaTimeRange.UnionAbsorbs` | src/multimedia/imediatimerange.cpp:448-455 | adding a range changes nothing if and only if it was covered, which includes idempotence, whenever the sum is canonical |
| `MediaTimeRange.RemoveUndoesAdd` | src/multimedia/imediatimerange.cpp:497-504 | removing what was added restores the list if and only if the two ranges were disjoint |
| `MediaTimeRange.EarliestIsLeast` | src/multimedia/imediatimerange.cpp:384-407 | the first start and last end are the least and greatest members of the set, and both are 0 when it is empty |
| `MediaTimeRange.ContinuousMeansConvex` | src/multimedia/imediatimerange.cpp:582-585 | at most one interval is stored if and only if the set is convex |
| `Latin1Matcher.HashedNeedle.constructor` | include/core/utils/ilatin1stringmatcher.h:36-47 | the table holds each byte's distance from the end of the last 255 bytes of the needle, or the table's maximum |
| `Latin1Matcher.TableShiftIsSafe` | include/core/utils/ilatin1stringmatcher.h:66-67 | shifting by the table entry of the last byte jumps over no match |
| `Latin1Matcher.AbsentShiftIsSafe` | include/core/utils/ilatin1stringmatcher.h:81-84 | skipping past a byte the needle does not have jumps over no match |
| `Latin1Matcher.MatchBackwards` | include/core/utils/ilatin1stringmatcher.h:68-77 | the backward loop counts the matching bytes, and reaches the needle's length exactly for a match |
| `Latin1Matcher.HashedNeedle.Search` | include/core/utils/ilatin1stringmatcher.h:49-90 | the search returns the leftmost match or the end, for every needle and haystack |
| `Latin1Matcher.Needle` | src/core/utils/ilatin1stringmatcher.cpp:101-115 | the searcher gets the pattern itself, or its first 256 bytes folded |
| `Latin1Matcher.Scan` | src/core/utils/ilatin1stringmatcher.cpp:221-244 | searching again from behind every place where only the buffered part of a long pattern occurs misses no match |
| `Latin1Matcher.IndexIn` | src/core/utils/ilatin1stringmatcher.cpp:207-245 | `indexIn` gives the leftmost place at or after `from` where the haystack shows the pattern, byte by byte when case counts and up to the fold table otherwise, or -1 if there is none, also when the pattern exceeds the fold buffer |
| `CacheModel.TrimKeepsLongest` | include/core/utils/icache.h:173-182 | trimming keeps exactly the prefixes, most recent first, whose cost fits: the longest affordable one survives |
| `CacheModel.InsertKeepsWhatFits` | include/core/utils/icache.h:152-171 | a successful insertion evicts no entry that could have stayed: behind the new entry comes exactly the longest affordable prefix of the others |
| `CacheModel.RunGood` | include/core/utils/icache.h:109-171 | any sequence of calls keeps keys unique and the total within the bound, and every object is live, deleted once or handed out once for each time it was inserted |
| `CacheLaws.LookupLaw` | include/core/utils/icache.h:58-74 | a hit makes the entry the first and keeps all others in their order, and a miss changes nothing |
| `CacheLaws.RemoveLaw` | include/core/utils/icache.h:126-150 | `remove` and `take` leave exactly the other entries in their order; the object is deleted by the one and handed out, not deleted, by the other |
| `CacheLaws.RefusalLaw` | include/core/utils/icache.h:156-159 | a refused object is deleted, and the old entry under its key is gone all the same |
| `CacheLaws.AcceptanceLaw` | include/core/utils/icache.h:160-171 | an accepted object comes first, and behind it exactly the longest prefix of the other entries that fits beside it |
| `CacheLaws.SetMaxCostLaw` | include/core/utils/icache.h:114-116 | the new bound holds from then on, and exactly the longest prefix that fits it stays |
| `CacheLaws.ClearLaw` | include/core/utils/icache.h:109-112 | every object is deleted, and nothing else changes |
| `CacheLaws.FateLaw` | include/core/utils/icache.h:109-171 | only `take` hands objects out, and neither `take` nor a lookup deletes one |
| `CacheLaws.RunOutlives` | include/core/utils/icache.h:58-74 | over every run of calls that name neither key, an entry used less recently never outlives one used more recently |
| `CacheLaws.HitOutlives` | include/core/utils/icache.h:58-74 | least recently used goes first: after a hit on k and any run that names neither k nor b, b is still there only if k is, in front of it |
| `CacheLaws.InsertedIsNewest` | include/core/utils/icache.h:152-171 | an entry just inserted is more recent than any other |
| `Cache.LruCache.Detach` | include/core/utils/icache.h:46-55 | unlinking a node leaves list and hash in one-to-one agreement with one entry less |
| `Cache.LruCache.Lookup` | include/core/utils/icache.h:58-74 | a hit returns the object and refines move-to-front |
| `Cache.LruCache.Remove` | include/core/utils/icache.h:126-136 | refines removal from the sequence; the object is deleted |
| `Cache.LruCache.Take` | include/core/utils/icache.h:138-150 | refines removal from the sequence; the object is handed out and not deleted |
| `Cache.LruCache.Insert` | include/core/utils/icache.h:152-171 | refines insertion: the old entry goes first, an object over the bound is deleted and refused, otherwise room is made from the least recently used end |
| `Cache.LruCache.Trim` | include/core/utils/icache.h:173-182 | refines eviction from the least recently used end |
| `Cache.LruCache.SetMaxCost` | include/core/utils/icache.h:114-116 | refines changing the bound and trimming to it |
| `Cache.LruCache.Clear` | include/core/utils/icache.h:109-112 | refines deleting every object, and leaves no entry |
| `SharedPtr.StepKeepsInv` | include/core/utils/irefcount.h:24-44 | every step of every thread keeps the invariant of the counts |
| `SharedPtr.CountsAreExact` | include/core/utils/isharedptr.h:312-320 | over all runs the strong count is the live strong handles plus the operations in progress, and the weak count likewise, each strong owner holding a weak one |
| `SharedPtr.LifetimesAreSafe` | src/core/utils/isharedptr.cpp:23-46 | over all runs the object is deleted at most once, the block is freed at most once and only after that, and no thread touches a freed block |
| `SharedPtr.NothingLeaks` | src/core/utils/isharedptr.cpp:23-46 | when every handle is gone and every thread is idle, both deleters have run exactly once |
| `SharedPtr.ZeroStaysZeroForever` | include/core/utils/isharedptr.h:357-368 | once the strong count is zero no run of steps raises it again |
| `SharedPtr.LockIsHonest` | include/core/utils/isharedptr.h:357-375 | promotion of a weak handle gives up exactly when no strong count is left |
| `SharedPtrCalls.CallsStartWell` | include/core/utils/isharedptr.h:312-320 | what each operation does at once: a drop removes its handle and enters the dereference of its kind, and the others begin without touching anything |
| `SharedPtrCalls.CallsEndWell` | include/core/utils/isharedptr.h:357-379 | a step that ends a copy yields a new handle of its kind; one that ends a `lock` yields a new strong handle, unless the strong count is zero at that step; no other step of theirs changes the handles |
| `SharedPtrCalls.RunsEndCallsWell` | include/core/utils/isharedptr.h:357-379 | over all runs a thread in an operation is still in it, or some turn ended it in just this way |
| `SharedPtrCalls.LockSucceeds` | include/core/utils/isharedptr.h:357-379 | an undisturbed `lock` of a weak handle to a live object yields a new strong handle and counts it strongly and weakly |
| `SharedPtrCalls.CopySucceeds` | include/core/utils/isharedptr.h:312-320 | an undisturbed copy of a strong handle yields a new one and counts it strongly and weakly |
| `SharedPtrCalls.DropSucceeds` | src/core/utils/isharedptr.cpp:23-46 | an undisturbed drop of a strong handle gives up both its counts, deletes the object with the last strong one and frees the block with the last weak one |
| `SharedPtrCalls.WeakDropSucceeds` | src/core/utils/isharedptr.cpp:38-46 | an undisturbed drop of a weak handle gives up one weak count, and frees the block with the last |
| `SharedPtrProgress.RunsAreShort` | include/core/utils/isharedptr.h:357-368 | lock freedom: over all runs, n threads that begin k operations make at most 14nk accesses and 7 more for each spurious CAS failure |
| `ArrayBuffer.ReadjustMakesRoom` | include/core/utils/iarraydatapointer.h:226-251 | when the space test passes, the new start keeps the elements inside the block and leaves the room asked for |
| `ArrayBuffer.ReadjustBalances` | include/core/utils/iarraydatapointer.h:226-251 | growing forward, all free space goes to the end; growing backwards, the space beyond the room asked for is halved between the sides, an odd slot going to the end |
| `ArrayBuffer.RoomIsUsed` | include/core/utils/iarraydatapointer.h:226-241 | below two thirds full, or one third in front, the block itself serves a request exactly when one of its sides has room for it |
| `ArrayBuffer.Buffer.TryReadjustFreeSpace` | include/core/utils/iarraydatapointer.h:215-252 | succeeds exactly when the space test passes, and then leaves the free space shared out as the direction of growth wants; the contents stay, and a tracked pointer keeps its element |
| `ArrayBuffer.Buffer.Relocate` | include/core/utils/iarraydatapointer.h:258-268 | the overlapping move keeps the contents and shifts a pointer into them by the same offset |
| `ArrayBuffer.Buffer.Insert` | include/core/utils/iarraydatapointer.h:368-381 | the contents are the old ones with the new elements in between |
| `ArrayBuffer.Buffer.Erase` | include/core/utils/iarraydatapointer.h:396-414 | the contents are the old ones without the erased part; an erased prefix moves only the start |
| `ArrayBuffer.Buffer.GrowAppendOwn` | include/core/utils/iarraydatapointer.h:459-476 | appending part of the buffer to itself appends what was asked for even when the elements move first |
| `ArrayBuffer.Buffer.Append` | include/core/utils/iarraydatapointer.h:139-155 | one element is appended if there is room or room can be made; the layout is the queue model's, and the cost is the size exactly when the start has moved |
| `ArrayBuffer.Buffer.Prepend` | include/core/utils/iarraydatapointer.h:215-252 | one element is put in front if there is room or room can be made, and the elements move only when the start has to go elsewhere than one slot down |
| `ArrayBuffer.QueueIsAmortised` | include/core/utils/iarraydatapointer.h:226-240 | over any sequence of single appends and front erasures, at most twice the appends plus the capacity are moved |
| `ArrayBuffer.MovesAreFarApart` | include/core/utils/iarraydatapointer.h:226-240 | over any such sequence, more than a third of the capacity is appended between two moves |
| `ArrayBuffer.QueueNeverRefuses` | include/core/utils/iarraydatapointer.h:226-240 | in a block that stays less than two thirds full, every append of a run succeeds |
| `ArrayBuffer.StackIsAmortised` | include/core/utils/iarraydatapointer.h:226-241 | over any sequence of single prepends and back erasures, at most the prepends plus the capacity are moved, and more than a third of the capacity is prepended between two moves |
| `ArrayBuffer.StackNeverRefuses` | include/core/utils/iarraydatapointer.h:226-241 | in a block that stays less than one third full, every prepend of a run succeeds |
| `Endian.ByteMaskValue` | include/core/global/iendian.h:57-84 | the mask of each byte has the value of the constant in the source |
| `Endian.SwapMirrors` | include/core/global/iendian.h:57-84 | the mask-and-shift terms put each bit into the mirrored byte, for words of any number of bytes |
| `Endian.SwapIsInvolution` | include/core/global/iendian.h:57-84 | swapping twice gives the word back |
| `Endian.SwapOfAnd` | include/core/global/iendian.h:57-84 | swapping distributes over `&` |
| `Endian.SwapOfOr` | include/core/global/iendian.h:57-84 | swapping distributes over bitwise or |
| `Endian.SwapOfXor` | include/core/global/iendian.h:57-84 | swapping distributes over `^` |
| `Bitfields.ReadBack` | src/core/global/iendian_p.h:44-62 | a field reads back the remainder of the value assigned by two to its width, for every position and width that fits |
| `Bitfields.OthersUnchanged` | src/core/global/iendian_p.h:44-51 | assigning one field leaves every disjoint field as it was |
| `Bitfields.SignedReadsTheField` | src/core/global/iendian_p.h:54-60 | the two shifts of the signed read give the two's complement value of the field |
| `Bitfields.SignedReadBack` | src/core/global/iendian_p.h:44-60 | a signed value survives a field if and only if it is in the range of the field's width |
| `Bitfields.ComparisonIsOfFields` | src/core/global/iendian_p.h:65-66 | `==` on the stored words holds if and only if the fields read the same, in either byte order |
| `Bitfields.NotIsZeroField` | src/core/global/iendian_p.h:64 | `!` on the stored word holds if and only if the field reads zero, in either byte order |
| `Bitfields.Storage.Assign` | src/core/global/iendian_p.h:44-51 | each stored bit, at its place or mirrored into the other byte order, is the field's or the old one; so the assigned field takes its value and no disjoint field changes |
| `Bitfields.Storage.Equals` | src/core/global/iendian_p.h:65-66 | two stored words compare equal if and only if the field has the same value in both |
| `Bitfields.Storage.IsZero` | src/core/global/iendian_p.h:64 | the test for zero on the stored word holds if and only if the field is zero |
| `FloatDistance.MagnitudeIsExact` | src/core/global/inumeric.cpp:97-102 | the order used for comparisons is that of the numbers: a normal encoding stands for its significand times a power of two, and a subnormal one for its fraction |
| `FloatDistance.RankOrder` | src/core/global/inumeric.cpp:104-125 | ranks order encodings as their numbers are ordered, with both zeros at rank zero |
| `FloatDistance.DistanceIsRankGap` | src/core/global/inumeric.cpp:94-127 | for all finite inputs the distance is the difference in rank, with nothing wrapping |
| `FloatDistance.DistanceIsMetric` | src/core/global/inumeric.cpp:145-178 | the distance is symmetric, zero only for equal numbers, satisfies the triangle inequality and adds up along the line |
| `FloatDistance.DistanceOneMeansAdjacent` | src/core/global/inumeric.cpp:137-143 | distance one holds exactly between numbers with no number between them |
| `FloatDistance.DistanceBound` | src/core/global/inumeric.cpp:94-127 | the farthest numbers are the two largest of opposite sign |
| `FloatDistance.FloatDistances` | src/core/global/inumeric.cpp:94-127 | for float, the distance of any two finite numbers is their difference in rank and at most 4278190078 |
| `FloatDistance.DoubleDistances` | src/core/global/inumeric.cpp:145-178 | the same for double, with the bound 18437736874454810622 |
| `BitCount.ChunkCountIsOnes` | include/core/utils/ialgorithms.h:56 | multiplying twelve bits, masking and taking the remainder by 31 counts them |
| `BitCount.MarkedCopies` | include/core/utils/ialgorithms.h:56 | k marks over n copies of twelve bits leave, modulo 31, the sum of every fifth bit |
| `BitCount.PopulationCountIsOnes` | include/core/utils/ialgorithms.h:31-62 | the population count is the number of bits set, for every word size |
| `BitCount.RunDoubles` | include/core/utils/ialgorithms.h:136-144 | or-ing a word with itself shifted down by s doubles the run of ones at the top |
| `BitCount.CountLeadingZeroBits` | include/core/utils/ialgorithms.h:108-145 | the count c of a word of m bits puts it between 2^(m-c-1) and 2^(m-c), and is m for zero |
| `BitCount.NextPowerOfTwo` | include/core/kernel/imath.h:100-121 | the result is two to the word size less the leading zeros, modulo two to the word size: the least power of two above the argument, and 0 exactly when the word cannot hold it |
| `BitCount.CountTrailingZeroBits32` | include/core/utils/ialgorithms.h:64-76 | the count is the position of the lowest bit set, or 32 |
| `BitCount.CountTrailingZeroBits64` | include/core/utils/ialgorithms.h:101-106 | the count is the position of the lowest bit set, or 64 |

## Left out

- FreeListBlocks.FarPushLosesAnId: is stated for a first id in the first block; if no id lies there, `push` releases an index of a block that was never allocated and dereferences null, which the model does not represent. What later calls make of the state after the loss is not followed.
- MediaTimeRange.TimeRange.RemoveTimeRange: starts from canonical lists; a list that the overflow of line 219 has already doubled is followed through additions only.
- Latin1Matcher.IndexIn: takes a Latin-1 haystack and `from` no less than minus its length, and lets `startsWith` compare by the same fold table as the searcher; the overload for UTF-16 haystacks is not modelled.
- Cache.LruCache.Lookup: node pointers are modelled by the keys of their nodes, which the hash keeps stable; null object pointers are not inserted.
- CacheModel.TrimKeepsLongest: assumes costs that are not negative, as the run lemma does; the refinement itself does not.
- SharedPtr.CountsAreExact: counts are unbounded; the static count -1 used for untracked objects and `setObjectShared` are not modelled.
- ArrayBuffer.Buffer.GrowAppendOwn: answers false where the source goes on to reallocate.
- ArrayBuffer.Buffer.Prepend: models a caller that makes room in front and lowers the start with `setBegin`, and answers false where it would have to reallocate; the byte array's own insertion at the front (src/core/utils/ibytearray.cpp:1630-1637) moves elements right with `insert` and is not modelled.
- ArrayBuffer.Buffer.Append: answers false where the source goes on to reallocate.
- Bitfields.Storage.Assign: models single assignment; the compound assignments are a read followed by it.
- BitCount.CountTrailingZeroBits32: the 8- and 16-bit overloads, which are the same code with fewer steps, are not modelled.
- Reallocation of array buffers (`allocateGrow`, `reallocateAndGrow`) and the insertion of n copies, whose return value is computed from a wrapped counter.
- Weak memory orders, allocation failure and the freeing of memory itself: ghost counts stand for deletions.
- Losing the race to publish a block is one step together with the reload that follows it.
- The assertion in `next` (include/core/utils/ifreelist.h:193) that no value is stored: the model lets clients mix both modes.
- The destructor and the destroy notification of the free list, and access to payloads by id (`at`, `operator[]`).
- The other overloads of the time range (`operator+=`, construction from bounds), which forward to the modelled ones.
- Fuzzy floating-point comparison and the conversions between number types.
- The INC protocol, memory pool, signals and slots, variants, geometry, event loop and media classes.
