# Verified models of the vendored Objective-C runtime headers and the NetInfo cache

The repository carries Apple's objc4 headers, whose inline functions hold real algorithms, and a small
NetInfo cache written in C. This project models the parts of both that do something hard, and proves
what they are for. `dafny verify dfyconfig.toml` checks everything.

**Split reference count** (`SplitRefcount`, `SplitRefcountProofs`, `SplitRefcountTheorems`,
`SplitRefcountCalls`, `SplitRefcountAlone`, `IsaBits`, `SideTableBits`, `SideTableRuns`).
A nonpointer object's retain count lives partly in the `extra_rc` bits of its isa word and partly in a
locked side table. Any number of threads run `rootRetain`, `rootTryRetain`, `rootRelease`,
`rootRetainCount` and the two flag setters on one object; each has its own program counter, every atomic
access is one step, a store-exclusive may fail for no reason, and the side-table lock blocks. The width
`k` of `extra_rc` is a parameter (7, 8 and 19 in isa.h:71-73, 88-90, 107-109 and 142-144). The
`SplitRefcount` modules keep the side table as a counter: first what every schedule keeps, then what a call
that returned has done whatever others did meanwhile, then what a call does when nobody disturbs it.
`SideTableBits` and `SideTableRuns` run the same machine
with the table's adds and subtractions done on the `w`-bit word of NSObject.mm:1239-1291, pinned bit and
wrap-around included.

**DenseMap** (`DenseMapProbe`, `DenseMapTable`, `DenseMaps`, `DenseMapRuns`, sized by `MathExtras` over
`Words`, with `FiniteSets` for counting). The open-addressed table as a class over its bucket array:
triangular probing, tombstones, and values that a rehash or an insertion may silently drop. Keys,
values, the hash and `isPurgeable` are parameters; the value slot of a dead bucket holds anything. A
ghost map is what the table stands for.

**Small protocols** (`InlineRefcount`, `HookChain`, `LockOrder`, `TaggedPointers`). The inline reference
count macro, the chained hook, address-ordered locking and the split tagged pointer layout.

**NetInfo cache** (`Netinfo`, `NICacheText`, `NICacheFile`, `PLCaches`, `PLCacheRuns`). Property lists in
arrays that shift, the cache file's printer and line-by-line reader, and the doubly linked list of
entries, most recently used first, over single calls and over runs of calls.

The protocols are state machines with a function for one step and one for a schedule of steps, and their
theorems quantify over every schedule. `SplitRefcount.FireRetain` follows objc-object.h:654-706,
`FireRelease` 776-903, `FireCount` 930-944 and `FireFlag` 484-521; `SideTableBits.FireBits` follows
NSObject.mm:1239-1291; `InlineRefcount.Fire` follows
objc-internal.h:1080-1130, `HookChain.Fire` objc-private.h:1073-1081, and `LockOrder.Fire`
objc-os.h:787-800 and objc-private.h:938-948. Code that updates objects is a class whose methods are
proved against functions of what they held before; `NICacheText.Print` and `Parse` are those functions
for NICache.c:407-423 and 306-384.

Four findings, each with the exact condition under which the code does what it should:

- A weak load's caller holds the side-table lock around `rootTryRetain`. If the load overflows
  `extra_rc`, loses its store and then finds the object deallocating, objc-object.h:665-668 gives that
  lock back although line 700 would not. `TryKeepsLockIff`: with another thread about, the caller is
  sure to keep its lock if and only if the object already uses the side table, or is already
  deallocating, at the call.
- The side table's word holds four times the count, and its top bit means pinned. An add that finds the
  bit set drops its whole amount (NSObject.mm:1252), but a subtraction has no such test
  (NSObject.mm:1271-1290), so pinning does not stick. `ConservedIff`: over every schedule, no count is lost
  if and only if no add found a table of 2^(w-3) or more; each one that did lost exactly `RC_HALF`
  (`CountLessDropped`). With fewer than 2^(w-3) + `RC_HALF` references at all times the word does what the
  counter does (`SmallIsReached`), so every theorem about the counter holds of it. `DeallocatedTooEarly`:
  for every width, a run that loses counts and then deallocates while releases are still owed. The limit is
  2^29 in 32 bits and 2^61 in 64.
- `insert` promises not to change a key that is there (llvm-DenseMap.h:229-231). When the key's value
  is purgeable it may have been dropped, and then `insert` succeeds with the new value.
  `InsertAgreesIff` and `RunAgreesIff` say exactly which inserts keep the table in step with a plain
  map; `InsertCanDisagree` is three inserts into a new table after which the two differ, and
  `OverwrittenThenInserted` the general case.
- `shrink_and_clear` computes a bucket count and passes it to `init`, which expects an entry count
  (llvm-DenseMap.h:864-871). `ShrinkAndClear`: the table ends with the computed count if and only if it
  held nothing or had that many buckets already; otherwise it ends with exactly twice as many. In
  `ClearAllocatesDouble` one entry in 64 buckets leaves 8, where 4 were computed. `clear` still never
  leaves more buckets than there were.

## Model

| member | source | states |
|---|---|---|
| SplitRefcountTheorems.CountConserved | src/libobjc/objc-object.h:654-882 | in every reachable state of any number of threads, `extra_rc` plus the side table plus what the lock holder has in transit is one plus the retains less the releases that took effect, through overflow, borrow, failed store, second-chance store and put-back; and the word is deallocating exactly when that is zero; the table counts without bound here |
| SplitRefcountTheorems.TableInHalves | src/libobjc/objc-object.h:683-698 | the side table, counting without bound, always holds a multiple of `RC_HALF`; with the lock free, `has_sidetable_rc` is set exactly when it holds any |
| SplitRefcountTheorems.BorrowIsExact | src/libobjc/objc-object.h:836-847 | a borrow always yields exactly `RC_HALF`, and the word the first borrow store would write is not a deallocating one |
| SplitRefcountTheorems.NeverEmptyAfterAll | src/libobjc/objc-object.h:884-886 | the fall-through for a side table that is empty after all is unreachable |
| SplitRefcountTheorems.DeallocatedOnce | src/libobjc/objc-object.h:889-902 | whatever callers do, at most one release returns true; if one did the count is zero, and once no call is in progress a zero count means one did |
| SplitRefcountTheorems.DeallocatingIsFinal | src/libobjc/objc-object.h:663-674 | from any reachable deallocating state on, no retain or release takes effect and the word stays deallocating, over every continuation |
| SplitRefcountTheorems.FlagsSurvive | src/libobjc/objc-object.h:484-521 | `has_assoc`, `weakly_referenced` and the class bits, once stored, survive every later step of every thread |
| SplitRefcountTheorems.SetterSetsFlag | src/libobjc/objc-object.h:484-521 | when a flag setter is done its flag is set in the word |
| SplitRefcountTheorems.RetainCountIsExact | src/libobjc/objc-object.h:930-944 | `rootRetainCount` answers the count recorded when it loaded the word |
| SplitRefcountTheorems.RetainCountLoads | src/libobjc/objc-object.h:935-941 | at that load the lock is held and word plus table is exactly one plus retains less releases |
| SplitRefcountTheorems.SomeoneMoves | src/libobjc/objc-object.h:654-903 | a thread inside a call can take a step, or waits for a lock whose holder can |
| SplitRefcountTheorems.TryKeepsLockIff | src/libobjc/objc-object.h:663-700 | `rootTryRetain` keeps its caller's table lock over every schedule if and only if, at the call, the object uses the side table or is deallocating |
| SplitRefcountTheorems.TryKeepsLockIfSafe | src/libobjc/objc-object.h:663-700 | in the two safe cases the caller keeps its lock over every schedule of any number of threads |
| SplitRefcountTheorems.TryCanLoseLock | src/libobjc/objc-object.h:663-692 | from every other state a schedule exists that gives the caller's lock away |
| SplitRefcountTheorems.LockIsLost | src/libobjc/objc-object.h:663-692 | for every width, on a new object with two threads, a whole schedule beginning with thread 0's weak load in which that thread's caller loses its lock |
| SplitRefcountTheorems.TryFailsOnlyIfDeallocating | src/libobjc/objc-object.h:663-671 | `rootTryRetain` is about to answer nil only for an object that is deallocating |
| SplitRefcountCalls.RetainOutcome | src/libobjc/objc-object.h:654-706 | over every schedule, a `rootRetain` that returned has retained exactly once by its own steps, lost stores and all, or not at all and the object is deallocating |
| SplitRefcountCalls.TryOutcome | src/libobjc/objc-object.h:654-706 | a `rootTryRetain` about to answer has retained exactly once if it answers the object and not at all if nil |
| SplitRefcountCalls.TryNeverRevives | src/libobjc/objc-object.h:663-671 | and one that was called on a deallocating object never answers it |
| SplitRefcountCalls.ReleaseOutcome | src/libobjc/objc-object.h:776-903 | a `rootRelease` that returned has released exactly once by its own steps, or not at all and the object is deallocating; it answers true if and only if its own store made the object so |
| SplitRefcountCalls.CountOutcome | src/libobjc/objc-object.h:930-944 | the answer of `rootRetainCount` is word plus table, and one plus retains less releases, at some moment of the call |
| SplitRefcountCalls.CountFromLoad | src/libobjc/objc-object.h:935-943 | namely at its load: from there on the answer is fixed, whatever other threads do |
| SplitRefcountCalls.AnswerIsOfTheLoad | src/libobjc/objc-object.h:933-935 | not when the lock was taken: a run in which a retain between the two is counted |
| SplitRefcountCalls.FlagOutcome | src/libobjc/objc-object.h:484-521 | a flag setter that returned has left its flag set |
| SplitRefcountCalls.FlagNeedsSetter | src/libobjc/objc-object.h:484-521 | a flag changes in no schedule without a call that sets it |
| SplitRefcountAlone.FinishesAlone | src/libobjc/objc-object.h:654-944 | from every reachable state, stale loads included, any call that is left alone returns within twelve steps, unless another thread has the lock |
| SplitRefcountAlone.RetainAlone | src/libobjc/objc-object.h:654-706 | an undisturbed `rootRetain` adds one to the word; if that overflows it leaves `RC_HALF` there and puts `RC_HALF` in the table; and it changes nothing else, or nothing at all when the object is deallocating |
| SplitRefcountAlone.TryAlone | src/libobjc/objc-object.h:654-706 | so does an undisturbed weak load, and its caller's lock is free again afterwards |
| SplitRefcountAlone.ReleaseAlone | src/libobjc/objc-object.h:776-903 | an undisturbed `rootRelease` takes one from the word, after moving `RC_HALF` over from the table when the word is empty, and answers true exactly when nothing is left |
| SplitRefcountAlone.SetterAlone | src/libobjc/objc-object.h:484-521 | an undisturbed flag setter sets its flag and changes nothing else |
| SplitRefcountAlone.SecondChance | src/libobjc/objc-object.h:855-870 | a release whose first borrow store failed, and that is then left alone, succeeds at the second attempt with the borrowed half, whenever that half fits |
| SplitRefcountProofs.StepKeepsInv | src/libobjc/objc-object.h:654-903 | every step of every thread keeps the global invariant and what each other thread relies on, and moves flags, lock and outcome only one way |
| SideTableBits.AddIsExactIff | src/libobjc/NSObject.mm:1239-1265 | adding d counts to the stored word gives four times the sum, unpinned, if and only if the count was below 2^(w-3); otherwise the word is unchanged and the answer is pinned; the carry branch is never taken |
| SideTableBits.SubIsExactIff | src/libobjc/NSObject.mm:1270-1291 | the assertion that the word shrinks holds if and only if the table has that many, and then the word and the reported borrow are exact |
| SideTableBits.StepKeepsBits | src/libobjc/NSObject.mm:1239-1291 | over the word every step keeps the global invariant and leaves room for what is on loan; only an add to a pinned word differs from the step over the counter, and it loses exactly `RC_HALF` |
| SideTableBits.AddPinned | src/libobjc/NSObject.mm:1252-1252 | after such an add the rest of the state is as if the lost counts had never been retained |
| SideTableRuns.RunKeepsBits | src/libobjc/NSObject.mm:1239-1291 | and so over every schedule, from any state that satisfies the invariant |
| SideTableRuns.CountLessDropped | src/libobjc/NSObject.mm:1239-1265 | in every reachable state `extra_rc`, table and transit are one plus the retains less the releases less `RC_HALF` for each add that found the word pinned; the word is deallocating exactly when that is zero; the table is never above 2^(w-3) |
| SideTableRuns.ConservedIff | src/libobjc/NSObject.mm:1252-1252 | so no count is lost if and only if no add of the schedule found a table of 2^(w-3) or more |
| SideTableRuns.SmallIsReached | src/libobjc/NSObject.mm:1239-1291 | when the count stays below 2^(w-3) plus `RC_HALF`, the run over the word is the run over the counter |
| SideTableRuns.BorrowIsHalf | src/libobjc/NSObject.mm:1270-1291 | in every reachable state, pinned or not, a borrow takes exactly `RC_HALF` and the underflow assertion does not fire |
| SideTableRuns.PutBackFits | src/libobjc/NSObject.mm:1252-1265 | in every reachable state the put-back of a borrow is exact: it never finds the word pinned |
| SideTableRuns.StillDeallocatedOnce | src/libobjc/objc-object.h:889-902 | even when counts are lost, at most one release returns true |
| SideTableRuns.DeallocatedTooEarly | src/libobjc/NSObject.mm:1239-1291 | for every width, a schedule of one thread after which the object is deallocating although fewer releases than one plus the retains took effect |
| IsaBits.AddcAddsCounts | src/libobjc/objc-os.h:165-169 | adding n counts to the w-bit word adds n to `extra_rc`, carries exactly when that overflows, and touches no other field |
| IsaBits.SubcTakesCount | src/libobjc/objc-os.h:171-175 | taking one count borrows exactly when `extra_rc` is zero, and otherwise touches no other field |
| IsaBits.DeallocatingBits | src/libobjc/objc-private.h:98-100 | the deallocating test is a comparison of the whole word with the bit below `has_sidetable_rc` |
| MathExtras.NextPowerOf2U32 | src/libobjc/llvm-MathExtras.h:416-425 | the least power of two strictly above the argument, and zero exactly when that does not fit in 32 bits |
| MathExtras.NextPowerOf2U64 | src/libobjc/llvm-MathExtras.h:404-414 | the same in 64 bits |
| MathExtras.SmearStep | src/libobjc/llvm-MathExtras.h:407-412 | each shift-and-or doubles the run of ones under the top bit |
| MathExtras.NextPow2Least | src/libobjc/llvm-MathExtras.h:404-405 | the width-free next power of two is a power of two above its argument and no smaller one is |
| MathExtras.CountLeadingZeros32 | src/libobjc/llvm-MathExtras.h:151-163 | the bisection counts the leading zeros exactly: the value is below 2^m just when at least 32 - m are counted, 32 for zero |
| MathExtras.Log2Ceil32 | src/libobjc/llvm-MathExtras.h:317-322 | the least k with 2^k at least the value, and 32 for zero |
| DenseMapProbe.EveryBucketVisited | src/libobjc/llvm-DenseMap.h:659-694 | adding 1, 2, 3, ... modulo a power-of-two table size visits every bucket within the first `NumBuckets` probes, from any hash |
| DenseMapProbe.VisitsDiffer | src/libobjc/llvm-DenseMap.h:692-693 | and none of them twice |
| DenseMapProbe.VisitNext | src/libobjc/llvm-DenseMap.h:692-693 | one advance of the loop is the next triangular number modulo the size |
| DenseMaps.NextBucket | src/libobjc/llvm-DenseMap.h:692-693 | the add and the mask together are that advance |
| DenseMaps.Advance | src/libobjc/llvm-DenseMap.h:692-693 | the two statements that advance the probe go from one bucket of the path to the next |
| DenseMaps.Probe | src/libobjc/llvm-DenseMap.h:659-694 | with one empty bucket the loop ends without reaching the corrupt-table abort, at the key or, if it meets an empty bucket first, at the first bucket on the path that may be taken |
| DenseMaps.ScanOn | src/libobjc/llvm-DenseMap.h:678-691 | passing a bucket keeps the first usable one met so far, and stays short of the bucket known to be empty |
| DenseMaps.AbsentAfterProbe | src/libobjc/llvm-DenseMap.h:669-676 | in a correct table, meeting an empty bucket first means the key is stored nowhere |
| DenseMaps.DenseMap.LookupBucketFor | src/libobjc/llvm-DenseMap.h:640-695 | found exactly when the key is in the map the table stands for; otherwise the first empty, tombstone or purgeable bucket on its path |
| DenseMaps.DenseMap.Lookup | src/libobjc/llvm-DenseMap.h:220-227 | the stored value, or the default |
| DenseMaps.DenseMap.InitEmpty | src/libobjc/llvm-DenseMap.h:395-404 | an empty map whatever the value slots held |
| DenseMaps.DenseMap.InitFor | src/libobjc/llvm-DenseMap.h:830-838 | an empty map with the bucket count for n entries |
| DenseMaps.MinBucketsOk | src/libobjc/llvm-DenseMap.h:406-415 | that bucket count is the least power of two that n entries leave under the load limit; it is at least 4, and no 32-bit step to it wraps |
| DenseMaps.GrownSizeOk | src/libobjc/llvm-DenseMap.h:840-844 | the size to grow to is the least power of two of at least 4 and of at least the size asked for |
| DenseMaps.MustGrow | src/libobjc/llvm-DenseMap.h:591-603 | an insertion rehashes exactly when it would leave at most a quarter of the buckets without an entry, or at most an eighth of them empty |
| DenseMaps.MustCompactIff | src/libobjc/llvm-DenseMap.h:309-320 | compaction rehashes exactly when less than a sixteenth of more than 1024 buckets is used |
| DenseMaps.DenseMap.constructor | src/libobjc/llvm-DenseMap.h:768-770 | a new table is a valid, empty map sized for its reserve; validity, which every call keeps, includes the load limit and that more than an eighth of the buckets are empty |
| DenseMaps.DenseMap.MoveFromOldBuckets | src/libobjc/llvm-DenseMap.h:417-443 | the new table holds exactly the old map's entries whose values may not be dropped, and has no tombstones |
| DenseMaps.DenseMap.SizeToGrowTo | src/libobjc/llvm-DenseMap.h:844-844 | a power of two of at least 4 and of at least the size asked for, also where the argument wraps below zero |
| DenseMaps.DenseMap.Grow | src/libobjc/llvm-DenseMap.h:840-855 | a valid table of that size holding the old map less its purgeable entries |
| DenseMaps.DenseMap.InsertIntoBucketImpl | src/libobjc/llvm-DenseMap.h:579-621 | rehashes exactly when the load or tombstone test says so, drops only purgeable entries, doubles the bucket count or starts it at 4 exactly when the load test says so, and leaves counters right for the bucket about to be taken, which is on the key's path |
| DenseMaps.DenseMap.InsertIntoBucket | src/libobjc/llvm-DenseMap.h:559-567 | the key is stored with its value and only purgeable other entries are gone, in twice the buckets exactly when the load test says so; without a rehash just that bucket changed |
| DenseMaps.DenseMap.TryEmplace | src/libobjc/llvm-DenseMap.h:246-278 | inserted exactly when the key was not stored; nothing changes when it was; otherwise it is stored and only purgeable entries are gone, with the bucket count the load test gives |
| DenseMaps.DenseMap.FindAndConstruct | src/libobjc/llvm-DenseMap.h:343-349 | the bucket of the key, put in with the default value when it was not stored, and then with the bucket count the load test gives |
| DenseMaps.DenseMap.Assign | src/libobjc/llvm-DenseMap.h:351-353 | afterwards the key has that value; nothing else changes if it was stored, and otherwise of the others only purgeable ones are gone, all of them if the table had to grow; the bucket count is exact |
| DenseMaps.DenseMap.Erase | src/libobjc/llvm-DenseMap.h:322-333 | true exactly when the key was stored; the map then lacks it, and lacks the purgeable entries exactly when the rest is few enough to rehash; the bucket count is none after the last entry, the compacted one after a rehash, and else the old one |
| DenseMaps.DenseMap.Compact | src/libobjc/llvm-DenseMap.h:309-320 | the same map, less its purgeable entries exactly when entries are few in a large table; no buckets when empty, and never more than before |
| DenseMaps.DenseMap.ShrinkAndClear | src/libobjc/llvm-DenseMap.h:857-872 | an empty map; the bucket count is the computed one if and only if nothing was stored or the table had it already, and else exactly twice that, which has room for what was there in no more buckets than there were |
| DenseMaps.ShrunkDoubles | src/libobjc/llvm-DenseMap.h:861-871 | a computed count that `init` takes for an entry count is never kept: it allocates exactly twice as many |
| DenseMaps.OneSizeUp | src/libobjc/llvm-DenseMap.h:406-415 | room for a power of two of entries is exactly twice as many buckets |
| DenseMapRuns.ClearAllocatesDouble | src/libobjc/llvm-DenseMap.h:148-156 | a new table with 64 buckets reserved and one entry is cleared to 8 buckets, where 4 were computed |
| DenseMaps.ShrinkSizes | src/libobjc/llvm-DenseMap.h:861-871 | the shrunken bucket count, even after `init` enlarges it as if it were an entry count, is no more than the old one |
| DenseMaps.DenseMap.Clear | src/libobjc/llvm-DenseMap.h:148-179 | an empty map with exactly the bucket count that the emptiness and load tests lead to, never more than before |
| DenseMaps.ClearedIsTight | src/libobjc/llvm-DenseMap.h:148-179 | a cleared table has fewer than eight buckets for each entry there was, or at most eight in all |
| DenseMaps.DenseMap.Reserve | src/libobjc/llvm-DenseMap.h:140-146 | exactly the bucket count for n entries if that is more, and then the map less its purgeable entries; else nothing changes |
| DenseMaps.DenseMap.InsertRange | src/libobjc/llvm-DenseMap.h:302-307 | into any table: the pairs are added in turn, the first of several with one key counting, and only purgeable entries are gone, so long as no pair comes to a key whose value may have been dropped; a table without tombstones that has room for them all never rehashes |
| DenseMaps.DenseMap.InsertEach | src/libobjc/llvm-DenseMap.h:305-306 | after the loop the map is what inserting the pairs in turn makes of it |
| DenseMaps.DenseMap.InsertNext | src/libobjc/llvm-DenseMap.h:305-306 | one turn of that loop keeps what is left able to go in, and does not rehash while there is room |
| DenseMaps.DenseMap.FromRange | src/libobjc/llvm-DenseMap.h:782-786 | sized for n entries and given n pairs, `grow` is never called |
| DenseMaps.FirstPairWins | src/libobjc/llvm-DenseMap.h:302-307 | what is added in turn: the first pair of a key, unless the key was there to begin with |
| DenseMaps.DistinctComeOver | src/libobjc/llvm-DenseMap.h:302-307 | pairs with different keys meet that proviso exactly when none of their keys is stored with a value that may be dropped |
| DenseMaps.DenseMap.AdvancePastEmptyBuckets | src/libobjc/llvm-DenseMap.h:1282-1290 | stops at the first stored entry, skipping none |
| DenseMaps.DenseMap.Begin | src/libobjc/llvm-DenseMap.h:116-122 | the first stored entry, or the end when there is none |
| DenseMaps.DenseMap.Next | src/libobjc/llvm-DenseMap.h:1272-1276 | the next stored entry |
| DenseMaps.Walk | src/libobjc/llvm-DenseMap.h:116-125 | a loop from `begin` with `++` to the end stops at exactly the buckets of the iteration, in order |
| DenseMaps.IterSkips | src/libobjc/llvm-DenseMap.h:1272-1290 | passing dead buckets loses nothing of the iteration |
| DenseMaps.IterYieldsEntries | src/libobjc/llvm-DenseMap.h:116-133 | that iteration meets each stored entry exactly once, `NumEntries` of them, all with different keys |
| DenseMaps.MapsEqual | src/libobjc/llvm-DenseMap.h:722-737 | equal exactly when the two stored maps are |
| DenseMaps.AllEntriesFound | src/libobjc/llvm-DenseMap.h:730-736 | the loop is true exactly when the left map is contained in the right one |
| DenseMaps.TakeSlot | src/libobjc/llvm-DenseMap.h:604-621 | overwriting the bucket found, also a purgeable one, keeps the table correct and says how both counts and the map change |
| DenseMapTable.TakeKeepsTable | src/libobjc/llvm-DenseMap.h:678-694 | no key ends up behind an empty bucket on its own path, and no key twice, when a usable bucket is taken |
| DenseMapTable.EraseKeepsTable | src/libobjc/llvm-DenseMap.h:327-330 | nor when a bucket becomes a tombstone |
| DenseMapTable.StoredAfterTake | src/libobjc/llvm-DenseMap.h:564-566 | the map gains the new entry and loses at most the purgeable one it overwrote |
| DenseMapRuns.Perform | src/libobjc/llvm-DenseMap.h:148-333 | every call on a valid table leaves a valid table, small enough for the next call, and changes the map only as its step relation allows |
| DenseMapRuns.RunFits | src/libobjc/llvm-DenseMap.h:148-333 | over any run the table never holds more keys than a plain map given the same calls |
| DenseMapRuns.PerformAll | src/libobjc/llvm-DenseMap.h:148-333 | a sequence of calls of any length, before each of which a plain map would hold fewer than 0x18000000 entries, is a run: the maps the table stands for on the way are related by the step relation, from the first to the last |
| DenseMapRuns.RunTable | src/libobjc/llvm-DenseMap.h:93-99 | so after any such sequence the table itself is the plain map less purgeable entries, if no insert hit a key whose value may have been dropped |
| DenseMapRuns.RunAndLookup | src/libobjc/llvm-DenseMap.h:220-227 | and `lookup` then finds every non-purgeable value, and agrees with the plain map on every key when the default is the purgeable value |
| DenseMapRuns.RunKeepsPurged | src/libobjc/llvm-DenseMap.h:93-99 | after any run of maps the last one is a plain map's contents less purgeable entries, if no insert hit a key whose value may have been dropped |
| DenseMapRuns.RunFindsValues | src/libobjc/llvm-DenseMap.h:93-99 | so every key with a non-purgeable value is found with exactly that value |
| DenseMapRuns.LookupAgrees | src/libobjc/llvm-DenseMap.h:93-99 | and when the default is the purgeable value, `lookup` agrees with the plain map on every key |
| DenseMapRuns.NoInsertsNoneHidden | src/libobjc/llvm-DenseMap.h:93-99 | runs of assignments and erasures never need that proviso |
| DenseMapRuns.NothingPurgeable | src/libobjc/llvm-DenseMap.h:93-99 | when nothing purgeable is ever stored, the table is a plain map |
| DenseMapRuns.InsertAgreesIff | src/libobjc/llvm-DenseMap.h:229-260 | an insert keeps the table in step exactly when its key is stored, or is not in the plain map, or carries the dropped value |
| DenseMapRuns.RunAgreesIff | src/libobjc/llvm-DenseMap.h:229-260 | a run stays in step throughout exactly when every insert of it is of that kind |
| DenseMapRuns.OverwrittenThenInserted | src/libobjc/llvm-DenseMap.h:612-618 | how they part, on any table: inserting a key whose first usable bucket is another key's, and then that key again, puts in the new value where the plain map keeps the old |
| DenseMapRuns.InsertCanDisagree | src/libobjc/llvm-DenseMap.h:612-618 | three inserts into a new table, the last of which is reported as inserted and found with its new value, where the plain map still has the first |
| DenseMapRuns.OneToTake | src/libobjc/llvm-DenseMap.h:678-685 | a key has one first usable bucket |
| InlineRefcount.OneDealloc | src/libobjc/objc-internal.h:1090-1113 | in every interleaving, however callers, logic blocks and dealloc itself misbehave, the swap into dealloc happens at most once and at most one thread is past it |
| InlineRefcount.NoTryAfterDealloc | src/libobjc/objc-internal.h:1117-1130 | after the swap no `_tryRetain` succeeds, from dealloc or anywhere else, and the same thread stays the one, over every continuation |
| InlineRefcount.TryOutcome | src/libobjc/objc-internal.h:1117-1130 | over every schedule, a `_tryRetain` that answers true has retained exactly once, and one that answers false not at all, at some moment of the call finding the object deallocating |
| InlineRefcount.TryAlone | src/libobjc/objc-internal.h:1117-1130 | undisturbed, it refuses an object that is deallocating, traps on one over-released, and adds one reference to any other |
| InlineRefcount.TryFinishesAlone | src/libobjc/objc-internal.h:1117-1130 | an attempt left alone, even with a stale read, answers or traps within three steps |
| InlineRefcount.RefusedIffNoOwners | src/libobjc/objc-internal.h:1117-1138 | with disciplined callers an attempt is refused if and only if there are no owners |
| InlineRefcount.Resurrected | src/libobjc/objc-internal.h:1084-1104 | a logic block may retain the object it was given and say so: the object has one owner again |
| InlineRefcount.TrapsIffMisuse | src/libobjc/objc-internal.h:1080-1130 | a step traps exactly on a retain, release or attempt of an over-released reference, a swap after a dangling retain, or a bogus disposition |
| InlineRefcount.DisciplinedRuns | src/libobjc/objc-internal.h:1080-1138 | when only owners retain and release and nothing resurrects, no trap fires, the counter is twice the owners less two, `retainCount` is the owners, and the thread that released the last reference is the one that deallocates |
| HookChain.ChainAtEveryState | src/libobjc/objc-private.h:1073-1081 | at every state of any number of concurrent `set` calls, following the variables from the installed hook visits each installed hook exactly once, latest first, ends at the original, and there is no other way to follow them |
| HookChain.GetStaysLinked | src/libobjc/objc-private.h:1069-1071 | every link below a value that `get` returned is already written then, and is the same in every later state |
| HookChain.LatestFirstAt | src/libobjc/objc-private.h:1051-1060 | that order is the reverse of the order of installation |
| HookChain.StepKeepsInv | src/libobjc/objc-private.h:1073-1081 | no step, spurious failure included, breaks a link already made |
| HookChain.SetCompletes | src/libobjc/objc-private.h:1073-1081 | from every reachable state a `set` that is left alone completes within four steps, stale loads included: its hook is in place, its variable holds the hook it replaced, and nothing else changed |
| LockOrder.NeverStuck | src/libobjc/objc-os.h:787-800 | any number of threads running `lockTwo` or `lockAll` and the matching unlocks: while one is unfinished some thread can step |
| LockOrder.HoldsItsLocks | src/libobjc/objc-os.h:787-800 | in every reachable state a thread holds exactly what its call has got to: nothing at first, the lower of the two, both and no other, then the second argument only; for all stripes, those below the next one to take or from the next one to give back |
| LockOrder.NoSharing | src/libobjc/objc-os.h:787-800 | so two threads that have their locks never share one |
| LockOrder.Mover | src/libobjc/objc-private.h:938-949 | following a blocked thread to the holder of the lock it wants leads, upwards through the stripes, to one that can step |
| LockOrder.StepIsProper | src/libobjc/objc-os.h:787-800 | no thread ever takes a lock it holds or gives back one it does not |
| LockOrder.FinishesInFixedTime | src/libobjc/objc-private.h:938-949 | the steps of any schedule that do anything are never more than the programs ask for; when they are as many, and only then, every thread is done, and until then some thread can step |
| LockOrder.StepIsWork | src/libobjc/objc-os.h:787-800 | every step that does anything brings the end exactly one step nearer |
| LockOrder.AllFreeAtTheEnd | src/libobjc/objc-os.h:797-800 | when all threads are done every lock is free |
| TaggedPointers.DecodeEncode | src/libobjc/objc-internal.h:482-519 | decoding undoes encoding on every 64-bit word, for every obfuscator clear on the no-obfuscation mask and every tag permutation that keeps 7 |
| TaggedPointers.EncodeDecode | src/libobjc/objc-internal.h:482-519 | and encoding undoes decoding |
| TaggedPointers.EncodedBits | src/libobjc/objc-internal.h:482-497 | encoding, bit by bit, on every word: one marked as clear is kept; of any other the basic tag goes through the table and every other bit is exclusive-ored with the obfuscator's |
| TaggedPointers.DecodedBits | src/libobjc/objc-internal.h:499-519 | decoding, bit by bit: the exclusive-or is undone unless the pointer is marked as clear, and the tag looked up |
| TaggedPointers.ShortLayout | src/libobjc/objc-internal.h:528-542 | a made word with tag at most 6: tag, 60 bits of payload, tag bit |
| TaggedPointers.ExtendedLayout | src/libobjc/objc-internal.h:543-551 | with an extended tag: 7, 52 bits of payload, the tag less 8, tag bit |
| TaggedPointers.EncodeKeepsTagBit | src/libobjc/objc-internal.h:554-558 | encoding never disguises whether a word is tagged |
| TaggedPointers.MadeTagReadsBack | src/libobjc/objc-internal.h:528-581 | a made pointer is tagged and its tag reads back, for tags 0 to 6 and 8 to 263 |
| TaggedPointers.MadeValueReadsBack | src/libobjc/objc-internal.h:528-594 | the payload reads back cut to 60 or 52 bits, so whole exactly when nothing lies above |
| TaggedPointers.MadeSignedReadsBack | src/libobjc/objc-internal.h:528-607 | the signed reading spreads the top payload bit, so it is the payload exactly when that is how it was extended |
| TaggedPointers.UpperExtendedTagsAreClear | src/libobjc/objc-internal.h:394-397 | the upper half of the extended tags is stored in the clear and the lower half only exclusive-ored |
| TaggedPointers.ObfuscatedTagToBasicTag | src/libobjc/objc-internal.h:474-479 | the scan of the table is the first place below 7 that holds the tag, else 7 |
| TaggedPointers.PlaceFrom | src/libobjc/objc-internal.h:474-479 | the first such place from i on |
| TaggedPointers.BasicTag | src/libobjc/objc-internal.h:489-489 | the masked word's value is the number its low three bits spell |
| Netinfo.NiList.Insert | src/libDHCPServer/netinfo.c:93-108 | x goes in before the position, or at the end from any position past it, and the rest keeps its order |
| Netinfo.NiList.Delete | src/libDHCPServer/netinfo.c:110-123 | just that element is gone |
| Netinfo.NiList.Dup | src/libDHCPServer/netinfo.c:142-157 | an equal list that shares no array |
| Netinfo.NiList.constructor | src/libDHCPServer/netinfo.h:105-105 | a new list is empty |
| Netinfo.NiList.Free | src/libDHCPServer/netinfo.c:125-140 | a freed list is empty again |
| Netinfo.InsertDelete | src/libDHCPServer/netinfo.c:93-123 | deleting what was inserted, from where it went, gives the list back |
| Netinfo.DeleteInsert | src/libDHCPServer/netinfo.c:93-123 | and the other way round |
| Netinfo.ProplistMatch | src/libDHCPServer/netinfo.c:159-185 | the nested loops find the match |
| Netinfo.MatchIsTheMatch | src/libDHCPServer/netinfo.c:159-185 | the match is the first property of the name, and only if the value asked for is among its values; there is just one such answer |
| Netinfo.InsertProp | src/libDHCPServer/netinfo.h:203-220 | a property with at most the one value goes in at the position |
| Netinfo.SetProp | src/libDHCPServer/netinfo.c:347-364 | the first property of the name is replaced in place, or one is appended, or nothing changes when the value is there; it says which |
| Netinfo.SetIsFound | src/libDHCPServer/netinfo.c:347-364 | what was set is found where the name is found, setting it again changes nothing, and every other name is found as before |
| Netinfo.SetIsExact | src/libDHCPServer/netinfo.c:347-364 | with or without a value, the first property of the name ends up with just that value, unless it had it among others, or a new last one does; nothing else changes |
| Netinfo.DeleteProp | src/libDHCPServer/netinfo.c:366-378 | the first property of the name is deleted if there is one |
| NICacheText.RoundTrip | src/libDHCPServer/NICache.c:306-423 | reading what was printed gives the same lists in the same order, each property with its first value, if and only if every list is non-empty and every property has a name of at most 127 characters without `=`, newline or leading white space, non-empty when there is no value, and a value of at most 767 characters without newline |
| NICacheText.ParseReadable | src/libDHCPServer/NICache.c:306-384 | whatever the text, every list read is non-empty and every name and value in it clean and within its buffer |
| NICacheText.PrintedCache | src/libDHCPServer/NICache.c:407-423 | of any cache with clean names and values, reading back loses exactly the properties printed as white space and the lists left without any |
| NICacheText.SecondTrip | src/libDHCPServer/NICache.c:306-423 | so printing and reading again whatever was read loses nothing else |
| NICacheText.PrintedLine | src/libDHCPServer/NICache.c:249-283 | a text up to its first newline is one line |
| NICacheText.PrintedValued | src/libDHCPServer/NICache.c:344-367 | a printed property with a value parses to its name and first value |
| NICacheText.PrintedBare | src/libDHCPServer/NICache.c:368-381 | and one without to its name |
| NICacheText.PrintedFormat | src/libDHCPServer/NICache.c:407-423 | the text of a list, letter by letter: only the first value is written |
| NICacheText.StrayBraces | src/libDHCPServer/NICache.c:314-342 | a brace where none belongs ends the reading there and then, with what was read |
| NICacheFile.MyFgets | src/libDHCPServer/NICache.c:249-283 | the next line up to a newline, '\0' or the end, cut to 1023 characters, with the whole of it consumed |
| NICacheFile.Read | src/libDHCPServer/NICache.c:285-391 | the reader's loop appends to the cache exactly the lists its text parses to |
| NICacheFile.TakeLine | src/libDHCPServer/NICache.c:314-383 | one pass of that loop is one step of the parse, errors included |
| NICacheFile.TakeProp | src/libDHCPServer/NICache.c:344-381 | the property on a line goes to the end of the list being collected |
| NICacheFile.AppendCopy | src/libDHCPServer/NICache.c:328-331 | a new last entry with a copy of the list |
| NICacheFile.Write | src/libDHCPServer/NICache.c:407-423 | the walk along the linked list prints exactly the cache's lists |
| NICacheFile.WriteList | src/libDHCPServer/NICache.c:410-422 | and the loop over a list prints its properties |
| NICacheFile.WriteThenRead | src/libDHCPServer/NICache.c:285-426 | a cache of strings without NUL, written and read into a new one, is the same lists in the same order, each property with its first value, if and only if every list and property meets the condition of `RoundTrip` |
| PLCaches.PLCache.constructor | src/libDHCPServer/NICache.c:138-144 | an empty list with the default limit |
| PLCaches.PLCache.Add | src/libDHCPServer/NICache.c:205-222 | both chains of pointers run through the entry and then the old entries, which keep their order |
| PLCaches.PLCache.Append | src/libDHCPServer/NICache.c:224-241 | the same with the entry last |
| PLCaches.PLCache.Remove | src/libDHCPServer/NICache.c:429-448 | just that entry is unlinked, wherever it was, and its own pointers are cleared |
| PLCaches.PLCache.MakeHead | src/libDHCPServer/NICache.c:450-458 | just that entry moves to the front |
| PLCaches.PLCache.SetMax | src/libDHCPServer/NICache.c:152-186 | the first max(m, 10) entries stay, in order and still linked both ways |
| PLCaches.PLCache.Free | src/libDHCPServer/NICache.c:188-203 | the walk frees every entry and clears even the limit |
| PLCaches.PLCache.LookupProp | src/libDHCPServer/NICache.c:460-477 | the first entry with the property and value, moved to the front if asked, and no earlier entry has it |
| PLCaches.PLCache.LookupIp | src/libDHCPServer/NICache.c:593-618 | the first entry with the address among those of its first "ip_address" property, moved to the front |
| PLCaches.PLCache.LookupBinding | src/libDHCPServer/NICache.c:479-590 | lookup by hardware address or identifier: the first entry with an accepted address, moved to the front, the first such address in it, and whether any binding was seen |
| PLCaches.PLCache.LookupUnbound | src/libDHCPServer/NICache.c:532-590 | lookup by identifier for a caller that wants no address: the first entry whose first identifier is the one wanted, or that has an accepted address, moved to the front, and whether any binding was seen |
| PLCaches.UnboundIn | src/libDHCPServer/NICache.c:559-586 | the scan of one entry decides that, the test of the first identifier coming before any address is looked at |
| PLCaches.BindingIn | src/libDHCPServer/NICache.c:507-526 | within one entry the n-th identifier goes with address n modulo their number; the first accepted one is returned |
| PLCaches.DealtInTurn | src/libDHCPServer/NICache.c:507-526 | with enough addresses each identifier has its own; after the last they are dealt out again; with none, no identifier has one |
| PLCaches.AddressIn | src/libDHCPServer/NICache.c:598-615 | whether an entry has the address |
| PLCaches.LinkedAround | src/libDHCPServer/NICache.c:435-438 | a list whose k-th entry's neighbours point past it is the list without it, linked both ways |
| PLCaches.MovedKeepsAll | src/libDHCPServer/NICache.c:450-458 | moving to the front loses and repeats nothing and keeps the others in order |
| PLCacheRuns.UsesLatestFirst | src/libDHCPServer/NICache.c:205-222 | however entries are added and moved to the front, the list is strictly in order of last use, latest first, with the entries never used last in their old order |
| PLCacheRuns.Perform | src/libDHCPServer/NICache.c:205-222 | an add, a lookup by property or a lookup by address puts just the entry it adds, or the first entry it hits, at the front |
| PLCacheRuns.PerformAll | src/libDHCPServer/NICache.c:450-477 | any sequence of such calls leaves the list that using those entries in turn makes of it |
| PLCacheRuns.LimitAfter | src/libDHCPServer/NICache.c:152-186 | so after any such sequence a limit of m keeps exactly the max(m, 10) entries used last |

## Left out

- SplitRefcountTheorems.CountConserved: the table is an unbounded counter; `SideTableRuns.SmallIsReached` says when the stored word does the same, and `CountLessDropped` what holds when it does not.
- SplitRefcountTheorems.TableInHalves: likewise.
- SideTableRuns.CountLessDropped: `sidetable_moveExtraRC_nolock`, which only the change to a raw isa calls.
- SplitRefcountTheorems.TryKeepsLockIff: one direction needs a second, idle thread, because alone a weak load cannot lose its store to a change.
- Atomic accesses are sequentially consistent steps; acquire, release and fences are not modelled.
- Raw-pointer isas, `changeIsa`, tagged receivers, custom retain/release dispatch, Swift hooks, the call of dealloc itself, and autorelease.
- DenseMaps.DenseMap.constructor: reserves of at most 2^29 entries, tables of at most 2^30 buckets, and insertions into maps of fewer than 0x18000000 entries; this keeps every 32-bit size below wrapping, so the wrap beyond is not modelled. The number of calls is not bounded.
- DenseMaps.DenseMap.Erase: the iterator form, and destructors; a destroyed value's slot may hold anything.
- `SmallDenseMap`, copy and move construction, alternate-key lookup, and memory sizes.
- InlineRefcount.DisciplinedRuns: callers must not hold so many references that the counter would wrap; the misbehaving-caller theorems do include wrapping. Dealloc on the main queue is whatever other threads do after the release returned.
- HookChain.ChainAtEveryState: null hooks and threads that call `set` more than once with one variable.
- LockOrder.NeverStuck: locks of one stripe map only; recursion, lock debugging and lock orders across maps are out. A scheduler may still pick blocked threads for ever; fairness is not modelled.
- TaggedPointers.DecodeEncode: the split layout only; the other two layouts do not permute tags. Tag 7, which the code's own assertion excludes, is not made.
- Netinfo.NiList.Delete: positions and lengths are unbounded, where the code keeps them in `int` and `unsigned`; `NI_INDEX_NULL` is the absent position, above every length.
- Netinfo.NiList.Dup: a property's own list of values is a value, so only the outer array's sharing is captured.
- NICacheFile.Read: the file is its text; opening, renaming, messages, the temporary name and allocation failure are left out, and an entry's property list never changes after its creation.
- PLCaches.PLCache.LookupBinding: `ether_aton`, `inet_aton` and the caller's filter are parameters; `LookupUnbound` is the case of a null `client_ip`, where `inet_aton` has nothing to fill in.
- PLCaches.PLCache.Remove: entries that are not in the list, which the code does not check for, are excluded.
- Runtime metadata (objc-runtime-new.h), the weak table, method caches, the older hash and map tables (maptable.mm), DHCP option handling and the stub libraries.
