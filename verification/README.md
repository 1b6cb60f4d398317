# Verified models of libeio and its neighbours

This project models the parts of the repository whose correctness is not plain
from reading one function, and proves what they promise.

* **Directory listing** (`libeio/eio.c`): `eio__scandir` sorts what it reads
  with a radix pass on the key bits that differ, driven by an explicit stack,
  followed by an insertion sort whose inner loop has no bounds test.
  `Dirents`, `RadixSpec`, `RadixSort`, `DirentSort` and `Scandir` keep the
  arrays, the stack and the loops, and prove that the result is the sorted
  permutation, that neither the stack nor the unguarded loop leaves its array,
  and that the insertion pass does linear work, namely exactly the disorder that
  it finds. `Bits` holds the binary digits
  that all of this rests on.
* **Pathname resolution** (`eio__realpath`): `PathSpec` defines the component
  walk with all the limits of the code, an ideal resolver without length limits,
  and what links the two; `RealPath` is the routine itself, in place in one
  buffer of three regions; `PathDirectories` compares it with the resolution of
  section 4.13 of IEEE Std 1003.1-2017, which asks that components which are
  followed by others be directories; `PathText` says what paths mean as text.
* **The thread pool** (`libeio/etp.c`): `PriorityFifo`, `Requests` and
  `RequestQueue` are the priority queue on the heap and its meaning, and
  `QueueOrder` what its users see over whole runs. `Pool` is
  the pool as a state machine with one step for each critical section and each
  unlocked read of a counter, one client and any number of workers.
  `PoolEffects` says what one step changes; `PoolConservation` and `PoolRuns`
  prove what every step and every run keeps, and `PoolDelivery` which item comes
  next and that everything submitted is executed and delivered.
* **Request groups** (`eio.c`, `etp.c`): `Groups` is completion as a state
  machine with the client's call stack, groups nested in any way and application
  code in every callback; `GroupRuns` holds its invariants, `GroupFeeding` one
  call of the feeder loop over a whole run, `GroupProgress` that completion
  ends and finishes everything, `GroupMisuse` what goes wrong when a finished group is added to.
  `GroupList` is the member list and cancellation on the heap.
* **The ring buffer** (`data_structure/queue.c`, `queue.h`): `PowerOfTwo`,
  `RingIndex`, `RingBuffer` for one thread, and `RingShared` for one reader and
  one writer that interleave.
* **Timers** (`pubsub/ae.c`): `Timers` is the arithmetic of times, `TimerPass` the
  walk that restarts from the head of the list after every callback, turn by
  turn, `TimerResults` what it leaves of each timer, and `EventLoop` the linked
  list that it works on.
* **Linked lists** (`data_structure/alist/adlist.c`, `data_structure/list.h`):
  `AdList` and `CircularList`.

`Basics` holds what several of these share. Conventions. C integers are
mathematical integers except where the code relies on their width: the `signed
char` of a comparison and of a priority index, the unsigned counters of the
pool, the feed limit of a group where it is compared with a `size_t`, the ring
indices and the argument of `fls` wrap or convert explicitly.
Structure offsets are those of x86-64 Linux. System calls are parameters: a file
system is a fixed function from a path to a link text, "not a link" or an error;
the clock of a timer pass stands still; a callback is a function from a timer to
what it asks for. Methods carry ghost parameters that name the abstract list or
path which the pointers stand for.

Where the code differs from its comments or from what a caller expects, the
code is modelled as it is and a member says so:

* `eio_dent_radix_sort` needs at least one key bit when it has more than 60
  entries; otherwise its first step down reads index -1 of the selector table.
  `Scandir.StaysInTableIsExact` gives the exact condition, and
  `Scandir.SixtyOneFilesLeaveTable` a directory in stat order that breaks it.
* A stored working directory "/" is copied without a terminator, so a stale
  byte behind it decides whether the result starts with one slash or two:
  `RealPath.StaleStartDoublesSlash`. `RealPath.CanonicalIffProperStart` says from
  which starts relative paths always resolve to canonical ones.
* `eio__realpath` asks only `readlink`, so it lets a slash, "." or ".." follow a
  component that is not a directory: `PathDirectories.FilePassesForDirectory`.
  `PathDirectories.WalkIsStandardIff` says exactly when it agrees with the
  standard all the same.
* `etp_submit` computes the priority index in a `signed char`: priorities from
  124 up wrap and become the least urgent (`RequestQueue.PriorityIndexClamps`).
* `fls` takes an `int`, so `queue_alloc` does not come back for size 0 or above
  2^31 (`PowerOfTwo.AllocEndsIff`).
* `nready` drifts by one for each quit request, since `etp_end_thread` does not
  count it and the worker discounts it (`PoolConservation.ReadyIsExactWithoutQuits`).
* A pass over the timers does not end if some timer that is due returns a negative
  delay other than `AE_NOMORE`, and only then: `TimerPass.PassEndsIff`.
* A negative delay can leave a time with negative milliseconds. The comparison of
  seconds and milliseconds goes wrong just for fewer than -1 of them
  (`Timers.DueMeansPast`, `Timers.ArmedIsDueWhenPast`), and then only at readings
  before the one that armed the timer, that is after the clock was set back
  unnoticed (`Timers.ArmedIsDueOnTime`, `Timers.SetBackClockDelays`).
* `grp_try_feed` compares an unsigned member count with the limit, so a negative
  limit of `eio_grp_feed` or `eio_grp_limit` is converted to 2^64 less its amount
  and bounds nothing in practice. `GroupFeeding.LimitIsHonouredIff` says when the
  limit bounds the rounds as it was given, `GroupFeeding.NegativeLimitFeeds` shows
  the limit -1 on an empty group, and by `GroupFeeding.BoundIsReached` the call
  goes on for as long as the feeder adds something.
* The assertion of `eio_grp_add` at line 2288 guards against adding to a
  finished group by looking for `int1 == 2`, a value that nothing sets.
  `GroupMisuse.AddKeepsInvariantIff` says that such additions, and no others,
  break what the group code relies on; `GroupMisuse.MemberOfDestroyedGroup` shows
  a run in which a destroyed group still has a member.

## Model

| member | source | states |
|---|---|---|
| Dirents.DentCmpIsKeyOrder | libeio/eio.c:1138-1145 | the comparison is the order of one number, score above inode, in all three outcomes, for every score 0..7 |
| Dirents.KeyOrder | libeio/eio.c:1138-1145 | that order is by score, and by inode for equal scores |
| Dirents.SelectorReadsKey | libeio/eio.c:1215-1228 | testing byte `O` of the structure with mask `M` reads the binary digit of the key that the selector stands for |
| Dirents.KeyBitsShape | libeio/eio.c:1155-1194 | the selector table starts with the sentinel 0, is strictly increasing in digit position, and fits its array |
| Dirents.KeyBitsComplete | libeio/eio.c:1180-1193 | a digit of the key is selected exactly when it is set in `inode_bits` or in `score_bits` |
| Dirents.UnselectedDigitsAgree | libeio/eio.c:1168-1169 | on digits that are not selected, all keys of the array agree |
| Dirents.KeyBitExists | libeio/eio.c:1186-1193 | the table has a selector besides the sentinel if and only if some mask bit is set |
| RadixSpec.PartitionFrame | libeio/eio.c:1227-1235 | partitioning touches only its segment, and the split point lies in it |
| RadixSpec.PartitionPermutes | libeio/eio.c:1227-1235 | partitioning permutes |
| RadixSpec.PartitionSplits | libeio/eio.c:1227-1235 | below the split point the tested bit is clear everywhere, from it on it is set everywhere |
| RadixSpec.RadixFrame | libeio/eio.c:1196-1250 | recursive radix partitioning leaves everything outside its segment alone |
| RadixSpec.RadixPermutes | libeio/eio.c:1196-1250 | recursive radix partitioning permutes |
| RadixSpec.SkipUnselected | libeio/eio.c:1169-1189 | skipping the digits between two selectors loses nothing: keys that agree above agree there too |
| RadixSpec.RadixPieces | libeio/eio.c:1196-1250 | the radix pass leaves consecutive pieces, each shorter than the cutoff or all of one key, with keys strictly increasing from piece to piece |
| RadixSort.BuildKeyBits | libeio/eio.c:1155-1194 | the loop over bytes and bits writes exactly the specified table and stays inside the array |
| RadixSort.PartitionInPlace | libeio/eio.c:1218-1235 | the two-ended loop on the array ends and does what partitioning specifies |
| RadixSort.Descend | libeio/eio.c:1213-1247 | one way down pushes at most one segment per key bit left; what is on the stack, finished recursively, is the whole radix pass |
| RadixSort.RunStack | libeio/eio.c:1197-1250 | the explicit-stack loop terminates, never overruns its stack, and equals recursive radix partitioning |
| RadixSort.RadixSort | libeio/eio.c:1152-1251 | up to 60 entries nothing happens; above, the array becomes the radix partitioning of what it was |
| DirentSort.Insert | libeio/eio.c:1276-1284 | one insertion without bounds test stays at or above index 0 because slot 0 is no larger; it sorts one more element, shifts exactly the earlier ones with a greater key, and none of a smaller piece |
| DirentSort.MoveMinToFront | libeio/eio.c:1256-1270 | slot 0 changes places with the last minimum of the searched slots, unless it holds a minimum itself |
| DirentSort.MinimumIsEarly | libeio/eio.c:1261 | after the radix pass a minimum of the whole array is in the first 31 slots |
| DirentSort.SwapKeepsPieces | libeio/eio.c:1261-1270 | moving that minimum to the front keeps the pieces |
| DirentSort.NextPiece | libeio/eio.c:1276-1284 | everything before the piece of the next element is smaller than it; a piece too long for the shift bound has equal keys |
| DirentSort.InsertAll | libeio/eio.c:1272-1285 | the loop keeps: permutation, sorted prefix, pieces still in place, shifts bounded; carrying out the shifts it reports on the array it started from gives the array it leaves, and each is the number of earlier entries with a greater key |
| DirentSort.MovesAreInversions | libeio/eio.c:1276-1284 | the shifts of the whole pass together are the pairs of entries in the wrong order |
| DirentSort.ShortIsLinear | libeio/eio.c:1276-1284 | so on large arrays the pass makes at most 28 shifts for each element in total |
| DirentSort.InsertionSort | libeio/eio.c:1253-1286 | sorts and permutes; the reported shifts lead from the array after the minimum swap to the result, and with more than 60 entries cut into pieces none is above 28 |
| DirentSort.RadixPassCuts | libeio/eio.c:1294-1296 | on inputs that meet the masks, the radix pass gives the insertion pass its pieces |
| DirentSort.DentSort | libeio/eio.c:1288-1301 | for all inputs that meet the masks: sorted by the comparison, a permutation, nothing outside touched, and above 60 entries each element moves down at most 28 slots in the second pass, by moves that lead from what the radix pass left to the result |
| Scandir.ScanDescribes | libeio/eio.c:1466-1575 | each entry but "." and ".." is recorded once, in order, with its inode, its score, the offset of its terminated name, and the type that `readdir` gave when that is a known one, else 0 |
| Scandir.KeptAt | libeio/eio.c:1469-1470 | every other entry stands behind those recorded of the ones before it |
| Scandir.KeptFrom | libeio/eio.c:1469-1470 | and what is recorded comes from such an entry |
| Scandir.ScoreRanksNames | libeio/eio.c:1559-1570 | names of unknown type rank leading dots first, then names without a dot by length, then the rest |
| Scandir.ScoreTable | libeio/eio.c:1554-1570 | the scores of all types and names |
| Scandir.ScanScores | libeio/eio.c:1506-1570 | scores are 0..7; 0 means a known directory when directories go first; an unknown type sets the flag and only that does |
| Scandir.ScanInodes | libeio/eio.c:1504 | `inode_bits` has exactly the bits that some inode has |
| Scandir.ScanIsCovered | libeio/eio.c:1434-1460 | whatever selection of the entries is sorted, it meets the masks that `eio__scandir` passes |
| Scandir.ReadErrorSpec | libeio/eio.c:1414-1428 | reading ends with ECANCELED when the request is found cancelled after some entry, else with the error of `readdir`, if any |
| Scandir.Collect | libeio/eio.c:1407-1580 | the reading loop, with its growing table or without one, with errors and cancellation, collects exactly the specified scan of the entries it got to |
| Scandir.PartitionDirs | libeio/eio.c:1441-1457 | the two-ended loop puts all directories in front of all others and permutes |
| Scandir.DirsAreCovered | libeio/eio.c:1459-1460 | after that partition the front part meets the masks of its sort and holds all directories |
| Scandir.Arrange | libeio/eio.c:1430-1461 | in each of the three branches the result is a permutation in the order the flags ask for |
| Scandir.ScanIsDelivered | libeio/eio.c:1430-1461 | in the array each entry is in one place, with its name, inode and type; and either all are ordered by score and inode, or what `readdir` calls directories stands in front by inode when it knows all types, or the order is that of `readdir` |
| Scandir.Scandir | libeio/eio.c:1304-1590 | names, entries, result, errno, result flags and order, for every directory, read error, cancellation and flag combination, unless the sort leaves its table |
| Scandir.StaysInTableIsExact | libeio/eio.c:1238 | a condition on size, mask and inodes that a caller can check fails if and only if the selector table is the lone sentinel where the sort steps down from it, to index -1 |
| Scandir.ZeroInodesLeaveTable | libeio/eio.c:1434-1460 | on a file system without inode numbers it holds if and only if at most 60 entries are sorted or their scores count |
| Scandir.SixtyOneFilesLeaveTable | libeio/eio.c:1434-1435 | 61 files with different names and no inode numbers break it in stat order |
| PathSpec.WalkIsResolve | libeio/eio.c:1050-1128 | the walk gives the ideal resolver's answer when every name and every spliced path on the way fits, and ENAMETOOLONG when one does not |
| PathSpec.BudgetOnlyBoundsLoops | libeio/eio.c:971-975 | the symlink budget changes no answer except to ELOOP |
| PathSpec.ComponentsJoin | libeio/eio.c:1121-1124 | a link text, a slash and the unread path have the components of the text followed by those of the path |
| PathSpec.WalkKeepsCanonical | libeio/eio.c:1050-1134 | from a directory of proper components every success has proper components, whatever links there are |
| PathSpec.WalkEndsCanonical | libeio/eio.c:1050-1134 | every success is a chain of non-empty components without "." and "..", no prefix of which is a link, and it fits |
| PathSpec.WalkResolved | libeio/eio.c:1050-1134 | walking down a canonical link-free path from any point on it reproduces it |
| PathSpec.ResolutionIsIdempotent | libeio/eio.c:965-1136 | resolving a successful result of an absolute path gives that result again, with any budget |
| PathText.RelativeIsAbsolute | libeio/eio.c:1026-1048 | from a resolved current or stored directory a relative path gives the result or error of the directory's text, a slash and the path; an invalid directory gives ENOENT and a failing `getcwd` its own error |
| PathText.DotIsNothing | libeio/eio.c:1066-1069 | a component "." may be left out of a path |
| PathText.DotDotGoesBack | libeio/eio.c:1071-1080 | so may a name that is there and no link together with "..", and ".." at the root |
| PathText.LinkIsItsText | libeio/eio.c:1107-1127 | a link may be replaced by its text, behind its own directory or from the root, at the cost of one of the links that may be followed and with the length checked first |
| PathText.MissingNameEnds | libeio/eio.c:1083-1101 | a name without room or one that `readlink` fails on ends the resolution with that error |
| PathText.ThirtyOneLinks | libeio/eio.c:971-975 | along a chain of links 31 are followed and no more |
| PathText.LongestName | libeio/eio.c:1083-1085 | a name in the root resolves up to 4093 letters |
| RealPath.ScanComponent | libeio/eio.c:1055-1058 | the scan stops at the end of the component, whether the unread path is the caller's or in the third region |
| RealPath.BackUp | libeio/eio.c:1073-1079 | scanning back to a slash drops exactly the last component and stops at the root |
| RealPath.AppendComponent | libeio/eio.c:1083-1092 | slash, component and terminator stay in the first region and leave the rest of the buffer alone |
| RealPath.ReadLink | libeio/eio.c:1095 | the answer, cut to the region, arrives in the second region only |
| RealPath.SpliceLink | libeio/eio.c:1121-1126 | the third region holds text, slash and unread path, terminated, even when the unread path lay in that region |
| RealPath.Follow | libeio/eio.c:1105-1127 | following a link: length error before loop error, budget down by one, restart at the root for an absolute text |
| RealPath.Enter | libeio/eio.c:1083-1127 | one turn of the loop on a real component is one step of the walk and brings (budget, length) down |
| RealPath.Loop | libeio/eio.c:1050-1134 | the loop terminates by (budget, unread length), stays in the three regions, and returns the walk's path or error |
| RealPath.CopyWorkDir | libeio/eio.c:1028-1048 | where a relative path starts, for every kind of working directory |
| RealPath.RealPath | libeio/eio.c:964-1136 | length, bytes and errno are those of the specified resolution, for every path, every file system, and every working directory that starts with a slash and fits |
| RealPath.CanonicalIffProperStart | libeio/eio.c:1028-1134 | for given directories, every relative path resolves to a canonical path on every file system if and only if a stored root has no stale byte behind it and other directories are canonical |
| RealPath.StaleStartDoublesSlash | libeio/eio.c:1043-1047 | with such a byte, "x" resolves to "//x" |
| RealPath.ResolutionIsCanonical | libeio/eio.c:964-1136 | apart from that start every success is canonical and link-free; for an absolute path it is a fixed point of resolution |
| PathDirectories.NoMisstep | libeio/eio.c:1094-1104 | when no component that is not a directory is followed by nothing but slashes and dots, or by "..", resolution is that of section 4.13 |
| PathDirectories.MisstepIsRefused | libeio/eio.c:1094-1104 | after such a step the standard demands ENOTDIR |
| PathDirectories.MisstepPasses | libeio/eio.c:1060-1104 | after such a step the code succeeds at the end of the path, or goes on behind ".." as if the component had been a directory |
| PathDirectories.WalkIsStandardIff | libeio/eio.c:1050-1134 | with fitting lengths the code agrees with the standard if there is no such step, never if only dots or a slash are behind it, and after one by ".." if and only if what is behind that leads to ENOTDIR |
| PathDirectories.FilePassesForDirectory | libeio/eio.c:1060-1081 | "/f/.", "/f/" and "/f/.." resolve although "/f" is a regular file |
| PathDirectories.OneFileIsConsistent | libeio/eio.c:1095 | that file system is one on which `readlink` finds nothing below the file |
| RequestQueue.PriorityIndexClamps | libeio/etp.c:561-564 | the index is the clamped priority if and only if the priority is below 124 |
| RequestQueue.ReqQueue.constructor | libeio/etp.c:224-233 | all queues empty |
| RequestQueue.ReqQueue.Push | libeio/etp.c:235-250 | appends to the sequence of its priority, leaves the others, returns the old size |
| RequestQueue.ReqQueue.TakeFirst | libeio/etp.c:264-272 | unlinks the oldest of the highest non-empty priority |
| RequestQueue.ReqQueue.Shift | libeio/etp.c:252-276 | null exactly when empty, else the oldest request of the highest non-empty priority; the abort is never reached |
| QueueOrder.FirstInFirstOut | libeio/etp.c:235-276 | over any run of pushes and shifts, the requests of one priority come out in the order in which they went in |
| QueueOrder.MostUrgentFirst | libeio/etp.c:252-276 | a shift gives nothing exactly when all have come out, else the oldest left of the most urgent priority that has one left |
| PoolDelivery.WorkerTakesFirst | libeio/etp.c:347-350 | a worker holds the first item of the most urgent priority and the queue loses just that |
| PoolDelivery.QuitsOvertake | libeio/etp.c:451-462 | while a message to quit is queued, only items of the highest priority are taken |
| PoolDelivery.SubmissionGoesLast | libeio/etp.c:557-590 | a submitted request becomes the last of its own priority, a message to quit of the highest |
| PoolDelivery.ResultGoesLast | libeio/etp.c:386-393 | an executed request, or a submitted group, becomes the last of its priority among the results |
| PoolDelivery.PollTakesFirst | libeio/etp.c:489-498 | a poll takes the first result of the most urgent priority |
| PoolDelivery.IdleThreadsWait | libeio/etp.c:361-373 | a worker without work waits, with a timeout exactly if more than max_idle are idle |
| PoolDelivery.TimedOutThreadLeaves | libeio/etp.c:352-359 | after its timeout it leaves, no longer counted as started |
| PoolDelivery.PollDelivers | libeio/etp.c:464-533 | one poll can deliver all results there are, each once |
| PoolDelivery.EveryRequestIsDelivered | libeio/etp.c:339-594 | from outside a call, workers and one poll can bring every request submitted to be finished or delayed, exactly once |
| PoolConservation.StepMoves | libeio/etp.c:339-405 | every step of every thread moves items between places and neither loses nor invents one |
| PoolConservation.ConservedKept | libeio/etp.c:326-594 | every issued request is in exactly one place: queued, held by a worker, in the result queue, in the client's hand, delayed or finished |
| PoolConservation.RequestCountKept | libeio/etp.c:507-509 | `nreqs` is the sum over the undelivered places, modulo the word |
| PoolConservation.PendingCountKept | libeio/etp.c:388-397 | `npending` is the size of the result queue, modulo the word |
| PoolConservation.ReadyCountKept | libeio/etp.c:379 | `nready` plus all quit requests ever pushed is the size of the request queue, modulo the word |
| PoolConservation.CountersKept | libeio/etp.c:379-594 | every step keeps all three counter laws |
| PoolConservation.ReadyIsExactWithoutQuits | libeio/etp.c:451-462 | `nready` is the queue length if and only if no quit was ever pushed |
| PoolConservation.ThreadsKept | libeio/etp.c:352-376 | `idle` counts the workers in a wait; `started` counts threads up to ends announced and quits obeyed |
| PoolConservation.EventsKept | libeio/etp.c:392-393 | want_poll and done_poll alternate, want_poll first, and one is outstanding exactly when results are queued |
| PoolConservation.PipeHoldsOneByte | libeio/demo.c:18-39 | so the demo's pipe holds one byte when there are results and none otherwise |
| PoolConservation.NoLostWakeupKept | libeio/etp.c:345-377 | while some worker waits unsignalled, the queue is no longer than the number of woken workers yet to look |
| PoolRuns.InitInvariant | libeio/etp.c:278-307 | the initial state has all of these properties |
| PoolRuns.InvariantKept | libeio/etp.c:326-594 | every step of client or worker keeps them together |
| PoolRuns.EveryRunKeepsInvariant | libeio/etp.c:326-594 | they hold in every state of every run |
| PoolRuns.CheckIsRight | libeio/etp.c:441-446 | the unlocked counter test sends the client away only when there are as many threads as busy requests |
| PoolRuns.EnoughThreadsKept | libeio/etp.c:437-449 | `started`, with the thread about to start, stays at least min(wanted, queued + executing) |
| PoolRuns.EveryRunIsSized | libeio/etp.c:410-449 | this holds over every run without ended threads in which no check leaves the range of `int`, however many requests are outstanding |
| PoolRuns.FewRequestsFit | libeio/etp.c:445 | checks stay in that range as long as outstanding requests and wanted threads together do |
| PoolRuns.EnoughThreadsOutsideCalls | libeio/etp.c:297-299 | from `etp_init` with max_idle >= wanted, whenever the client is outside a call, started >= min(wanted, queued + executing) |
| PoolRuns.WorkerCanAdvance | libeio/etp.c:345-377 | with a worker and a busy request, some worker step that takes or completes a request is enabled |
| PoolRuns.NoRequestStuck | libeio/etp.c:345-449 | outside calls a busy request always leaves such a step enabled, and the step brings the remaining work down |
| PoolRuns.WorkersFinish | libeio/etp.c:339-405 | from every state that such runs reach with a worker, some run of worker steps alone, no longer than the remaining work, leaves nothing queued or held: what was busy is in the result queue |
| PoolRuns.EveryRequestIsExecuted | libeio/etp.c:339-449 | so whenever the client is outside a call, all that it has submitted can be executed without it |
| PoolRuns.OnlySubmissionsAdd | libeio/etp.c:345-594 | no step but a submission adds to that work |
| GroupRuns.CountsKept | libeio/eio.c:413-458 | `size` is the number of members in the list, through adds and completions in any nesting |
| GroupRuns.LivesKept | libeio/eio.c:437-463 | finished at most once, only after being polled, and never while linked members remain |
| GroupRuns.StackedKept | libeio/eio.c:395-463 | the recursion `eio_finish`, `grp_dec`, `grp_try_feed` goes up through distinct unfinished groups and never touches a destroyed request |
| GroupRuns.FinishingForgetsNone | libeio/eio.c:421-425 | a delayed group that has run empty is either looked at by a call in progress or finished |
| GroupRuns.NoneLeftKept | libeio/eio.c:460 | a request that has finished is destroyed, or its call is still on the stack |
| GroupRuns.InvariantKept | libeio/eio.c:395-463 | every step of the library or the application keeps all of this |
| GroupRuns.EveryRunKeepsInvariant | libeio/eio.c:395-463 | so does every run |
| GroupRuns.FinishedOnceAfterMembers | libeio/etp.c:511-521 | in every run a group's finish runs at most once, after it was polled, and after every member ever added has finished and left |
| GroupRuns.WaitingGroupHasMember | libeio/etp.c:511-515 | between polls a polled, unfinished group still has a linked member |
| GroupRuns.UnfinishedWaitsForUnpolled | libeio/eio.c:413-426 | between polls, below every unfinished request there is one that is yet to be polled |
| GroupRuns.FeedRound | libeio/eio.c:395-411 | each round brings the size closer to the limit as converted to `size_t`; feeding ends exactly at that, when cancelled, or after a round that added nothing, with the feeder cleared |
| GroupFeeding.FeedStep | libeio/eio.c:395-411 | whatever the application does in its feeder, a step opens a round at the expense of those left, or ends the call for one of the three reasons |
| GroupFeeding.FeedingEnds | libeio/eio.c:395-411 | over any run that leaves the limit alone, one call of the feeder loop opens at most as many rounds as the converted limit leaves room for members, and returns only at that limit, when cancelled, or with the feeder cleared |
| GroupFeeding.LimitIsTested | libeio/eio.c:2267-2283 | `eio_grp_limit` and `eio_grp_feed` with a limit n >= 0 start a round if and only if size < n and the group is not cancelled, and then run the feeder if there is one |
| GroupFeeding.LimitIsObeyed | libeio/eio.c:2267-2283 | over any run from there that leaves the limit alone the call makes at most n - size rounds, and returns only with size >= n, cancelled, or without feeder |
| GroupFeeding.NoFeederNoCall | libeio/eio.c:400-410 | without a feeder no application code runs and the call returns |
| GroupFeeding.NewGroupIsNotFed | libeio/eio.c:2254-2259 | a new group is open, empty and has no feeder |
| GroupFeeding.CancelMarks | libeio/etp.c:542-555 | cancelling marks what it is told to and changes nothing else |
| GroupFeeding.CancellingEndsFeeding | libeio/eio.c:398 | after a group has been cancelled no test starts a round, whatever happens |
| GroupFeeding.BoundIsReached | libeio/eio.c:395-411 | every number of rounds up to that bound is that of some run |
| GroupFeeding.LimitIsHonouredIff | libeio/eio.c:398 | the bound and the return hold for the limit as it was given if and only if it is not negative, or the first test fails: the group is cancelled, or has reached the converted limit |
| GroupFeeding.NegativeLimitFeeds | libeio/eio.c:2267-2283 | a run that feeds an empty group with the limit -1, where they do not hold |
| GroupProgress.LibraryStepsEnd | libeio/eio.c:395-463 | every step that is not the application's brings a well-founded measure down, so between two acts of the application completion terminates in any nesting |
| GroupProgress.DrainedFinishesAll | libeio/eio.c:437-463 | when no step is left and everything was submitted, every request of an acyclic nesting has been finished exactly once and destroyed |
| GroupProgress.EveryRequestIsFinished | libeio/eio.c:395-463 | from every reachable state of an acyclic nesting with everything submitted, any steps of the library can be continued to a state with none left, and there every request has been finished exactly once and destroyed |
| GroupProgress.NoEndlessRun | libeio/eio.c:395-463 | no infinite sequence of states is a run of the library alone |
| GroupMisuse.AddKeepsInvariantIff | libeio/eio.c:2285-2302 | adding a free request keeps the group invariant if and only if the group has not finished |
| GroupMisuse.InCallbackIsReached | libeio/eio.c:2288 | a run in which an empty group is in its finish callback with a free request at hand |
| GroupMisuse.MemberOfDestroyedGroup | libeio/eio.c:460 | if the group adds to itself there, it is destroyed with a member linked to it that has yet to run |
| GroupList.GroupAdd | libeio/eio.c:2285-2302 | the request becomes the first of the doubly linked member list, and `size` its length |
| GroupList.Unlink | libeio/eio.c:447-454 | unlinking at any position keeps both directions, the first pointer and `size` right |
| GroupList.Cancel | libeio/etp.c:542-548 | marks exactly the request and its transitive members besides those marked before, and terminates, whatever the `size` of any of them |
| GroupList.CancelMembers | libeio/etp.c:550-555 | the loop marks exactly what is below the members |
| GroupList.PathsAreBelow | libeio/etp.c:550-555 | whatever a chain of membership leads to counts as transitive member |
| GroupList.BelowHasPath | libeio/etp.c:550-555 | and every transitive member is reached by such a chain |
| PowerOfTwo.PowersOf2 | data_structure/queue.c:8-9 | the bit test recognises exactly the powers of two |
| PowerOfTwo.FlsEndsIffNotNegative | data_structure/queue.c:11-22 | the shifting loop of `fls` reaches 0 if and only if its `int` argument is not negative |
| PowerOfTwo.Fls | data_structure/queue.c:11-22 | the number of binary digits |
| PowerOfTwo.Fls64 | data_structure/queue.c:32-38 | the number of binary digits of a 64-bit value, from its halves |
| PowerOfTwo.RoundingUp | data_structure/queue.c:40-51 | shifting by the digits of size - 1 gives the least power of two that is large enough |
| PowerOfTwo.BufferSize | data_structure/queue.c:89-100 | for 1 <= size <= 2^31 the buffer is the least power of two >= size |
| PowerOfTwo.AllocEndsIff | data_structure/queue.c:89-100 | these are exactly the 32-bit sizes for which the computation ends |
| RingIndex.MaskIsSlot | data_structure/queue.c:146-147 | masking the wrapped index gives the slot of the true index |
| RingIndex.AmountsAreRight | data_structure/queue.c:143-174 | modulo 2^32 the index differences are the true amounts used and free |
| RingBuffer.Queue.constructor | data_structure/queue.c:89-113 | empty, with the least power of two that is large enough |
| RingBuffer.Queue.In | data_structure/queue.c:138-155 | appends as many bytes as fit and returns how many, also across the end of the buffer and past 2^32 |
| RingBuffer.Queue.Out | data_structure/queue.c:169-186 | takes as many of the oldest bytes as there are, in order, writes nothing else to the destination |
| RingBuffer.Queue.Reset | data_structure/queue.h:29-32 | empties |
| RingBuffer.Queue.OutAndReset | data_structure/queue.h:75-91 | the same as `Out` on the contents, across the reset of both indices |
| RingBuffer.Queue.Length | data_structure/queue.h:97-100 | the number of bytes in the queue |
| RingBuffer.Filled | data_structure/queue.c:145-150 | the two copies put the data behind the old contents and spare them |
| RingBuffer.Emptied | data_structure/queue.c:176-181 | the two copies read the oldest bytes in order |
| RingShared.CopiesDoNotOverlap | data_structure/queue.c:134-136 | whatever slots the writer and the reader are copying at one moment, they are different |
| RingShared.StartsTakeAll | data_structure/queue.c:143-174 | a write takes all bytes for which there is room as it looks, a read all that it wants and that are there |
| RingShared.InvariantKept | data_structure/queue.c:138-186 | every interleaved read, copy and publish step keeps the contents between the indices |
| RingShared.EveryRunKeepsInvariant | data_structure/queue.c:138-186 | so does every interleaving |
| RingShared.ReadsPrefixOfWrites | data_structure/queue.c:134-136 | in every interleaving of one reader and one writer, the bytes read are a prefix of the bytes written |
| Timers.LaterIsExact | pubsub/ae.c:148-162 | the stored time is now plus the delay exactly; its milliseconds are in range if and only if no borrow was needed |
| Timers.DueMeansPast | pubsub/ae.c:253-254 | due means strictly past at every reading if and only if the milliseconds are at least -1 |
| Timers.ArmedIsDueWhenPast | pubsub/ae.c:148-162 | carried back to arming: if and only if the reading's milliseconds plus the remainder of the delay are at least -1 |
| Timers.ArmedIsDueOnTime | pubsub/ae.c:148-162 | from the reading that armed it onwards a timer is due exactly when its delay is over, for every delay |
| Timers.SetBackClockDelays | pubsub/ae.c:231-254 | after the clock was set back a timer armed in the past can be late |
| Timers.RearmedIsDueIffNegative | pubsub/ae.c:261-262 | after re-arming, a timer is due at once if and only if its delay is negative |
| Timers.ForgottenAllFire | pubsub/ae.c:231-237 | after the clock went back every old timer fires, in list order, unless the clock is in its first second and some timer's milliseconds are still to come |
| Timers.DueIdsSpec | pubsub/ae.c:252-258 | the timers that fire are exactly those that were due |
| Timers.FiresOnce | pubsub/ae.c:243-272 | and no id fires twice |
| Timers.SurvivorsAreNotDue | pubsub/ae.c:261-262 | nothing that the pass leaves behind is due |
| TimerResults.PassSettles | pubsub/ae.c:241-274 | what a pass leaves, timer by timer: not due, unchanged; `AE_NOMORE`, gone; any other delay, there under its id and due exactly when the delay is over; each created timer there under the next free id and due when its own delay is over; no id twice and nothing else |
| EventLoop.Loop.constructor | pubsub/ae.c:231-242 | the loop starts without timers |
| EventLoop.Loop.Create | pubsub/ae.c:164-181 | a new timer with the next id in front of the list |
| EventLoop.Loop.Delete | pubsub/ae.c:183-206 | removes the first timer with that id, or reports that there is none |
| EventLoop.Loop.ForgetTimes | pubsub/ae.c:231-237 | all seconds become 0, nothing else changes |
| EventLoop.Loop.Rearm | pubsub/ae.c:261-262 | changes one timer's time |
| EventLoop.Loop.RunCallback | pubsub/ae.c:255-259 | timers that the callback creates come in front, the rest stays |
| EventLoop.Loop.Fire | pubsub/ae.c:253-265 | one due timer: created timers in front, itself re-armed in place or gone |
| EventLoop.Loop.TakeTurn | pubsub/ae.c:243-272 | one turn on the linked list is one turn of the walk |
| TimerPass.Position | pubsub/ae.c:247-272 | a walk that restarts from the head meets timers created in the pass, then survivors, then the next old timer |
| TimerPass.PassFires | pubsub/ae.c:253-268 | firing takes one old timer off what is left, so restarting from the head terminates |
| TimerPass.PassEnds | pubsub/ae.c:243-274 | a walk that gets to the end has dealt with every old timer |
| TimerPass.TurnOnItsWay | pubsub/ae.c:243-272 | each turn settles one more old timer or moves on in an unchanged list |
| TimerPass.WalkEnds | pubsub/ae.c:241-274 | when no timer that is due is restless the walk ends, having fired those that were due |
| TimerPass.StuckStays | pubsub/ae.c:261-268 | a restless timer that is due stays ahead of the walk, turn after turn |
| TimerPass.PassEndsIff | pubsub/ae.c:241-274 | while the clock stands the pass ends if and only if every timer that is due returns `AE_NOMORE` or a delay that is not negative |
| EventLoop.Loop.Pass | pubsub/ae.c:241-274 | under that condition: makes exactly the turns of the walk, fires each due old timer once in list order, leaves created timers in front of the survivors |
| EventLoop.Loop.Process | pubsub/ae.c:224-275 | the same with the clock check, and the count returned; the list left is settled in that sense |
| AdList.List.constructor | data_structure/alist/adlist.c:40-52 | the empty list |
| AdList.List.AddHead | data_structure/alist/adlist.c:79-97 | the value comes first, the rest stays, in both directions |
| AdList.List.AddTail | data_structure/alist/adlist.c:105-123 | the value comes last |
| AdList.List.LinkIn | data_structure/alist/adlist.c:143-151 | a node that knows its neighbours is made known to them |
| AdList.List.Insert | data_structure/alist/adlist.c:125-152 | the value comes right before or after the given node, at either end too |
| AdList.List.Delete | data_structure/alist/adlist.c:158-171 | exactly that node leaves |
| AdList.List.Rotate | data_structure/alist/adlist.c:327-340 | the last node becomes the first |
| AdList.List.Index | data_structure/alist/adlist.c:312-324 | counting from the head or, for a negative index, from the tail; null exactly outside |
| AdList.List.SearchKey | data_structure/alist/adlist.c:284-305 | the first node that the `match` function accepts, or without one that holds the key; null when there is none |
| AdList.Iter.Rewind | data_structure/alist/adlist.c:196-199 | starts at the first node |
| AdList.Iter.RewindTail | data_structure/alist/adlist.c:201-204 | starts at the last node |
| AdList.Iter.Next | data_structure/alist/adlist.c:220-231 | gives the node at its position and moves one on in its direction |
| AdList.Deleted | data_structure/alist/adlist.c:206-208 | deleting the node just returned leaves an iterator of either direction on the node it would have given next |
| AdList.FilterAt | data_structure/alist/adlist.c:206-231 | what is left by a walk that deletes: each value at a position to keep, behind those kept before it |
| AdList.FilterFrom | data_structure/alist/adlist.c:206-231 | and no other value |
| AdList.VisitAndDelete | data_structure/alist/adlist.c:206-231 | deleting the nodes at any positions as they are returned, the walk still visits every value once in order and leaves exactly the others |
| AdList.VisitBackAndDelete | data_structure/alist/adlist.c:201-231 | the same for a walk from the tail, in reverse order |
| AdList.Dup | data_structure/alist/adlist.c:241-273 | a fresh list of the values as the `dup` function gives them, or as they are without one; null exactly when some copy fails; the original is not touched |
| CircularList.AddBetween | data_structure/list.h:38-46 | a node linked between two neighbours gives the circle with that node at that place |
| CircularList.Add | data_structure/list.h:56-59 | right behind the head |
| CircularList.AddTail | data_structure/list.h:68-71 | right before the head |
| CircularList.Close | data_structure/list.h:80-84 | the neighbours of an entry close up around it; one that is alone stays as it is |
| CircularList.Delete | data_structure/list.h:91-96 | the circle without the entry, whose links are cleared |
| CircularList.DeleteInit | data_structure/list.h:102-106 | the circle without the entry, which is a circle of its own, as it was if it was alone |
| CircularList.Move | data_structure/list.h:113-117 | from one circle to right behind the head of another |
| CircularList.MoveToFront | data_structure/list.h:113-117 | the same within one circle |
| CircularList.MoveTail | data_structure/list.h:123-128 | from one circle to right before the head of another |
| CircularList.MoveToTail | data_structure/list.h:123-128 | the same within one circle |
| CircularList.IsEmpty | data_structure/list.h:134-137 | true exactly when the head is alone |
| CircularList.SpliceInit | data_structure/list.h:171-178 | all entries of the other list come behind the head in order, and the other list is empty |
| CircularList.SplicedAt | data_structure/list.h:171-178 | where every entry of both lists is after that |
| CircularList.KeptAt | data_structure/list.h:229-231 | every entry that is not deleted stays, behind those that stay of the ones before it |
| CircularList.KeptFrom | data_structure/list.h:229-231 | and no other |
| CircularList.VisitSafely | data_structure/list.h:229-231 | deleting any entries while walking, every entry is visited once in order and exactly the others stay linked |
| CircularList.FreeList | data_structure/list.h:298-301 | terminates with every node linked to itself |

## Left out

- The system calls of `eio_execute`, the request constructors, the sendfile, msync and mlock emulations and everything for Win32: I/O and foreign calls. A worker's execution is a step that takes any time and gives some result, which covers the cancelled short cut.
- Memory: allocation failure, freeing, and the finalizers and free callbacks of the lists and timers.
- Real threads: locks are atomic sections, a signal wakes one waiter if there is one, waiters may wake for no reason, and memory is sequentially consistent. Thread creation always succeeds and is one step with the counting of the thread; the worker list that `etp_worker_free` maintains is not part of the model.
- How many threads there are when `max_idle < wanted` or after `etp_end_thread`: only the counter laws are stated there, since a worker that times out drops the lock before it counts itself out.
- PoolRuns.EnoughThreadsOutsideCalls: speaks of the runs in which the arithmetic of `etp_maybe_start_thread` stays in the range of `int`; where it overflows, C leaves the result undefined.
- The limits `max_poll_reqs` and `max_poll_time`: `etp_poll` may return after any request it has finished. Their setters, and changes of the settings while running, are left out; the settings are arbitrary constants.
- Calling `eio_poll` again from inside a callback.
- GroupFeeding.FeedingEnds: leaves open how long the feeder itself runs, and what happens when the application moves the limit of the group meanwhile.
- Results of callbacks: `eio_finish` passes the first non-zero result on, and `etp_poll` returns it. In the model a poll may return after any finish.
- GroupList.Cancel: assumes that groups are not members of each other in a cycle, where the code would recurse without end.
- Big-endian machines, other structure layouts and inode types; the three parallel stack arrays of the radix sort are one array of records.
- Scandir.Scandir: opening the directory, growing of the name buffer, and table sizes beyond `int`.
- PathDirectories.WalkIsStandardIff: the file system answers `readlink` and the directory test consistently, and says nothing of permissions.
- RealPath.RealPath: the file system answers the same for the whole resolution; the disabled `/proc` variant is not part of the model.
- `RingBuffer` with the reset of `queue_out` beside a concurrent writer: the two would race on both indices, and the comment claims no more for it.
- RingShared.ReadsPrefixOfWrites: takes the other side's index as one read per call, although the `min` macro names it twice.
- Callbacks of timers that delete other timers, or that act differently when called again in one pass; the callbacks' own clock reads during one pass, since the clock is fixed; overflow of 64-bit timer ids.
- The file events of `pubsub/ae.c`, `aeSearchNearestTimer` and `aeProcessEvents`.
- AdList.Dup: the contents of the free callback; `listRelease` is not part of the model.
- `list_splice` without the reinitialisation, and iteration backwards over the circular list: the same proofs again.
- `libeio/ecb.h`, `script_library/visualise.py`, `data_structure/nc_array.c` and the I/O-bound samples: easy or without logic of their own.
