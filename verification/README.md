# A model of the kernel's bookkeeping cores

This project models twelve parts of the uClinux/Linux 2.4 kernel whose correctness rests on
state that many calls share, and proves what every call, and every run of calls, keeps:

| part | files |
|---|---|
| POSIX record locks: the list edit, blocking, deadlock search | `PosixLocks`, `PosixLockSafety`, `PosixLockMap`, `LockProtocol`, `LockMeaning`, `LockWakeups`, `LockTable`, `LockRanges` |
| System V message queues | `MessageText`, `MessageQueue`, `MessageQueueProofs`, `MessageService`, `MessageSystem`, `MessageSenders`, `SenderQueues` |
| System V semaphores with undo | `Semaphores`, `SemaphoreProofs`, `SemaphorePass`, `SemaphoreWakeups`, `SemaphoreLost`, `SemaphoreRace`, `SemaphoreUndo`, `SemaphoreClamp`, `SemaphoreSet` |
| The dentry tree: rename, reference counts, subtree walks | `Dcache`, `DcacheProofs`, `DcacheCalls`, `DcacheWalk`, `DentryCache` |
| Process ids | `Pids`, `PidRuns` |
| Pipes | `PipeProtocol`, `PipeRing` |
| The resource tree | `Resources`, `ResourceCalls`, `ResourceGaps`, `ResourceTree` |
| Flat binary relocation | `FlatReloc` |
| The accounting float `comp_t` | `AccountingFloat` |
| The buffer cache | `BufferRings`, `BufferLinks`, `BufferCache`, `BufferCacheProofs`, `BufferRuns`, `BufferCalls`, `BufferTable` |
| Shared vocabulary | `FunctionalGraph`, `Lists`, `Options` |

Each part has the same structure. Functions on values say what one call does. Lemmas state
what the calls promise: an independent meaning (which bytes an owner holds, what a pair of
instructions denotes, which dentries lie below another), an invariant over all runs, or a
round trip. Where the kernel updates things in place, a class does the same with the kernel's
own loops and assignments, and each of its methods is proved equal to the function. `dafny verify dfyconfig.toml`
checks everything.

A section that runs under one lock (or under the big kernel lock) is one step; a point where
the kernel sleeps ends a step, and everything may happen before the next one. A run is any
sequence of steps from the initial state.

## Where the code does less than its interface promises

These are proved as exact conditions, with a concrete case each where one helps:

- `posix_lock_file` compares with `fl_end + 1`, which wraps at the largest offset. The list
  stays grouped, sorted, disjoint and coalesced and describes exactly the requested change if
  and only if it is not the case that the request reaches `OFFSET_MAX` while its owner holds a
  lock of the same kind that ends at or after the byte before its start
  (`PosixLockMap.EditCorrectIffNoWrap`, `PosixLockMap.WrapExample`). Mutual exclusion between
  owners survives even then (`LockProtocol.ReachableExclusive`).
- `msgrcv` with a negative type serves the promised message for every type but the most negative
  one, whose negation wraps (`MessageQueueProofs.NegativeTypeServed`). The comment in
  `convert_mode` says "<" where the code accepts "<="; the model follows the code.
- `do_fork` takes the ids of the child long before it enters the child in the task list, and can
  sleep in between; a scan by another fork misses them. Linking the child keeps the gap between
  `last_pid` and `next_safe` free of ids if and only if none of the child's ids lies in the gap by
  then (`PidRuns.LinkKeepsGapIff`), and a fork gets an unused pid and keeps the gap if and only if
  get_pid misses no fork under way (`PidRuns.ForkFreshIff`). Along runs in which no scan starts
  while a fork is under way everything holds (`PidRuns.QuietIsHarmless`,
  `PidRuns.ReachableDistinct`); otherwise a live process group can be handed out as a pid
  (`PidRuns.LeakedGroup`, `PidRuns.BrokenGapReissues`), or a pid twice (`PidRuns.DuplicatePid`).
- The rescanning loop of `get_pid` ends if and only if some pid that it would try is free
  (`Pids.ScanEndsIff`).
- `d_move` keeps the dentry tree a tree if and only if the target is not above the moved dentry,
  so a directory rename relies on the filesystem to refuse a target that is not empty
  (`DcacheProofs.DMoveKeepsTreeIff`, `DcacheProofs.MoveOntoParent`).
- `do_reloc` keeps the high half of an address in a variable that a 26-bit relocation also
  uses: a HI16/LO16 pair is relocated if and only if no 26-bit record lies between its halves, or
  the sum of the last one happens to be the high half (`FlatReloc.PairRelocated`,
  `FlatReloc.JumpBetween`). Its variables also outlive a load: a load changes a word that none of
  its records names if and only if a LO16 of its own closes a HI16 that another load left waiting
  (`FlatReloc.ForeignWordIff`, `FlatReloc.LoadStealsWord`). A 26-bit jump is relocated exactly
  if and only if the base is a multiple of four (`FlatReloc.JumpRelocated`).
- `find_resource` takes the start of the next sibling for the end of a gap, and no gap of a single
  address. `allocate_resource` succeeds if and only if the first gap that looks large enough is the
  last one or the slot in it ends before the next sibling (`ResourceGaps.AllocateIff`); it fails
  although there is room if and only if that slot ends on the next sibling, or one address is asked
  for and every gap that has it has just that one (`ResourceGaps.AllocateMissesIff`,
  `ResourceGaps.AllocateCollides`, `ResourceGaps.AllocateOverlooks`).
- `update_queue` looks at the sleepers in one forward pass. Whenever it runs, the first sleeper that
  can go on does (`SemaphoreWakeups.LookedServes`), and it runs after every change of a value. But a
  vector that is performed in the pass and raises a value comes too late for a sleeper passed over
  before: a pass leaves somebody asleep who could go on, with nobody woken who could, if and only
  if that happened (`SemaphoreLost.LosesIff`, `SemaphoreRace.LostWakeup`). Along runs in which
  nobody sleeps in a vector that raises something and lowers nothing no wake-up is lost
  (`SemaphoreLost.ReachableAwake`), and nobody ever does in a vector of one operation
  (`SemaphoreLost.SingleIsPlain`).
- `sem_exit` leaves "value plus all adjustments" unchanged if and only if its clamp at zero does
  not strike (`SemaphoreProofs.ExitOwed`, `SemaphoreClamp.ClampStrikes`).

## Model

| member | source | states |
|---|---|---|
| `LockRanges.RangeExact` | linux/fs/locks.c:304-331 | in spite of 64-bit wrap-around an offset and length are accepted exactly when they denote a range inside the file, and become that range |
| `PosixLockSafety.EditGrantsOnlyTheRequest` | linux/fs/locks.c:896-1010 | whatever the list looked like, an owner holds a byte after the edit only if it did before or the request asked for it |
| `PosixLockSafety.EditWakesWhatItShrinks` | linux/fs/locks.c:896-1010 | lock identities stay distinct, and every lock whose waiters are not woken is still there with the same kind and at least the same range |
| `PosixLockSafety.EditReal` | linux/fs/locks.c:896-1010 | the edit never leaves an entry of type F_UNLCK on the list, wrap or not |
| `PosixLockMap.EditCanonicalUnlessWraps` | linux/fs/locks.c:896-1010 | without the wrap the list stays grouped, sorted, disjoint and coalesced, and per owner, kind and byte it is the old one overwritten by the request |
| `PosixLockMap.EditBreaksWhenWraps` | linux/fs/locks.c:907-938 | with the wrap the result is never canonical |
| `PosixLockMap.EditCorrectIffNoWrap` | linux/fs/locks.c:896-1010 | canonical and overwritten if and only if no wrap |
| `PosixLockMap.WrapExample` | linux/fs/locks.c:907-938 | a read lock on a whole file leaves a write lock of the same owner inside it |
| `FunctionalGraph.NewEdgeClosesCycle` | linux/fs/locks.c:652-678 | in an acyclic wait graph a new edge closes a cycle if and only if its end reaches its beginning |
| `LockProtocol.GrantKeepsInv` | linux/fs/locks.c:889-1010 | a granted request keeps exclusion, identities, held-up waiters and an acyclic wait graph |
| `LockProtocol.BlockKeepsInv` | linux/fs/locks.c:603-610 | so does going to sleep, when the deadlock search allowed it |
| `LockProtocol.ResumeKeepsInv` | linux/fs/locks.c:403-410 | so does leaving the block list |
| `LockProtocol.CloseKeepsInv` | linux/fs/locks.c:1647-1675 | so does dropping all locks of a file table |
| `LockProtocol.ApplyKeepsInv` | linux/fs/locks.c:846-1021 | every step keeps the invariant |
| `LockProtocol.ReachableExclusive` | linux/fs/locks.c:868-1010 | in every reachable state no byte is write-locked by one owner and locked by another |
| `LockProtocol.ReachableWaiters` | linux/fs/locks.c:444-507 | in every reachable state each sleeper conflicts with the lock it waits for, nobody sleeps twice, and no cycle of waiters exists |
| `LockProtocol.DeadlockExact` | linux/fs/locks.c:652-678 | a request is refused as a deadlock exactly when sleeping would close a cycle of owners |
| `LockProtocol.ReachableCanonical` | linux/fs/locks.c:846-1010 | lists stay canonical along every run whose requests avoid the wrap |
| `LockMeaning.ConflictExact` | linux/fs/locks.c:868-887 | a request meets no conflict exactly when no byte of it is held by another owner in a way it cannot share; touching locks, two readers and F_UNLCK never conflict |
| `LockMeaning.SetLockAnswers` | linux/fs/locks.c:846-1021 | granted exactly when no byte clashes; then the caller's bytes in the range are overwritten or erased and every other byte, owner and inode stays, exactly unless the wrap strikes; refused, nothing changes; put to sleep, only the block list grows |
| `LockMeaning.CloseDrops` | linux/fs/locks.c:1647-1675 | no lock of the file table remains on the inode, every other lock and byte does, and exactly the waiters of the dropped locks wake |
| `LockMeaning.ResumeLeaves` | linux/fs/locks.c:403-410 | a sleeper that runs again leaves the block list and nobody else does |
| `LockWakeups.EditWakesExactly` | linux/fs/locks.c:896-1010 | the waiters of a lock are woken exactly when the lock is gone afterwards, of another kind, or smaller |
| `LockWakeups.GrantWakesExactly` | linux/fs/locks.c:896-1010 | so a granted request wakes exactly those who wait for such a lock |
| `LockTable.LockTable.WakeUpBlocks` | linux/fs/locks.c:444-464 | exactly the waiters of one lock leave the block list |
| `LockTable.LockTable.DeadlockSearch` | linux/fs/locks.c:652-678 | the search ends, and answers whether the blocker's owner waits for the caller, directly or not |
| `LockTable.LockTable.FindConflict` | linux/fs/locks.c:868-887 | finds the first conflicting lock |
| `LockTable.LockTable.MergeHere` | linux/fs/locks.c:910-938 | one merge step, in place |
| `LockTable.LockTable.OverwriteHere` | linux/fs/locks.c:939-979 | one overwrite step, in place, waking the waiters of a lock it changes |
| `LockTable.LockTable.SweepOwn` | linux/fs/locks.c:896-984 | the loop over the owner's locks, in place, equals the recursive sweep |
| `LockTable.LockTable.FinishFile` | linux/fs/locks.c:986-1010 | inserting, splitting and cutting after the loop |
| `LockTable.LockTable.EditFile` | linux/fs/locks.c:896-1010 | the whole edit with its wake-ups equals the granted step: the range is overwritten or erased for the owner exactly unless the wrap strikes, nobody else gains or loses a byte, other inodes stay |
| `LockTable.LockTable.PosixLockFile` | linux/fs/locks.c:846-1021 | the call equals the protocol step and keeps the invariant: granted exactly when nothing clashes and then the byte map is the old one overwritten, refused without any change, or put on the block list |
| `LockTable.LockTable.DeleteBlock` | linux/fs/locks.c:403-410 | a sleeper that wakes leaves the list, and nobody else |
| `LockTable.LockTable.RemoveAll` | linux/fs/locks.c:1647-1675 | exactly the locks of a file table go, and their waiters wake |
| `LockTable.LockTable.RemovePosix` | linux/fs/locks.c:1647-1675 | the close step, in place: exactly the locks of the table go |
| `LockTable.LockTable.TestLock` | linux/fs/locks.c:621-636 | F_GETLK reports a lock exactly when F_SETLK would fail, in every state the protocol reaches |
| `MessageText.Load` | linux/ipc/msg.c:158-208 | the segments hold the text, filled as store_msg expects |
| `MessageText.Store` | linux/ipc/msg.c:210-235 | copies out exactly a prefix of the text |
| `MessageText.Deliver` | linux/ipc/msg.c:158-235 | what was copied in comes out, cut at the receiver's size |
| `MessageQueueProofs.FindPicks` | linux/ipc/msg.c:749-764 | the search returns the first match, or for "type at most" the earliest message of least type, and nothing exactly when nothing matches |
| `MessageQueueProofs.NegativeTypeServed` | linux/ipc/msg.c:708-764 | a negative type is served by the earliest message of least type not above its absolute value, except for the most negative type |
| `MessageQueueProofs.OfferDelivers` | linux/ipc/msg.c:600-624 | a message goes to the first waiting receiver that matches and has room, and is queued exactly when there is none; refused are exactly the matching ones before it, all without room; all others stay, in order |
| `MessageQueueProofs.HandOffOvertakesNothing` | linux/ipc/msg.c:600-624 | when a receiver is handed a message, no message of that type is queued |
| `MessageQueueProofs.SendKeepsInv` | linux/ipc/msg.c:651-706 | sending keeps order, counters, conservation and the sleepers |
| `MessageQueueProofs.TakeKeepsInv` | linux/ipc/msg.c:765-787 | so does taking a message |
| `MessageQueueProofs.SleepKeepsInv` | linux/ipc/msg.c:788-808 | so does going to sleep |
| `MessageQueueProofs.ResumeKeepsInv` | linux/ipc/msg.c:810-838 | so does waking with a message, an error or a signal |
| `MessageQueueProofs.FreeKeepsInv` | linux/ipc/msg.c:266-301 | so does removing the queue |
| `MessageQueueProofs.ConfigureKeepsInv` | linux/ipc/msg.c:540-561 | so does changing its limits |
| `MessageQueueProofs.ApplyKeepsInv` | linux/ipc/msg.c:626-844 | every step keeps the invariant |
| `MessageQueueProofs.ReachableOnePlace` | linux/ipc/msg.c:600-844 | in every reachable state each accepted message is in exactly one place: queued, in a receiver's hand, consumed or discarded |
| `MessageQueueProofs.ReachableQueues` | linux/ipc/msg.c:600-844 | in every reachable state messages of a type left in the order sent, no sleeping receiver matches a queued message, and all counters are exact |
| `MessageService.FindServes` | linux/ipc/msg.c:708-764 | type 0 gets the first message, a positive type the first of that type, with MSG_EXCEPT the first of another, a negative type the first of least type up to its absolute value; nothing exactly when there is none, and for the most negative type |
| `MessageService.ReceiveServes` | linux/ipc/msg.c:727-808 | msgrcv takes exactly that message, refuses it when too long for the caller, and fails or sleeps exactly when there is none |
| `MessageService.SendServes` | linux/ipc/msg.c:600-706 | msgsnd hands the message to the first sleeping receiver that asked for it and takes its length, tells those before it for whom it is too long, leaves all others alone, and queues it exactly when nobody takes it |
| `MessageService.ReachableHeard` | linux/ipc/msg.c:600-844 | in every reachable state no sleeping receiver asked for a message that is queued |
| `MessageService.ResumeReturns` | linux/ipc/msg.c:810-838 | a receiver that runs again leaves the list, with the message it was handed, and touches nothing else |
| `MessageService.FreeRemoves` | linux/ipc/msg.c:266-301 | removal throws the messages away and tells exactly the receivers asleep on the queue |
| `MessageSystem.OfferLoop` | linux/ipc/msg.c:600-624 | the loop over the receivers equals the offer |
| `MessageSystem.MessageSystem.PipelinedSend` | linux/ipc/msg.c:600-624 | the offer, in place |
| `MessageSystem.MessageSystem.MsgSnd` | linux/ipc/msg.c:626-706 | accepted exactly when allowed and the bytes and the number of messages stay within the limit; then handed over or queued as promised |
| `MessageSystem.MessageSystem.FindMessage` | linux/ipc/msg.c:749-764 | the search loop returns the promised message |
| `MessageSystem.MessageSystem.MsgRcv` | linux/ipc/msg.c:727-808 | the call up to its return or its sleep: the message asked for, too long, none, or asleep, each exactly when it should |
| `MessageSystem.MessageSystem.Dequeue` | linux/ipc/msg.c:765-787 | the oldest message of its type moves from the queue to those taken and consumed, all others stay, and order, counters and conservation survive |
| `MessageSystem.MessageSystem.RunAgain` | linux/ipc/msg.c:810-838 | what a woken receiver does: it runs, with the message it was handed, and is on no list |
| `MessageSystem.MessageSystem.ExpungeAll` | linux/ipc/msg.c:266-279 | every sleeping receiver is told that the queue is gone |
| `MessageSystem.MessageSystem.FreeQueue` | linux/ipc/msg.c:281-301 | exactly the sleeping receivers told, messages discarded, counters reduced |
| `MessageSenders.NextKeepsGood` | linux/ipc/msg.c:626-787 | every step of senders, receivers, limit changes and removals keeps the queues' invariant and the lists of sleeping senders |
| `MessageSenders.ReachableSenders` | linux/ipc/msg.c:237-264 | in every reachable state a listed sender that nobody woke has no room for its message; on a queue without messages only one whose message is over the limit by itself sleeps; a task sleeps in one place only |
| `MessageSenders.RetryDecides` | linux/ipc/msg.c:659-683 | a sender that runs again sends exactly when there is room, and otherwise sleeps again at the end of the list |
| `SenderQueues.SenderQueues.WakeUp` | linux/ipc/msg.c:250-264 | the loop wakes every sender of one queue, or expels them |
| `SenderQueues.SenderQueues.TryMsgSnd` | linux/ipc/msg.c:651-697 | sends, refuses or sleeps, exactly as room and IPC_NOWAIT demand, and keeps the invariant |
| `SenderQueues.SenderQueues.MsgSnd` | linux/ipc/msg.c:626-706 | the call up to its return or its sleep: accepted, on the list, or nothing changed |
| `SenderQueues.SenderQueues.RunAgain` | linux/ipc/msg.c:670-683 | a sender after its sleep, in place |
| `SenderQueues.SenderQueues.MsgRcv` | linux/ipc/msg.c:727-808 | a receive that takes a message leaves no sender of the queue asleep |
| `SenderQueues.SenderQueues.SetLimit` | linux/ipc/msg.c:540-561 | nor does a limit change |
| `SenderQueues.SenderQueues.RemoveQueue` | linux/ipc/msg.c:281-301 | removal leaves no sender on the list; each will fail |
| `SemaphoreProofs.TryExact` | linux/ipc/sem.c:241-299 | success, range error and blocking, each exactly when the operations in turn call for it |
| `SemaphorePass.UpdatePerforms` | linux/ipc/sem.c:304-330 | one pass decides each entry at its turn: values, adjustments and plain sum are those after exactly the vectors performed, in queue order; the queue is the old one without those performed and failed, the woken one marked; failed ones neither succeed nor block at their turn |
| `SemaphorePass.OneWoken` | linux/ipc/sem.c:304-330 | after an entry that is woken all others stay, and only entries that decrease nothing are performed |
| `SemaphoreWakeups.LookedServes` | linux/ipc/sem.c:304-330 | whenever the queue is looked at, the first sleeper not yet woken whose vector the values accept is woken, or performed when it decreases nothing |
| `SemaphoreWakeups.SemopOutcome` | linux/ipc/sem.c:826-957 | a vector that is accepted takes effect and, if it alters anything, the sleepers are looked at with the new values; one that has to wait joins the queue at its end, or at its front when it alters nothing; one that fails changes no value |
| `SemaphoreWakeups.ResumeOutcome` | linux/ipc/sem.c:914-957 | a sleeper told to try again does so, sleeps on only if it has to wait, and whenever an altering one leaves the others are looked at |
| `SemaphoreWakeups.SetValOutcome` | linux/ipc/sem.c:622-638 | SETVAL: the value arrives, the adjustments of the semaphore are cleared, the sleepers are looked at |
| `SemaphoreWakeups.SetAllOutcome` | linux/ipc/sem.c:549-587 | SETALL: all values arrive, all adjustments are cleared, the sleepers are looked at |
| `SemaphoreWakeups.ExitOutcome` | linux/ipc/sem.c:978-1041 | exit: the process is off the queue, its adjustments are in the values, and the sleepers are looked at when it had any |
| `SemaphoreWakeups.SemopServes` | linux/ipc/sem.c:899-957 | after a semop that performs an altering vector, the first sleeper not yet woken whom the new values let go on is woken or has been performed |
| `SemaphoreWakeups.ResumeServes` | linux/ipc/sem.c:936-957 | so it is when a sleeper with an altering vector goes on, fails or gives up, among those left |
| `SemaphoreWakeups.SetServes` | linux/ipc/sem.c:549-638 | and after SETVAL and SETALL, with the values set |
| `SemaphoreWakeups.ExitServes` | linux/ipc/sem.c:1017-1036 | and after the exit of a process with adjustments |
| `SemaphoreLost.LosesIff` | linux/ipc/sem.c:304-330 | a pass loses a wake-up exactly when it passed over a sleeper that a raising vector performed behind it lets go on, and nobody woken can go on |
| `SemaphoreLost.ReachableAwake` | linux/ipc/sem.c:826-1041 | along runs in which nobody sleeps in a vector that raises and lowers nothing, and nobody dies on the queue, a sleeper that could go on implies one that was told to and can |
| `SemaphoreLost.SingleIsPlain` | linux/ipc/sem.c:241-299 | a single operation that has to wait raises nothing |
| `SemaphoreLost.DyingLoses` | linux/ipc/sem.c:988-1001 | a process told to try again that dies first, without adjustments, takes the wake-up with it |
| `SemaphoreRace.LostWakeup` | linux/ipc/sem.c:304-330 | four calls on a new set of two semaphores after which a process sleeps for a semaphore that is 1 |
| `SemaphoreUndo.PerformAdjusts` | linux/ipc/sem.c:257-259 | a vector changes the adjustments of its own process, by what it did with SEM_UNDO, and nobody else's |
| `SemaphoreUndo.ExitUndoes` | linux/ipc/sem.c:1017-1033 | what a process did with SEM_UNDO throughout, its exit gives back |
| `SemaphoreProofs.UpdateOnlyRaises` | linux/ipc/sem.c:304-330 | a pass takes nothing from any semaphore |
| `SemaphoreProofs.PerformOwed` | linux/ipc/sem.c:257-296 | value plus all adjustments changes by exactly the operations without SEM_UNDO |
| `SemaphoreProofs.UndoVectorNeutral` | linux/ipc/sem.c:257-259 | a vector with SEM_UNDO throughout leaves that sum alone |
| `SemaphoreProofs.ExitOwed` | linux/ipc/sem.c:1017-1033 | exit moves adjustments into values; the sum is kept exactly when the clamp does not strike |
| `SemaphoreClamp.ClampStrikes` | linux/ipc/sem.c:1017-1033 | one process raises with undo, another takes for good, the first exits: the sum changes |
| `SemaphoreProofs.SemopKeepsInv` | linux/ipc/sem.c:826-964 | semop keeps the balance and the queue |
| `SemaphoreProofs.ResumeKeepsInv` | linux/ipc/sem.c:914-957 | so does what a woken sleeper does |
| `SemaphoreProofs.SetValKeepsInv` | linux/ipc/sem.c:622-638 | so does SETVAL |
| `SemaphoreProofs.SetAllKeepsInv` | linux/ipc/sem.c:549-587 | so does SETALL |
| `SemaphoreProofs.ExitKeepsInv` | linux/ipc/sem.c:978-1041 | so does exit |
| `SemaphoreProofs.ApplyKeepsInv` | linux/ipc/sem.c:241-1041 | every step keeps the invariant |
| `SemaphoreProofs.ReachableBalanced` | linux/ipc/sem.c:241-1041 | in every reachable state values are not negative and value plus adjustments is what the plain operations made it; with no adjustments left the values are theirs |
| `SemaphoreSet.SemaphoreSet.RollBack` | linux/ipc/sem.c:286-297 | undoing a prefix restores every value and adjustment, repeated semaphores included |
| `SemaphoreSet.SemaphoreSet.TryAtomicSemop` | linux/ipc/sem.c:241-299 | all operations or none, and none in trial mode |
| `SemaphoreSet.SemaphoreSet.UpdateQueue` | linux/ipc/sem.c:304-330 | the pass over the queue, in place |
| `SemaphoreSet.SemaphoreSet.SysSemop` | linux/ipc/sem.c:826-913 | the call up to its sleep or end: performed with a look at the sleepers, queued, or failed, each exactly when it should |
| `SemaphoreSet.SemaphoreSet.RunAgain` | linux/ipc/sem.c:914-957 | the loop of a sleeper, with the look at the others when it leaves |
| `SemaphoreSet.SemaphoreSet.SetValue` | linux/ipc/sem.c:622-638 | SETVAL within its range: the value arrives, all adjustments of the semaphore are cleared, the sleepers are looked at |
| `SemaphoreSet.SemaphoreSet.SetValues` | linux/ipc/sem.c:549-587 | SETALL when all values are in range: they arrive, all adjustments are cleared, the sleepers are looked at |
| `SemaphoreSet.SemaphoreSet.SemExit` | linux/ipc/sem.c:978-1041 | the exit step, in place: off the queue, adjustments given back, sleepers looked at |
| `FunctionalGraph.ExchangeKeepsAcyclic` | linux/fs/dcache.c:933-945 | exchanging the parents of two dentries neither of which is above the other keeps the links acyclic |
| `FunctionalGraph.ExchangeClosesCycle` | linux/fs/dcache.c:933-945 | exchanging parents with a dentry further up closes a cycle |
| `DcacheProofs.DMoveMoves` | linux/fs/dcache.c:918-947 | d_move trades the two places and changes no count and no other dentry |
| `DcacheProofs.DMoveKeepsTreeIff` | linux/fs/dcache.c:918-947 | after is_subdir, the tree, its child lists and its counts stay well formed if and only if the target is not above the moved dentry |
| `DcacheProofs.DMoveBreaksTree` | linux/fs/dcache.c:918-947 | a target above the moved dentry breaks the tree |
| `DcacheProofs.MoveOntoParent` | linux/fs/dcache.c:918-947 | in a chain of three dentries, moving the last onto the middle one breaks the tree |
| `DcacheProofs.DMoveRenames` | linux/fs/dcache.c:918-947 | a lookup finds the moved dentry exactly where it found the target, finds the target nowhere, and all others as before |
| `DcacheProofs.RenameKeepsTree` | linux/fs/namei.c:1702-1737 | a directory rename keeps the tree when the filesystem refuses targets that are not empty |
| `DcacheProofs.DAllocKeepsTree` | linux/fs/dcache.c:599-646 | a new dentry keeps tree, lists and counts |
| `DcacheProofs.DAllocRootKeepsTree` | linux/fs/dcache.c:681-694 | so does a new root |
| `DcacheProofs.ApplyKeepsTree` | linux/fs/dcache.c:123-947 | every step keeps the tree |
| `DcacheProofs.ExecuteKeepsTree` | linux/fs/dcache.c:123-947 | over every run from the empty cache the parent links form a forest, each dentry is on its parent's list once, and each count is its users plus its children |
| `DcacheCalls.RenameMeans` | linux/fs/namei.c:1702-1737 | refused below itself; undone but for rehashing a positive target when the filesystem refuses; otherwise the directory is found where the target was, or stood if positive, the target nowhere, parents and names are exchanged, and every other dentry and count stays |
| `DcacheCalls.DropRefPrunes` | linux/fs/dcache.c:123-169 | freed are exactly the dentries that lose their last reference that way, are not used, not hashed or not wanted, and keep no child; the others stay as they were |
| `DcacheCalls.DAllocMeans` | linux/fs/dcache.c:599-646 | d_alloc adds exactly one unhashed dentry with one user below its parent, whose count it raises |
| `DcacheCalls.DAllocRootMeans` | linux/fs/dcache.c:681-694 | d_alloc_root adds exactly one root |
| `DcacheCalls.GetPutBack` | linux/fs/dcache.c:123-169 | dget and then dput leave the tree as it was |
| `Dcache.DropRef` | linux/fs/dcache.c:123-169 | giving back a reference, with all the parents this frees, ends in a well-formed tree |
| `DcacheWalk.BelowExact` | linux/fs/dcache.c:444-480 | the walk's order contains exactly the strict descendants |
| `DcacheWalk.VisitedOnce` | linux/fs/dcache.c:489-534 | and each of them once |
| `DentryCache.DentryCache.FindAbove` | linux/fs/dcache.c:1096-1113 | is_subdir ends, and finds the ancestor exactly when there is one |
| `DentryCache.DentryCache.Move` | linux/fs/dcache.c:918-947 | d_move, in place: the two dentries trade places and nothing else changes; the tree survives if and only if the target is not above |
| `DentryCache.DentryCache.Rename` | linux/fs/namei.c:1702-1737 | the rename step, in place; the move happens exactly when is_subdir and the filesystem allow it, and then the directory is found where the target was |
| `DentryCache.DentryCache.Put` | linux/fs/dcache.c:123-169 | dput's loop up the tree ends, frees exactly the dentries that lose their last reference and are not kept, and keeps the tree well formed |
| `DentryCache.DentryCache.HaveSubmounts` | linux/fs/dcache.c:444-480 | the walk ends, and finds a mount point exactly when there is one at or below the dentry |
| `DentryCache.DentryCache.SelectParent` | linux/fs/dcache.c:489-534 | the walk ends, moves exactly the unused strict descendants, each once, to the end of the unused list, and counts them |
| `DentryCache.ToEndIsTail` | linux/fs/dcache.c:503-507 | moving distinct entries to the end one by one leaves them there in that order |
| `Pids.ScanFinds` | linux/kernel/fork.c:95-117 | the scan ends at the first free pid in search order, with no id in use between it and next_safe |
| `Pids.ScanEndsIff` | linux/kernel/fork.c:95-117 | the restarting scan ends if and only if a pid that it would try is free |
| `Pids.GetPidFresh` | linux/kernel/fork.c:82-123 | with or without a scan the pid is in range and nobody's pid, group or session, and the gap is kept |
| `Pids.ScanFresh` | linux/kernel/fork.c:95-117 | whatever the gap was before, a pid that was scanned for is unused and its gap free of ids |
| `PidRuns.LinkKeepsGapIff` | linux/kernel/fork.c:835-843 | entering a child in the task list keeps the gap exactly when none of its ids lies in the gap by then |
| `PidRuns.ForkFreshIff` | linux/kernel/fork.c:723-749 | a fork gets a pid that neither a task nor a fork under way has, and keeps the gap, exactly when get_pid misses no fork under way |
| `PidRuns.ApplyKeepsGap` | linux/kernel/fork.c:706-843 | taking ids, linking, giving up, exit, setpgid and setsid keep the gap; the last two bring in no id that is not in use |
| `PidRuns.QuietIsHarmless` | linux/kernel/fork.c:706-843 | runs in which no scan starts while a fork is under way miss none |
| `PidRuns.ReachableGap` | linux/kernel/fork.c:82-123 | along every run that misses no fork under way, no id in use or taken lies strictly between last_pid and next_safe |
| `PidRuns.ReachableFresh` | linux/kernel/fork.c:91-122 | after such a run the pid handed out is no task's, and no fork's under way exactly when this scan misses none either |
| `PidRuns.ReachableEnabled` | linux/kernel/fork.c:82-123 | after such a run get_pid ends if and only if a pid ahead is free |
| `PidRuns.ReachableDistinct` | linux/kernel/fork.c:706-843 | along such a run all pids differ, those of forks under way included, but for the clones of the idle task |
| `PidRuns.SerialRuns` | linux/kernel/fork.c:706-843 | gap, freshness and distinct pids when no two forks overlap |
| `PidRuns.BrokenGapReissues` | linux/kernel/fork.c:90-94 | an id in use inside the gap is handed out again by the forks that follow |
| `PidRuns.LeakedGroup` | linux/kernel/fork.c:723-843 | a process group that only a fork under way holds escapes another fork's scan and ends up in the gap |
| `PidRuns.DuplicatePid` | linux/kernel/fork.c:749-840 | a run from boot that gives two tasks the same pid |
| `PidRuns.PidAllocator.Allocate` | linux/kernel/fork.c:82-123 | get_pid, in place |
| `PidRuns.PidAllocator.Search` | linux/kernel/fork.c:95-117 | the restarting scan ends whenever get_pid does, in place |
| `PidRuns.PidAllocator.Visit` | linux/kernel/fork.c:99-117 | one turn of the scan |
| `PipeProtocol.CopiedKept` | linux/fs/pipe.c:181-226 | a copy step keeps every writer's bytes in order and small writes whole |
| `PipeProtocol.ApplyKeepsInv` | linux/fs/pipe.c:39-246 | every step of readers and writers keeps the invariant |
| `PipeProtocol.ReachableConserved` | linux/fs/pipe.c:39-246 | over every interleaving the bytes read followed by the contents are the bytes written |
| `PipeProtocol.ReachableAtomic` | linux/fs/pipe.c:159-226 | over every interleaving a write of at most PIPE_BUF bytes enters in one piece or not at all, never sleeps midway, and is whole unless a fault cut it short; every write enters in order |
| `PipeProtocol.EmptyTakesSmall` | linux/fs/pipe.c:159-203 | a small write fits once the pipe is empty |
| `PipeProtocol.WriterSleepsIff` | linux/fs/pipe.c:155-226 | a writer goes to sleep exactly when it may block, has a reader, and finds less room than it needs or fills the pipe before it is through |
| `PipeProtocol.NonblockingSmallWrite` | linux/fs/pipe.c:159-203 | a small write that may not block goes in whole or not at all |
| `PipeProtocol.ReaderSleepsIff` | linux/fs/pipe.c:61-121 | a reader goes to sleep exactly when it may block, there are writers, and the pipe was empty or it emptied it with writers waiting; it then leaves an empty pipe |
| `PipeProtocol.WritePutsIn` | linux/fs/pipe.c:159-226 | a write puts in as much as there is room for, a small one all or nothing, nothing without a reader; a fault cuts it short where it strikes |
| `PipeProtocol.WriterGoesOn` | linux/fs/pipe.c:181-226 | a sleeping writer goes on where it stopped, and sleeps again exactly when it is not through and no fault struck |
| `PipeProtocol.ReadTakesOut` | linux/fs/pipe.c:61-121 | a read, or a reader that goes on, takes from the front exactly as much as is wanted and there, up to a fault |
| `PipeRing.RingAt` | linux/include/linux/pipe_fs_i.h:33-38 | element k of the contents is byte start + k modulo the size of the page |
| `PipeRing.Pipe.CopyFromUser` | linux/fs/pipe.c:181-203 | the chunked loop appends as much as there is room for, across the wrap, or what came before a fault |
| `PipeRing.Pipe.CopyToUser` | linux/fs/pipe.c:85-121 | the chunked loop takes from the front, and leaves the pipe empty when it did not get all it wanted, so the BUG after it is never reached |
| `Resources.RequestExact` | linux/kernel/resource.c:67-93 | granted exactly when the range is not empty, lies inside and overlaps no child; otherwise the first overlap is reported |
| `Resources.RequestKeepsTree` | linux/kernel/resource.c:67-93 | siblings stay sorted, disjoint and inside |
| `Resources.RemoveKeepsTree` | linux/kernel/resource.c:95-112 | also when one is taken out |
| `Resources.AllocateSound` | linux/kernel/resource.c:151-203 | what is accepted is aligned, of the size asked for, within min..max, and overlaps nothing; the tree stays well formed |
| `ResourceCalls.RequestAdds` | linux/kernel/resource.c:67-93 | a granted request adds exactly the new resource |
| `ResourceCalls.AllocateAdds` | linux/kernel/resource.c:188-203 | an allocation adds exactly one resource of the size and kind asked for |
| `ResourceCalls.RegionAdds` | linux/kernel/resource.c:217-250 | a granted region is added somewhere below, and nothing else changes |
| `ResourceCalls.ReleaseExact` | linux/kernel/resource.c:265-292 | a release succeeds exactly when a busy region of these bounds is there that no other busy one hides, and takes exactly that one away |
| `ResourceGaps.FindChooses` | linux/kernel/resource.c:151-183 | find_resource stops at the first gap that looks large enough, and finds nothing exactly when none does |
| `ResourceGaps.AllocateIff` | linux/kernel/resource.c:151-203 | succeeds exactly when something is asked for and the first gap that looks large enough is the last, or its slot ends before the next sibling |
| `ResourceGaps.RoomIff` | linux/kernel/resource.c:151-203 | an aligned range of the size within the bounds that request_resource would grant exists exactly when some gap is large enough |
| `ResourceGaps.AllocateMissesIff` | linux/kernel/resource.c:151-203 | fails although there is room exactly when the slot ends on the next sibling, or one address is asked for and every gap that has it has just that one |
| `ResourceGaps.AllocateCollides` | linux/kernel/resource.c:151-203 | a tree with room where the slot ends on the next sibling |
| `ResourceGaps.AllocateOverlooks` | linux/kernel/resource.c:151-183 | any empty tree, asked for one given address, refuses it |
| `Resources.RequestRegionExact` | linux/kernel/resource.c:217-250 | granted exactly when the range is not empty, lies inside, and everything below that overlaps it is not busy and contains it |
| `Resources.RequestRegionKeepsTree` | linux/kernel/resource.c:217-250 | the tree stays well formed |
| `Resources.ReleaseKeepsTree` | linux/kernel/resource.c:265-292 | also after a release |
| `Resources.RegionRoundTrip` | linux/kernel/resource.c:217-292 | releasing a region right after requesting it restores the tree |
| `ResourceTree.Locate` | linux/kernel/resource.c:67-93 | the loop along the siblings |
| `ResourceTree.FindSlot` | linux/kernel/resource.c:151-183 | the loop over the gaps |
| `ResourceTree.ResourceTree.RequestResource` | linux/kernel/resource.c:67-93 | request_resource at any node, in place |
| `ResourceTree.ResourceTree.AllocateResource` | linux/kernel/resource.c:188-203 | allocate_resource, in place |
| `ResourceTree.ResourceTree.RequestRegionAt` | linux/kernel/resource.c:217-250 | the descent into children that are not busy, in place |
| `ResourceTree.ResourceTree.ReleaseRegionAt` | linux/kernel/resource.c:265-292 | the search for the region to release, in place |
| `FlatReloc.PairDenotes` | linux/fs/binfmt_flat.c:241-244 | the two halves written denote the sum, in spite of the sign of the low half; the upper halves stay |
| `FlatReloc.JumpDenotes` | linux/fs/binfmt_flat.c:251-255 | the field written is the target plus the base modulo 2^28 exactly for bases that are multiples of four; the opcode stays |
| `FlatReloc.WordRelocated` | linux/fs/binfmt_flat.c:221-223 | after all records each 32-bit word is its old value plus its base modulo 2^32 |
| `FlatReloc.JumpRelocated` | linux/fs/binfmt_flat.c:251-255 | after all records each jump keeps its opcode and is relocated exactly for such bases |
| `FlatReloc.ClosesIff` | linux/fs/binfmt_flat.c:224-250 | a LO16 is taken for the second half of a pair exactly when an earlier HI16 of the same sections is the last one and no LO16 that matches came since |
| `FlatReloc.CarryExact` | linux/fs/binfmt_flat.c:224-255 | while a HI16 waits the carry is its high half, or the sum of the last 26-bit record since |
| `FlatReloc.PairRelocated` | linux/fs/binfmt_flat.c:224-250 | after all records each pair denotes its old value plus its base modulo 2^32 exactly when no 26-bit record lies between its halves or the sum of the last one equals its high half |
| `FlatReloc.OthersUntouched` | linux/fs/binfmt_flat.c:164-264 | words that no record writes, unmatched halves among them, stay as loaded |
| `FlatReloc.JumpBetween` | linux/fs/binfmt_flat.c:224-255 | a 26-bit record between two halves spoils the pair |
| `FlatReloc.ForeignWordIff` | linux/fs/binfmt_flat.c:164-264 | a load writes a word that none of its records names exactly when its LO16 closes a HI16 that another load left waiting there |
| `FlatReloc.StolenWord` | linux/fs/binfmt_flat.c:224-250 | what such a word becomes, and when it stays the same |
| `FlatReloc.UndisturbedKeepsOff` | linux/fs/binfmt_flat.c:164-264 | loads that leave no HI16 waiting when another load goes on keep off each other's words |
| `FlatReloc.LoadStealsWord` | linux/fs/binfmt_flat.c:224-250 | two loads, the second of which changes a word of the first program |
| `FlatReloc.Relocator.DoReloc` | linux/fs/binfmt_flat.c:164-264 | one record, in place, with the variables that survive the call |
| `FlatReloc.Relocator.RelocateAll` | linux/fs/binfmt_flat.c:464-484 | the loop over all records of a load, whatever earlier or interleaved loads left behind |
| `AccountingFloat.EncodeLoop` | linux/kernel/acct.c:231-260 | the shifting and rounding loop |
| `AccountingFloat.RoundsToNearest` | linux/kernel/acct.c:231-260 | the code is off by at most half a unit of its last octal place, so 2048 times the error never exceeds the value, carry-out included; it is exact up to 8191 |
| `AccountingFloat.FitsSixteenBits` | linux/kernel/acct.c:231-260 | every 32-bit value fits |
| `AccountingFloat.Monotone` | linux/kernel/acct.c:231-260 | the encoding keeps the order |
| `BufferRings.RingAppend` | linux/fs/buffer.c:442-456 | linking in before the head puts an element last in the ring |
| `BufferRings.RingRemove` | linux/fs/buffer.c:458-471 | bypassing an element leaves a ring of the others in order |
| `BufferLinks.AppendedRepresents` | linux/fs/buffer.c:442-456 | linking in appends to one list and leaves all others alone |
| `BufferLinks.RemovedRepresents` | linux/fs/buffer.c:458-485 | taking out deletes from one list, whichever element is the head, and leaves all others alone |
| `BufferLinks.PageFromFirst` | linux/fs/buffer.c:2270-2291 | the links made for a page, seen from its first buffer, are the new buffers followed by the old list with its head last |
| `BufferCache.LookupExact` | linux/fs/buffer.c:532-545 | the search along a hash chain finds exactly the hashed buffer of the block |
| `BufferCacheProofs.ClaimKeepsCore` | linux/fs/buffer.c:990-1011 | making a free buffer the clean one for a block that has none keeps uniqueness, chains, lists and counters |
| `BufferCacheProofs.RefileKeepsCore` | linux/fs/buffer.c:1106-1122 | so does moving it between LRU lists |
| `BufferCacheProofs.BforgetKeepsCore` | linux/fs/buffer.c:1149-1166 | so does putting it on the free list |
| `BufferCacheProofs.GrowKeepsCore` | linux/fs/buffer.c:2248-2298 | so does a page of new buffers |
| `BufferCacheProofs.DiscardAllKeepsCore` | linux/fs/buffer.c:2374-2388 | so does discarding the buffers of a page |
| `BufferCacheProofs.TryToFreeKeepsInv` | linux/fs/buffer.c:2354-2400 | giving back a page whole, or not at all, keeps the invariant |
| `BufferCalls.ReclaimMeans` | linux/fs/buffer.c:2340-2400 | a page is given back exactly when every buffer of it is unused, clean, unlocked and unprotected; then all of them are gone from every list and chain and no other changes; otherwise nothing changes |
| `BufferCalls.OnlyIdleLeave` | linux/fs/buffer.c:2340-2400 | a buffer that leaves the cache in any step was unused, clean, unlocked and unprotected, with all of its page |
| `BufferCalls.DirtyKept` | linux/fs/buffer.c:978-1166 | no step but marking or forgetting it takes a dirty buffer out of the cache, cleans it or gives it to another block |
| `BufferCalls.DirtyLasts` | linux/fs/buffer.c:978-1166 | so along every run getblk still returns it for its block |
| `BufferCalls.RefileMeans` | linux/fs/buffer.c:1106-1122 | a refiled buffer stands on the list its state calls for, protected before dirty before locked before clean, and on no other |
| `BufferCalls.BforgetMeans` | linux/fs/buffer.c:1149-1166 | the last reference to an unlocked buffer frees it: unhashed, clean, last on the free list of its size; otherwise only the count changes |
| `BufferCalls.GetBlkTakes` | linux/fs/buffer.c:990-1026 | for a block that is not cached getblk takes the first free buffer of the size, clean and with one user, and touches no other |
| `BufferCalls.GrowMeans` | linux/fs/buffer.c:2248-2298 | a page of new buffers, all free and ahead of the old ones; no other buffer changes |
| `BufferRuns.GetBlkHit` | linux/fs/buffer.c:978-988 | getblk returns the cached buffer of the block when there is one |
| `BufferRuns.GetBlkMiss` | linux/fs/buffer.c:990-1026 | otherwise it makes one out of a free buffer, and gives up for a round only when there is none |
| `BufferRuns.ApplyKeepsInv` | linux/fs/buffer.c:424-545 | every step keeps the invariant |
| `BufferRuns.ReachableUnique` | linux/fs/buffer.c:978-1026 | in every reachable state at most one buffer is hashed for a device, block and size, and getblk returns it |
| `BufferRuns.ReachableLists` | linux/fs/buffer.c:442-524 | in every reachable state lists are disjoint and without repetition, free buffers are not hashed and on the list of their size, hashed buffers on the LRU list they name |
| `BufferRuns.ReachableCounts` | linux/fs/buffer.c:442-471 | in every reachable state the counters of an LRU list are its length and the sum of its sizes |
| `BufferTable.BufferTable.LinkLast` | linux/fs/buffer.c:442-456 | the pointer assignments append to the list |
| `BufferTable.BufferTable.UnlinkFrom` | linux/fs/buffer.c:458-485 | the pointer assignments delete from the list |
| `BufferTable.BufferTable.Search` | linux/fs/buffer.c:532-545 | the loop along the hash chain |
| `BufferTable.BufferTable.GetBlock` | linux/fs/buffer.c:978-1026 | one round of getblk, in place |
| `BufferTable.BufferTable.RefileBuffer` | linux/fs/buffer.c:1106-1122 | refile, in place |
| `BufferTable.BufferTable.ForgetBuffer` | linux/fs/buffer.c:1149-1166 | bforget, in place |
| `BufferTable.BufferTable.LinkBuffers` | linux/fs/buffer.c:2270-2288 | the insertion loop of grow_buffers |
| `BufferTable.BufferTable.GrowBuffers` | linux/fs/buffer.c:2248-2298 | grow_buffers, in place |
| `BufferTable.BufferTable.TryToFreeBuffers` | linux/fs/buffer.c:2354-2400 | try_to_free_buffers, in place: a page is given back exactly when all of its buffers are unused, clean, unlocked and unprotected |

## Left out

- PosixLocks: flock and lease entries, mandatory locking, `/proc/locks`, and lockd's private block list; offsets are 64-bit, locks are values in a list per inode rather than linked nodes.
- LockRanges.RangeExact: only the 64-bit form of the call; the 32-bit form adds one more bound.
- MessageSystem.MessageSystem.MsgSnd: reports a full queue; the sleeping senders are in MessageSenders and SenderQueues. Time stamps and process ids of the last sender and receiver are not kept.
- MessageText.Load: the split into a first piece and page-sized pieces is modelled, allocation failure and faults while copying are not.
- SemaphoreSet.SemaphoreSet.TryAtomicSemop: `sempid` is not kept, since the source does not restore it exactly; adjustments are unbounded integers rather than 16-bit ones.
- SemaphoreSet.SemaphoreSet.SemExit: one semaphore set per model; a process with adjustments in several sets, IPC_RMID and the lookup of sets by key are not part of this model.
- SemaphoreLost.ReachableAwake: holds along runs in which nobody sleeps in a vector that raises and lowers nothing, and nobody exits while on the queue; SemaphoreRace.LostWakeup and SemaphoreLost.DyingLoses show that it fails otherwise.
- DentryCache.DentryCache.Rename: permission checks and the filesystem's own rename enter as their outcome; the shrinking of the target's cached children before a rename is not modelled.
- DentryCache.DentryCache.Put: inode release and time stamps; the unused list is modelled only in SelectParent.
- Dcache.DropRef: whether a filesystem wants an unused dentry deleted is a set of dentries given with the call.
- PidRuns.ReachableDistinct: holds along runs in which get_pid misses no fork under way, which is the most the code allows; the tgid of threads is not kept.
- PidRuns.ApplyKeepsGap: setpgid and setsid follow `linux/kernel/sys.c`; setpgid's checks of who may change whom enter as their outcome.
- PipeProtocol.ReachableConserved: opening and closing ends are arbitrary changes of the two counts; signals, SIGPIPE and wake-ups are reduced to which call goes on when.
- PipeRing.Pipe.CopyFromUser: a fault stops the loop between chunks; PIPE_SIZE is one page of 4096 bytes.
- Resources.AllocateSound: unbounded addresses, so no wrap-around of `start + n - 1`; no alignment hook; any positive alignment rather than powers of two.
- ResourceTree.ResourceTree.RequestResource: nodes are values in a tree rather than linked structures, so release by address of the structure, `check_resource` and `check_region` are not modelled.
- FlatReloc.Relocator.RelocateAll: records are already decoded, words are 32 bits wide and records name different words. Several HI16 records before one LO16 are covered: all but the last stay as loaded.
- BufferTable.BufferTable.GetBlock: refilling the free list between rounds is left to other steps; hash chains are sequences, and the hash function is arbitrary.
- BufferTable.BufferTable.RefileBuffer: the dirty-buffer list of an inode.
- BufferTable.BufferTable.TryToFreeBuffers: writing out busy pages and trying again.
- BufferTable.BufferTable.GrowBuffers: allocation of the page and of the buffer heads; block sizes are powers of two from 512 on, as the size index demands.
- Disk I/O, bdflush, the page cache, ELF and a.out loaders, the scheduler, console, modules, ptrace and boot code: plumbing, or much easier than the parts above.
