# Verified models of the Linux Programming Interface programs

This project models the parts of the repository that carry real invariants, in Dafny, and proves
what they promise. There are two kinds of model.

**Concurrent programs** are state machines. Every kernel or library call (lock, unlock, wait,
signal, join, semaphore operation, queue operation, read, write, `mq_notify`) and every access to
shared data outside a critical section is one atomic step; a run is any sequence of enabled steps,
so a lemma about runs covers every interleaving. `SharedMemoryTransfer`, `Multijoin`,
`MqNotifySig`, `MqNotifyThread`, `FileServer`, `UnlockedCounter` and `LockedCounter` each prove an
inductive invariant, absence of deadlock, a bound on the length of every run (hence termination)
and the exact final result. `mq_notify` follows its description in chapter 3 of the XSH volume of
POSIX.1-2017: it fires once, when a message reaches an empty queue, and then deregisters.

**The vendored cmocka library** is sequential code that updates structures in place, and is
modelled that way: classes with `next` and `prev` pointers for the circular list and for everything
built on it (the symbol map, the call-order checker and the allocator's list of blocks), arrays for
the replace buffer and the raw memory blocks, methods with loops for the glob matcher and the group
runner. Each method is proved against a specification on sequences, and the lemmas are about that
specification. In the symbol map every object comes from malloc and goes to free: only an object
that is still live can be freed, nothing is known about the contents of a freed node, record or
entry, so that no proof can rest on reading one, and the live objects are at every moment exactly
those that are linked.

Where the code does not do what its documentation says, the code is modelled as it is, and the
exact condition under which the promise holds is proved:

- the glob matcher disagrees with its documentation exactly for patterns that end in two or more
  stars (`GlobMatch.CompleteIff`, `GlobMatch.RefusedMatches`);
- in-place replacement runs for ever exactly when the replacement equals the pattern, the pattern
  occurs and the first size check passes (`StrReplace.HaltsIffStops`);
- in-place replacement can replace what it has itself inserted exactly when the pattern can reoccur
  across the edges of the replacement, a condition on the two strings alone
  (`StrReplace.ClearIff`, `StrReplace.OnePassIff`); for the one caller, which puts a group name in
  place of `%g`, these are the names that are empty, begin with `g`, end with `%` or contain `%g`
  (`StrReplace.GroupNames`);
- both notification programs strand every message exactly when the queue is not empty at their
  first registration (`MqNotifySig.DrainsIffEmptyAtStart`, `MqNotifyThread.DrainsIffEmptyAtStart`);
- the threaded one keeps the order within each priority exactly when messages of equal priority
  are equal (`MqNotifyThread.OrderKeptIff`);
- the shared-memory reader's printed byte total is reliable exactly for empty input
  (`SharedMemoryTransfer.ReaderTotalReliableIffEmpty`); what it prints otherwise is a sum of chunk
  sizes, in which each late count adds its own chunk or the next one (`SharedMemoryTransfer.ReaderTotal`);
- the unlocked counter can print exactly the values from 2 to 2n
  (`UnlockedCounter.PrintableValues`);
- a run of the call-order checker dereferences NULL exactly when the calls so far would have passed
  the whole test, one expectation has a negative count, and the next call is to another function
  (`CallOrder.CrashIff`); some run does so exactly when the expectations can be met at all and one of
  them has a negative count (`CallOrder.CrashPossibleIff`);
- the leak check reports exactly the blocks made since the check point if and only if no earlier
  block that realloc has moved is left (`TestAllocator.ReportExact`, `TestAllocator.TestHeap.CheckUses`);
- the group runner reports a failure as skipped exactly when an earlier fixture's `skip()` is still
  pending (`GroupRunner.HiddenFailure`, `GroupRunner.PendingMeaning`).

Layout: one file per component. `CircularList.dfy` is shared by `SymbolMap.dfy`, `CallOrder.dfy` and
`TestAllocator.dfy`, and `GlobMatch.dfy` by `GroupRunner.dfy`; `ValueQueue.dfy` says what the queue of
one symbol hands out; `FileSessions.dfy` is what each client sees of the processes in
`FileServer.dfy`; `MqNotify.dfy` and `ThreadIncr.dfy` hold the modules for both variants of their
program; `Wrappers.dfy` holds one shared datatype. `dafny verify dfyconfig.toml` checks everything.

## Model

| member | source | states |
|---|---|---|
| UnlockedCounter.PrintableValues | threads/thread_incr.c:50-58 | over all schedules of the two threads, the values left in glob by complete runs are exactly the interval from 2 (n if n < 2) to 2n: both the bounds and a schedule for every value |
| UnlockedCounter.RunKeepsInv | threads/thread_incr.c:50-58 | the invariant behind the bounds holds after every schedule: no local exceeds the stores made, and a thread that has stored only loads positive values; each step of the schedule is one load or store |
| UnlockedCounter.UnlockedEnds | threads/thread_incr.c:50-58 | a run that has not finished can go on, no run is longer than 4n steps, and a run is finished exactly after 4n steps |
| UnlockedCounter.ReachHigh | threads/thread_incr.c:50-58 | for every j up to n, a complete schedule in which j increments of one thread are lost |
| UnlockedCounter.ReachLow | threads/thread_incr.c:50-58 | for every k below n, a complete schedule that ends at 2 + k |
| UnlockedCounter.OverflowFree | threads/thread_incr.c:9-9 | no run overflows the int counter if and only if 2n fits in an int |
| LockedCounter.LockedTotal | threads/thread_incr_mutex.c:51-71 | every run: mutual exclusion, no deadlock, at most 8n steps, finished exactly after 8n steps, and then glob is exactly 2n |
| Multijoin.ReachableStates | threads/thread_multijoin.c:42-99 | for any N and any interleaving with spurious wakeups: both counters are exact while the mutex is free, no wakeup is lost, a join only waits for a worker that never needs the mutex again, each pass leaves nobody TERMINATED and reaps at least one, nobody is joined twice, and an unfinished program can always move |
| Multijoin.FinalState | threads/thread_multijoin.c:62-101 | when main frees the table every worker has exited and been joined exactly once, after at most N passes |
| Multijoin.Terminates | threads/thread_multijoin.c:62-99 | every run is at most a fixed polynomial in N long, plus three steps for each spurious wakeup |
| Multijoin.NoDeadlock | threads/thread_multijoin.c:69-92 | in every state that satisfies the invariant and is not final, some step other than a spurious wakeup is enabled |
| Multijoin.StepKeepsInv | threads/thread_multijoin.c:117-147 | the inductive invariant is kept by every step of main, of any worker, and by spurious wakeups |
| MqNotifyThread.ReachableStates | pmsg/mq_notify_thread.c:44-75 | any number of handler threads and any sends: registered, or exactly one handler has yet to re-register, so registration is never refused; a non-empty queue has an active handler; every message sent is written, held or queued in as many copies; handlers take at most four steps per message; once all have finished everything was written exactly once |
| MqNotifyThread.DrainsIffEmptyAtStart | pmsg/mq_notify_thread.c:25-42 | the program always drains the queue if and only if the queue is empty at the first registration; otherwise nothing is ever written |
| MqNotifyThread.ReceivesFirst | pmsg/mq_notify_thread.c:61-61 | every receive of every handler takes a message with no message of higher priority in the queue and none of the same priority before it, and leaves the others as they were |
| MqNotifyThread.OrderKeptIff | pmsg/mq_notify_thread.c:58-67 | for any messages: every run that sends them and finishes writes each priority in order if and only if messages of equal priority are equal |
| MqNotifyThread.HoldBack | pmsg/mq_notify_thread.c:58-67 | for any messages and any one of them, a complete run that writes this one last |
| MqNotifyThread.StepRank | pmsg/mq_notify_thread.c:44-75 | every step but a send lowers the work left, and a send adds at most four steps |
| MqNotifySig.ReachableStates | pmsg/mq_notify_sig.c:88-112 | every reachable state: re-registration is never refused, a pending signal means deregistered, the receiver never sleeps over a non-empty queue without a pending signal, written + held + queued messages equal those sent and keep their order within each priority, at most five receiver steps per message, and at rest everything sent has been written |
| MqNotifySig.DrainsIffEmptyAtStart | pmsg/mq_notify_sig.c:76-91 | the receiver never comes to rest over a non-empty queue if and only if the queue is empty at the first registration; otherwise nothing is ever written |
| MqNotifySig.ReceivesFirst | pmsg/mq_notify_sig.c:100-100 | every receive takes a message with no message of higher priority in the queue and none of the same priority before it, and leaves the others as they were |
| MqNotifySig.DrainInOrder | pmsg/mq_notify_sig.c:99-106 | what the receiver writes when it drains the queue undisturbed: exactly the messages of the queue, from the highest priority to the lowest, and within each priority in order of arrival |
| MessageQueue.TakeKeepsOrder | pmsg/mq_notify_sig.c:100-100 | receiving the oldest message of the highest priority reorders no priority class |
| MessageQueue.NextIndex | pmsg/mq_notify_sig.c:100-100 | mq_receive takes a message of the highest priority, and the oldest of those |
| SharedMemoryTransfer.ReachableStates | svshm/svshm_xfr_writer.c:49-92 | every input, chunking, interleaving and EINTR pattern: the two semaphores plus the processes inside add up to one, the output is a prefix of the input, segment and semaphores are removed only after the reader is done, no deadlock, and a bound on every run that is linear in the input |
| SharedMemoryTransfer.CompletedTransfer | svshm/svshm_xfr_reader.c:36-69 | a completed transfer has copied the input exactly; the writer's byte total is exact, its xfrs is the reader's plus one, and the reader's byte total is exact if no late read of the size was overtaken by the writer |
| SharedMemoryTransfer.ReaderTotal | svshm/svshm_xfr_reader.c:36-53 | in every completed run there is one read more than late counts, only the last read is empty, the i-th late count comes after read i or i + 1, and the reader's byte total is the sum, over the late counts, of what the last read before each has returned |
| SharedMemoryTransfer.ReaderTotalEven | svshm/svshm_xfr_reader.c:36-53 | if all non-empty reads return k bytes, the reader's total is the size of the input, or k less |
| SharedMemoryTransfer.ReaderTotalReliableIffEmpty | svshm/svshm_xfr_reader.c:38-53 | the reader's byte total is right in every completed run if and only if the input is empty |
| SharedMemoryTransfer.LoseLastChunk | svshm/svshm_xfr_reader.c:38-53 | for every non-empty rest of the input, a run with full-sized reads that completes and reports too few bytes |
| SharedMemoryTransfer.NoDeadlock | svshm/binary_sems.c:25-46 | in every state that satisfies the invariant and is not complete, the writer or the reader can move |
| FileServer.ReachableStates | svipc/svmsg_file_server.c:48-70 | any number of clients and forked children in any interleaving: each child works for exactly one client, on the path this client asked for, and no client is served twice; a private queue holds only messages of that child, namely the chunks (1 to 8192 bytes) of the client's own file still to be received, then END, or one FAILURE; no child sends to a queue that is gone; an unfinished client can always go on, by a move of its own, of its child, or of the server while its request waits; every run ends |
| FileServer.ClientTotals | svipc/svmsg_file_client.c:58-83 | a finished client has failed if and only if its path cannot be opened; one that succeeded has received a prefix of its file in chunks, has counted exactly those bytes and one message per chunk plus END, and has the whole file if no read or send failed |
| FileServer.RunRefines | svipc/svmsg_file_server.c:48-70 | every run of clients and children that know each other only by queue id and path is a run of independent sessions, one per client, step for step |
| FileServer.ServeViews | svipc/svmsg_file_server.c:86-123 | every step of a child, which works from its own copy of the request, is one step of the session of the client whose id the request carries, and changes no other session |
| FileServer.TakeViews | svipc/svmsg_file_client.c:58-83 | every receive of a client is one step of its own session, and the message that ends the session is the last in the queue |
| FileSessions.SessionStep | svipc/svmsg_file_server.c:86-123 | the invariant of one client's session is kept by every step of its server child and of the client, including read and send errors |
| FileSessions.ClientTotals | svipc/svmsg_file_client.c:71-83 | in a session that succeeded, the client has the whole file if and only if no error kept bytes back |
| FileSessions.NoErrorsNothingLost | svipc/svmsg_file_server.c:101-108 | in a run without read and send errors no session loses a byte |
| StrReplace.StrReplace | extern/cmocka/src/cmocka.c:463-500 | the in-place loop on the buffer: result code, final text and replaced flag are those of the specification; a text without the pattern gives -1 and is not touched; something is replaced if and only if the pattern occurs and the first size check passes; 0 is returned if and only if the pattern occurred and no occurrence is left, and -1 with an occurrence left means that a replacement might not fit; nothing at or past src_len changes, and the loop ends |
| StrReplace.LoopMeaning | extern/cmocka/src/cmocka.c:476-499 | the final text is reached by leftmost replacements that each had room; 0 means none is left; -1 means an occurrence is left and the next replacement might not fit; the text stays shorter than the buffer |
| StrReplace.HaltsIffStops | extern/cmocka/src/cmocka.c:476-497 | the loop ends if and only if pattern and replacement differ, or the pattern does not occur, or the first size check fails |
| StrReplace.SameLengthMoves | extern/cmocka/src/cmocka.c:487-491 | with equal lengths every replacement moves the whole string strictly one way in lexicographic order |
| StrReplace.ReplacementUsesFuel | extern/cmocka/src/cmocka.c:482-497 | every replacement strictly lowers one natural number: the length, the room left, or the place in lexicographic order |
| StrReplace.ClearIff | extern/cmocka/src/cmocka.c:476-497 | no replacement ever touches text inserted by an earlier one, for all texts and buffer sizes, if and only if the pattern cannot reoccur across the edges of the replacement, which can be checked on the two strings |
| StrReplace.OnePassIff | extern/cmocka/src/cmocka.c:476-497 | one left-to-right pass leaves no occurrence behind in any text if and only if the pattern cannot reoccur |
| StrReplace.ClearIsReplaceAll | extern/cmocka/src/cmocka.c:476-497 | if the pattern cannot reoccur, rescanning from the start computes the usual replace-all |
| StrReplace.DisjointIsClear | extern/cmocka/src/cmocka.c:476-497 | a non-empty replacement that shares no character with the pattern is never touched again |
| StrReplace.GroupNames | extern/cmocka/src/cmocka.c:2454-2454 | for the pattern %g exactly the names that are empty, begin with g, end with % or contain %g are touched again |
| StrReplace.GroupRescanned | extern/cmocka/src/cmocka.c:2454-2454 | for every name like "group" and the text %%g: one pass gives %group, and the code gives grouproup |
| StrReplace.ReplaceInPlace | extern/cmocka/src/cmocka.c:487-491 | memmove and memcpy together replace one occurrence in the NUL-terminated text, inside the first src_len bytes |
| GlobMatch.StrMatch | extern/cmocka/src/cmocka.c:502-558 | the loop with recursion decides exactly the relation Accepts, and always terminates |
| GlobMatch.MatchNames | extern/cmocka/src/cmocka.c:506-508 | a null string or pattern matches nothing; otherwise exactly Accepts |
| GlobMatch.Sound | extern/cmocka/include/cmocka.h:2301-2304 | whatever the matcher accepts is a match in the documented sense |
| GlobMatch.RefusedMatches | extern/cmocka/include/cmocka.h:2301-2304 | a documented match is refused if and only if the pattern ends in two or more stars and the part before them matches the whole string but no proper prefix |
| GlobMatch.CompleteIff | extern/cmocka/include/cmocka.h:2301-2304 | a pattern is matched as documented on all strings if and only if it does not end in two or more stars |
| GlobMatch.GlobConcat | extern/cmocka/include/cmocka.h:2301-2304 | in the documented relation a pattern in two parts matches exactly the strings in two matching parts |
| CircularList.ListNode.constructor | extern/cmocka/src/cmocka.c:615-621 | a new head is an empty ring |
| CircularList.ListAdd | extern/cmocka/src/cmocka.c:640-648 | the four pointer writes append one node to the sequence of nodes, and touch only the head, the last node and the new one |
| CircularList.ListRemove | extern/cmocka/src/cmocka.c:652-662 | the two pointer writes remove exactly that node from the sequence; the node's own links stay |
| CircularList.ClosedUp | extern/cmocka/src/cmocka.c:656-657 | with the neighbours of a node joined, the remaining nodes form a well-linked ring in the same order |
| CircularList.ListFind | extern/cmocka/src/cmocka.c:702-713 | finds the first node whose value passes the test, or reports that there is none |
| CallOrder.ExpectFunctionCall | extern/cmocka/src/cmocka.c:1134-1152 | appends one expectation to the list of expectations |
| CallOrder.FunctionCalled | extern/cmocka/src/cmocka.c:1016-1089 | the walk over the circular list refines: skip the longest prefix of skippable entries for other functions, then match or fail; verdict and new list are exactly those |
| CallOrder.CountMatch | extern/cmocka/src/cmocka.c:1068-1071 | a match lowers the count, unlinks an entry at zero, turns -1 into skippable, and leaves skippable entries alone |
| CallOrder.RemoveSkippable | extern/cmocka/src/cmocka.c:866-879 | unlinking while walking keeps exactly the entries that still demand a call, in order |
| CallOrder.CountLeftovers | extern/cmocka/src/cmocka.c:919-937 | the reported number is the number of entries that still demand a call |
| CallOrder.CheckCalls | extern/cmocka/src/cmocka.c:590-594 | a sequence of calls against the linked list followed by the leftover check passes exactly the sequences of the specification, and tells at which call, if any, NULL is dereferenced |
| CallOrder.OrderMeaning | extern/cmocka/src/cmocka.c:1016-1089 | for any expectations, the sequences that pass are exactly those that fit an order of demanded calls with a growing set of always-allowed functions |
| CallOrder.PositiveCountsMeaning | extern/cmocka/include/cmocka.h:1443-1448 | with positive counts only, exactly one sequence passes: each function repeated its count, in order |
| CallOrder.AtLeastOnce | extern/cmocka/include/cmocka.h:1526-1538 | a count of -1 demands at least one call and allows any number |
| CallOrder.CrashIff | extern/cmocka/src/cmocka.c:1038-1042 | a run dereferences NULL at call i if and only if the calls before it would pass the whole test, exactly one expectation has a negative count, and call i is to another function |
| CallOrder.CrashPossibleIff | extern/cmocka/src/cmocka.c:1038-1042 | some run dereferences NULL if and only if the expectations can be met and exactly one of them has a negative count |
| CallOrder.PassableIff | extern/cmocka/src/cmocka.c:1016-1089 | some call sequence passes the test if and only if no entry that demands a call follows a negative-count entry for the same function |
| SymbolMap.AddSymbolValue | extern/cmocka/src/cmocka.c:769-800 | on the linked lists: the value is appended to the queue of its own path and every other queue is as before; entries are made as needed; no list is left empty, no name occurs twice, and no object is lost or in two places |
| SymbolMap.GetSymbolValue | extern/cmocka/src/cmocka.c:809-858 | on the linked lists: the head of the path's queue is handed out with its old count and the queue is popped, every other queue is as before; a used-up node is freed, and so is every entry whose list has become empty; the assertion that a value is present always holds; 0 and nothing changed if the path has no queue |
| SymbolMap.FindEntry | extern/cmocka/src/cmocka.c:702-713 | list_find by name: finds the entry if and only if the path goes on with this name |
| SymbolMap.RemoveAlways | extern/cmocka/src/cmocka.c:886-916 | unlinking and freeing while walking: below the given list every queue loses its first item exactly if that is an "always" value returned at least once, and every emptied entry is gone |
| SymbolMap.CountLeftovers | extern/cmocka/src/cmocka.c:943-981 | the number of entries with something below them |
| SymbolMap.EmptyRoot | extern/cmocka/src/cmocka.c:943-981 | the root list is empty if and only if no queue holds anything |
| SymbolMap.FreeBelow | extern/cmocka/src/cmocka.c:680-688 | list_free with its cleanup: everything below a list is freed, once, and nothing else |
| SymbolMap.OnlyRoot | extern/cmocka/src/cmocka.c:601-608 | of an emptied map only the head is still allocated |
| SymbolMap.TakeOut | extern/cmocka/src/cmocka.c:666-671 | list_remove_free unlinks and frees one node and leaves all other lists of the map as they were |
| SymbolMap.MockTable.constructor | extern/cmocka/src/cmocka.c:561-569 | the empty table, with empty histories, satisfies the invariant |
| SymbolMap.MockTable.WillReturn | extern/cmocka/src/cmocka.c:1092-1102 | queues one value; a zero count is refused, changes no list and leaves one record behind that is never freed; the invariant over the whole history is kept |
| SymbolMap.MockTable.Mock | extern/cmocka/src/cmocka.c:985-1013 | hands out, per path, the next value of the expansion of everything ever queued there, or fails exactly when there is none; a record is freed exactly at its last use, after it is read |
| SymbolMap.PutKeepsOrder | extern/cmocka/src/cmocka.c:769-800 | after any history, an add keeps every path's answers equal to the expansion of what was queued |
| SymbolMap.GetKeepsOrder | extern/cmocka/src/cmocka.c:809-858 | after any history, a get keeps every path's answers equal to the expansion of what was queued |
| SymbolMap.MockTable.LeftoverCheck | extern/cmocka/src/cmocka.c:572-588 | the check passes if and only if every path's queue is empty or is a single item with count below -1 |
| SymbolMap.MockTable.Teardown | extern/cmocka/src/cmocka.c:601-608 | afterwards nothing of the map is allocated but its head |
| ValueQueue.NthIsHead | extern/cmocka/src/cmocka.c:838-844 | the value handed out by the k-th get is value number k of the run-length expansion of the queue |
| TestAllocator.Layout | extern/cmocka/src/cmocka.c:2078-2096 | the overflow assertion passes if and only if the size does not wrap; then the address is aligned and header, guard, data and guard lie in this order inside the raw block |
| TestAllocator.TestHeap.Malloc | extern/cmocka/src/cmocka.c:2071-2104 | a fresh block with intact guards and data that is all 0xBA is appended to the tracked blocks; a size that overflows is refused |
| TestAllocator.TestHeap.Free | extern/cmocka/src/cmocka.c:2121-2163 | succeeds if and only if the sixteen bytes on either side of the data are all 0xEF; then exactly this block is untracked and its memory is all 0xCD, otherwise nothing changes |
| TestAllocator.TestHeap.Realloc | extern/cmocka/src/cmocka.c:2167-2204 | keeps the first min(old, new) bytes, sets the others to 0xBA and the old memory to 0xCD, and keeps the number of tracked blocks; fails exactly if one of the sixteen bytes on either side is not 0xEF or the size overflows, and a corrupt guard then leaves the new block tracked |
| TestAllocator.TestHeap.WriteThenFree | extern/cmocka/example/allocate_module.c:45-55 | one byte written anywhere from sixteen bytes before the data to sixteen bytes after it, then free: the write is reported if and only if it is outside the data and is not 0xEF |
| TestAllocator.TestHeap.WriteThenRealloc | extern/cmocka/src/cmocka.c:2167-2204 | the same for realloc with any possible size |
| TestAllocator.TestHeap.CheckPoint | extern/cmocka/src/cmocka.c:2208-2210 | the check point is the node of the last tracked block, or the list head when there is none |
| TestAllocator.TestHeap.CountAfter | extern/cmocka/src/cmocka.c:2215-2238 | the reported number is the number of live blocks after the check point |
| TestAllocator.TestHeap.FreeAfter | extern/cmocka/src/cmocka.c:2242-2259 | frees the blocks after the check point one by one; it stops at the first corrupt guard, and then exactly the blocks before that one are gone; without one the tracked blocks are the prefix up to the check point |
| TestAllocator.TestHeap.FailIfLeaked | extern/cmocka/src/cmocka.c:2263-2272 | reports exactly the blocks after the check point and frees them up to the first corrupt guard; if all guards are intact the list is the prefix up to the check point again |
| TestAllocator.TestHeap.CheckUses | extern/cmocka/src/cmocka.c:2208-2272 | over any sequence of malloc, free and realloc that does not free or move the check point block, the reported number is that of the blocks made since and not freed plus that of the earlier blocks moved by realloc |
| TestAllocator.ReportExact | extern/cmocka/src/cmocka.c:2208-2272 | the reported number is that of the blocks made since if and only if no moved earlier block is left |
| TestAllocator.MovedReported | extern/cmocka/src/cmocka.c:2167-2204 | two blocks from before and one realloc: nothing was made since, and one block is reported |
| TestAllocator.TrackAllCounts | extern/cmocka/src/cmocka.c:2071-2204 | after any sequence of uses the blocks made since are the mallocs less the releases of blocks made since, whether or not realloc moved them in between, and the moved earlier blocks are the moves less the releases of moved blocks |
| TestAllocator.TrackDivided | extern/cmocka/src/cmocka.c:2167-2204 | each such use keeps the blocks from before the check point in front of all others, and the check point as the last of them |
| GroupRunner.Select | extern/cmocka/src/cmocka.c:3102-3131 | the selected tests are the in-order subsequence that passes both filters |
| GroupRunner.SelectionMembers | extern/cmocka/src/cmocka.c:3102-3131 | a test is selected if and only if it has a name and some function, the filter is null or accepts the name, and the skip filter is null or does not |
| GroupRunner.StatusMeaning | extern/cmocka/src/cmocka.c:2992-3073 | the status of a test in a group, from what its functions do: an error if and only if setup or teardown is not good; otherwise passed if and only if the function is good, skipped if and only if it is not and calls skip() or an earlier skip() is pending, and failed in all other cases |
| GroupRunner.FailedSetupEndsTest | extern/cmocka/src/cmocka.c:3006-3025 | after a failed setup, function and teardown have no effect on the status or the skip flag |
| GroupRunner.RunGroup | extern/cmocka/src/cmocka.c:3075-3253 | executed = selected = passed + failed + skipped + errors when group setup succeeds; unless leaked blocks make it exit, it returns failed + errors; it returns 0 if and only if nothing leaked, group setup succeeded and every selected test has a good setup and teardown and a function that is good, skips, or fails while a skip is pending |
| GroupRunner.HiddenFailure | extern/cmocka/src/cmocka.c:3035-3044 | a test is reported as it deserves, except that a failure is reported as skipped exactly when the skip flag is still raised from before |
| GroupRunner.PendingMeaning | extern/cmocka/src/cmocka.c:3006-3067 | the flag is still raised exactly when the caller, or an earlier test's setup or teardown, raised it and no test in between failed or skipped |

## Left out

- System-call failures that print and exit: a run simply ends there, except for EINTR in `reserveSem`, EAGAIN in the drain loops, and the server child's read and send errors.
- Argument parsing, all printing, and cmocka's output formats: no behaviour worth proving.
- Message capacity of POSIX and System V queues: a full queue only delays senders, which the models already allow to be slow.
- The separate write of the newline in the notification programs: only the message body is recorded as written.
- A failing msgsnd of END or FAILURE in the file server: the client then waits for ever, and the model has no such step.
- Semaphore and segment creation in the shared-memory programs: the model starts after the two semaphores are initialised and the segment exists; a leftover set from an earlier run is not modelled.
- setjmp/longjmp in cmocka: a failed check is an outcome of the operation instead of a jump.
- SymbolMap.FreeBelow: the lists below an entry are freed before the entry is unlinked, where the C code unlinks it first; nothing can tell the difference.
- CallOrder.CountMatch: entries of the call-order list are unlinked; that their memory is freed is modelled only in `SymbolMap`.
- Other processes in the notification programs: no other process receives from the queue or sends SIGUSR1.
- SymbolMap.MockTable.WillReturn: models the queueing of return values; `_expect_check` queues parameter checks in the same way but does not refuse a zero count.
- Source locations in records, and the value checks applied to parameters: only which record is used and when it is freed is modelled.
- TestAllocator.Layout: the bit mask that aligns the address is written as rounding down to a multiple of 8, and sizes are those of a 64-bit system.
- Null arguments of `_test_free` and `_test_realloc`, and `_test_calloc`: one-line wrappers around what is modelled.
- TestAllocator.TestHeap.FreeAfter: the check point node must still be linked; the code otherwise follows a stale pointer.
- TestAllocator.TestHeap.CheckUses: leaves out uses that free or move the check point's own block, after which the code follows a stale pointer.
- Group runner: leak and leftover checks around each test are part of the given behaviour of its function, and how many blocks the group leaves allocated is given; elapsed time is not modelled.
- Sockets, pipes, file I/O, file locks, POSIX semaphores and shared memory, mmap, signals, users, time: thin wrappers whose behaviour lies in the kernel; they would add only easy members.
