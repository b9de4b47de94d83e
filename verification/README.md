# The core of libusb, modelled and proved in Dafny

libusb lets programs talk to USB devices from user space. This project models the parts of it
that are hardest to get right and proves what they are there for. Line numbers are those of the
repository's copy of libusb 1.0.30.

| Files | What they model |
|---|---|
| `EventProtocol`, `EventProofs`, `EventPasses` | how any number of threads share one event loop: events lock, waiters, event pipe, closers, completion queue, poll array |
| `LockOrder`, `LockUse` | the order in which every API call takes the library's locks |
| `TransferProtocol`, `TransferProofs`, `TransferSteps` | a transfer between submission, cancel, timeout, completion and disconnect |
| `BulkSplit`, `BulkAccounts` | Linux bulk and interrupt transfers in either direction: cutting into requests (URBs), counting them back, reporting |
| `BulkUrbs`, `BulkHistory` | the data of such a transfer to the host: reaping, closing holes |
| `BulkReports` | what such a transfer reports, told by what the kernel and the user did |
| `BulkMoves` | when handing requests back moves bytes in the user's buffer, in either direction |
| `BulkDriver` | the code for all of this, on its own fields |
| `IsoUrbs`, `IsoReports`, `IsoDriver` | the same for isochronous transfers and their packet results |
| `Descriptors`, `ConfigParser`, `ConfigProofs` | the parser of configuration descriptors, with a serializer as its partner |
| `ConfigErrors`, `ConfigCuts` | which bytes the parser rejects and where it ends; what it makes of bytes that are cut off |
| `ProbeSequence`, `HashTable` | the Windows table that turns device identities into session ids |
| `DeviceRefs`, `DeviceRuns`, `DeviceLog` | device reference counts and messages over whole runs |
| `HotplugExit`, `HotplugSurvivors`, `HotplugTeardown`, `DeviceOrder` | the teardown of a context: who is freed, who stays on the list |
| `Timeouts` | deadlines, the sorted list of transfers in flight, and how long the event loop sleeps |
| `PollFds` | the array handed to poll and what is reported from it |
| `IntrusiveList` | the circular linked lists under all of the above, as pointers |
| `Utf8Copy` | copying a device string without cutting a character in two |
| `Wrappers`, `Sequences`, `Integers` | optional values, sequences of distinct numbers, the int of C |

## How it is built

Protocols between threads (`EventProtocol`, `TransferProtocol`, `DeviceRuns`) are state machines
over an unbounded set of threads or devices. A step is one lock operation or one critical section;
a lemma about a run holds for every run of any length. Locks and the condition variable are
primitives; spurious wake-ups are allowed.

Code that changes fields in loops (`BulkDriver`, `IsoDriver`, `ConfigParser`, `HashTable.Table`,
`HotplugTeardown.Context`, `Timeouts.FlyingTransfers`, `PollFds.Context`, `IntrusiveList`,
`Utf8Copy`) keeps that form: methods on the same fields, each proved to leave exactly the state that
a specification function gives, and the promises are lemmas about those functions.

What lies outside the library enters as parameters: whether an allocation succeeds, what a system
call answers, what the clock says, which callback does what. The assumptions about it are these.

- A request handed to the kernel comes back at most once, and an overflow occurs only on the last one
  outstanding (`BulkAccounts.MayReturn`); what is proved about counting, freeing and reporting needs no
  more. That every byte moved lies inside the buffer needs that a request brings no more than it has
  room for. The order of the data needs the other clauses of `BulkUrbs.Returns`: requests that carry
  data come back in the order of submission, and so do all while nothing abnormal has happened; after a
  stall or a lost device none carries data. Isochronous requests may come back in any order.
- One thread at a time submits a given transfer, and only the owner of the events lock reaps and
  reports.
- Connects and disconnects of a hotplug backend are serialized, and a device is attached once.
- The configuration has no OS timer.

## What the proofs found

- The documentation (io.c:1055-1059 and 2010) says that a completed transfer wakes the threads
  waiting for events. The code wakes them only when the events lock is released
  (`EventProofs.CallbackWakesNobody`), and there is a run in which a thread sleeps on although a
  callback has set its flag (`EventProofs.SleepsOnWithItsFlagSet`). No wake-up is lost all the same.
- A transfer callback that calls libusb_handle_events ends up waiting for a lock its own thread holds
  (`LockOrder.CallbackMustNotHandleEvents`). So does, on Linux, the callback of a transfer reaped by the
  backend that opens or closes a device: op_handle_events holds open_devs_lock over its callbacks, and
  libusb_open and libusb_close take it again (`LockOrder.CallbackMustNotClose`). Freedom from deadlock
  is proved for callbacks that do neither, and every other callback has a run that ends in deadlock
  (`LockOrder.ForbiddenCallDeadlocks`).
- A configuration with extra descriptors but no interface does not survive serializing and parsing;
  every other tree the parser returns does (`ConfigProofs.NormalForm`).
- A wait of more than 2147483.647 seconds turns into one without end, and a longer one may be far too
  short: 4294968 seconds become 704 milliseconds. The number of milliseconds is an int, taken to wrap
  around (`Timeouts.SleepIsExact` and `Timeouts.LimitIsExact` have the exact bound).
- The length check of an isochronous transfer compares a 32-bit total as a signed number. Packets that
  add up to 2 to the 31 or more may be accepted, and then some request always ends beyond the buffer
  (`IsoUrbs.LengthCheckExact`): 21846 packets of 98304 bytes are accepted for any buffer
  (`IsoUrbs.TooManyLargePackets`).
- An overflow on any request but the last one outstanding would free all of them while the kernel still
  holds some (`BulkAccounts.OverflowMustBeLast`); the code's comment says that the kernel never does so.
- When a transfer is being torn down, bytes are moved also inside the buffer of an OUT transfer. The
  buffer is certain to stay as it was exactly if the transfer is a single request
  (`BulkMoves.BufferKeptExactly`); with more, a cancel after which request 0 comes back empty and
  request 1 with a byte changes it (`BulkMoves.CancelledMoves`).
- The results of isochronous packets stand at their own packets exactly when the requests come back
  in the order of submission (`IsoUrbs.ResultsInPlace`).
- An isochronous transfer that is neither cancelled nor failed midway reports COMPLETED exactly if the
  request reaped last was in order (`IsoUrbs.IsoCompletedMeans`). An error of an earlier one is not
  reported: with 129 packets, request 0 in error and then request 1 without are COMPLETED
  (`IsoUrbs.EarlierErrorIsLost`).
- The teardown of a context is to leave devices that are still referenced on the list. It takes one off
  that was walked before a device below it under a stated condition (`HotplugSurvivors.TakenAt`,
  `HotplugSurvivors.ParentInFront`). As a device is put on the list in front of its parent, this does
  not happen (`DeviceOrder.SurvivorsStay`).
- A descriptor registered twice and removed once may still be reported
  (`PollFds.NoneReportedWhateverPollSays` has the exact condition on what is registered and removed).
- Splicing an empty list leaves the head in disorder (`IntrusiveList.SpliceFront`); the one caller
  checks.

## Model

| member | source | states |
|---|---|---|
| EventProofs.NoLostWakeUp | src/libusb/libusb/io.c:1800-1870 | in every run, whenever a thread sleeps on event_waiters_cond some thread still owes the broadcast |
| EventProofs.DebtOutlivesSleep | src/libusb/libusb/io.c:1858-1870 | a thread that owes a broadcast keeps owing it for as long as the sleeper stays parked, so the sleeper is woken by it |
| EventProofs.NoStaleWait | src/libusb/libusb/io.c:2352-2406 | no thread commits to polling or to sleeping for a completion flag that is already set |
| EventProofs.PipeHoldsOneSignal | src/libusb/libusb/io.c:2119-2181 | the event pipe holds exactly one signal if a flag is pending and none otherwise, so it is never read empty |
| EventProofs.DeviceCloseCountsClosers | src/libusb/libusb/core.c:1639-1669 | device_close counts the closers between announcement and retirement, and its flag is set exactly when there is one |
| EventProofs.CloserInterruptsPoll | src/libusb/libusb/core.c:1639-1669 | while a closer waits for the events lock no handler can block in poll: the pipe is readable, in front of the array, and poll cannot time out |
| EventProofs.CloserGoesFirst | src/libusb/libusb/io.c:1804-1817 | in every run, while some closer is announced, no thread that has not passed the test of device_close gets the events lock: a closer is overtaken only by threads that had passed it |
| EventProofs.CompletionsAreFifo | src/libusb/libusb/io.c:2150-2175 | signalled transfers reach the backend once and in order, also across an error that puts the rest back; the flag is set exactly when the queue is not empty outside a drain |
| EventProofs.PollArrayIsCurrent | src/libusb/libusb/io.c:2224-2245 | while EVENT_SOURCES_MODIFIED is clear the cached poll array is the list of event sources in order, the internal event first |
| EventProofs.OneEventHandler | src/libusb/libusb/io.c:1800-1870 | at most one thread holds the events lock, and event_handler_active is set only while it does |
| EventProofs.CallbackWakesNobody | src/libusb/libusb/io.c:1867-1869 | in every run a sleeping thread, also one whose flag a callback has just set, stays asleep except for a broadcast or its own timeout or spurious wake-up, whatever the documentation says; the thread that returned from the callback still owes the broadcast |
| EventProofs.SleepsOnWithItsFlagSet | src/libusb/libusb/io.c:1858-1870 | a run that ends with the return of a callback that set the flag of a thread, which sleeps on |
| EventProofs.InvRun | src/libusb/libusb/io.c:2352-2406 | every state of every run keeps the locks, the pipe, the closers, the debts, the queue and the poll array in order |
| EventProofs.InvStep | src/libusb/libusb/io.c:2211-2290 | each step of any thread keeps all of that |
| EventProofs.PipeStep | src/libusb/libusb/io.c:1763-1779 | every critical section on event_flags keeps the pipe in step with the flags |
| EventProofs.ClosersStep | src/libusb/libusb/core.c:1639-1669 | every step keeps device_close equal to the number of announced closers |
| EventProofs.BroadcastStep | src/libusb/libusb/io.c:1858-1870 | every step keeps a debtor for each sleeper: only a broadcast pays the debt, and it leaves no sleeper |
| EventProofs.FreshStep | src/libusb/libusb/sync.c:36-70 | every step keeps committed waiters unfinished: flags are set only under both locks a waiter checks under |
| EventProofs.QueueStep | src/libusb/libusb/io.c:2150-2175 | every step keeps what was signalled equal to what was handed over, what is being drained and what is queued |
| EventProofs.PollArrayStep | src/libusb/libusb/io.c:2670-2732 | adding or removing a source marks the array stale, and only rebuilding clears the mark |
| EventPasses.ThreadsGoOn | src/libusb/libusb/io.c:2352-2406 | at every point of every run a thread can go on unless it waits for a lock that another one holds |
| EventPasses.PollReturns | src/libusb/libusb/io.c:2247-2290 | poll can time out exactly if no flag is pending, and returns without events of the backend exactly if one is |
| EventPasses.WaitersReturn | src/libusb/libusb/io.c:2375-2400 | a thread comes out of waiting to try again exactly if it saw that nobody handles events; otherwise its flag was set or it has slept |
| EventPasses.FlagsComeFirst | src/libusb/libusb/io.c:2262-2290 | a pass deals with the pending flags first, if there are any |
| EventPasses.PassServes | src/libusb/libusb/io.c:2262-2290 | a pass ends with the events of the backend exactly if poll reported some and no completed transfer made the backend fail, which stops the drain; only who locked events by hand keeps the lock |
| EventPasses.DrainsAll | src/libusb/libusb/io.c:2150-2175 | unless the backend fails, a drain hands over all that was queued when it began; what is left is put back in front |
| EventPasses.LockStays | src/libusb/libusb/io.c:1840-1870 | after libusb_lock_events a thread waits for the lock or owns it until it calls libusb_unlock_events |
| EventPasses.FlagsTell | src/libusb/libusb/io.c:2119-2146 | an interrupt, a deregistration and hotplug messages are pending exactly from when they are posted until the next trigger is handled |
| EventPasses.SourcesTell | src/libusb/libusb/io.c:2224-2245 | the removed sources not yet freed are those removed since the last rebuild of the poll array, and the array is what that has left |
| LockOrder.NoDeadlock | src/libusb/libusb/os/linux_usbfs.c:2766-2827 | in no run of any number of threads, whose callbacks do only what they may where they are called, is any set of threads deadlocked on events_lock, open_devs_lock, event_waiters_lock, flying_transfers_lock, the transfer locks and event_data_lock |
| LockOrder.OneTransferLock | src/libusb/libusb/io.c:2838-2868 | no thread ever holds the locks of two transfers |
| LockOrder.ThreadRanked | src/libusb/libusb/libusbi.h:388-391 | every sequence of API calls takes these locks upward in one fixed order |
| LockOrder.SubmitRanked | src/libusb/libusb/io.c:1504-1568 | the a-b release order of submit and its failure path respect the order |
| LockOrder.CancelRanked | src/libusb/libusb/io.c:1617-1638 | cancel takes the transfer's lock alone, or above flying_transfers_lock when called by a timeout |
| LockOrder.WalkRanked | src/libusb/libusb/core.c:1557-1595 | a walk over the flying list takes one transfer's lock at a time |
| LockOrder.CloseRanked | src/libusb/libusb/core.c:1557-1599 | closing a device, which walks the list and then takes open_devs_lock, respects the order where it is allowed |
| LockOrder.HandlingRanked | src/libusb/libusb/io.c:1696-1727 | completions, timeouts, reaps and disconnects inside event handling respect the order; the latter two happen under open_devs_lock, and a reap that leaves its transfer pending takes the transfer's lock alone |
| LockOrder.HandleRanked | src/libusb/libusb/io.c:2352-2406 | handling events, as the owner of the events lock or as a waiter, respects the order |
| LockOrder.TopRanked | src/libusb/libusb/io.c:2838-2868 | every API call made with no lock held, and every number of rounds of a disconnect, respects the order |
| LockOrder.RunOrdered | src/libusb/libusb/io.c:1504-1568 | in every run each lock has one holder and every thread still respects the order |
| LockOrder.CallRuns | src/libusb/libusb/os/linux_usbfs.c:2766-2827 | a call inside a callback gets past every lock it takes exactly if it is one of those allowed there |
| LockOrder.HandlingRuns | src/libusb/libusb/io.c:1696-1727 | a pass of handle_events gets through on its own exactly if every callback in it makes only allowed calls |
| LockOrder.ForbiddenCallDeadlocks | src/libusb/libusb/io.c:1504-1568 | for every pass with a callback that makes any other call there is a run from a thread that has taken no lock to a deadlock |
| LockOrder.CallbackMustNotClose | src/libusb/libusb/core.c:1597-1599 | such a run for the callback of a reaped transfer that closes a device |
| LockOrder.CallbackMustNotHandleEvents | src/libusb/libusb/io.c:2352-2406 | such a run for a callback that calls libusb_handle_events |
| LockUse.CallTakes | src/libusb/libusb/io.c:1504-1638 | which locks every call takes, in which order, and no others |
| LockUse.CompletionTakes | src/libusb/libusb/io.c:1687-1758 | the same for the completion of a transfer; a cancelled one goes over the flying list once more |
| LockUse.HandleTakes | src/libusb/libusb/io.c:2352-2406 | the same for libusb_handle_events, with the events lock free and with it taken: a waiter that sleeps takes event_waiters_lock again, one that finds nobody handling starts over |
| TransferProofs.CancelledAtMostOnce | src/libusb/libusb/io.c:1617-1635 | however user cancels, timeouts and disconnects interleave, the backend's cancel is called at most once per submission |
| TransferProofs.OneCallbackPerSubmission | src/libusb/libusb/io.c:1687-1758 | every successful submission has had its one callback, or still has it coming, never both or two |
| TransferProofs.TimedOutMeansTimeoutCancelled | src/libusb/libusb/io.c:2052-2066 | a callback says TIMED_OUT exactly when the transfer was cancelled and the timeout made that cancel |
| TransferProofs.FlyingListIsExact | src/libusb/libusb/io.c:1538-1562 | a transfer is on the flying list exactly once while in flight and not at all otherwise, up to the short windows of submit and report |
| TransferProofs.RemovesOnlyWhatIsListed | src/libusb/libusb/io.c:1460-1473 | list_del is applied only to a transfer that is on the list |
| TransferProofs.DisconnectTakesOnlyPending | src/libusb/libusb/io.c:2817-2869 | a disconnect ends only transfers the backend still holds |
| TransferProofs.NextReport | src/libusb/libusb/io.c:2817-2869 | after a reap the next report of a transfer is the status the kernel gave, and after a disconnect found it pending, NO_DEVICE |
| TransferProofs.ReportsComeFrom | src/libusb/libusb/os/linux_usbfs.c:2742-2764 | every report of a status comes from such a reap or such a disconnect of the same transfer |
| TransferProofs.InvRun | src/libusb/libusb/io.c:1489-1570 | every state of every interleaving keeps list, flags, backend and histories of all transfers consistent |
| TransferProofs.InvStep | src/libusb/libusb/io.c:1489-1570 | each step of any thread keeps that for every transfer |
| TransferSteps.ThreadsGoOn | src/libusb/libusb/io.c:1489-1570 | at every point of every run a thread can go on unless it waits for flying_transfers_lock or its transfer's lock |
| TransferSteps.LockExcludes | src/libusb/libusb/io.c:1504-1568 | while a thread holds the lock of a transfer no other one changes its state flags or what the backend holds of it |
| TransferSteps.ListExcludes | src/libusb/libusb/io.c:1504-1562 | while a thread holds flying_transfers_lock no other one changes the list or marks a timeout |
| TransferSteps.TimesOutOnce | src/libusb/libusb/io.c:2068-2099 | the timeouts deal with transfers on the flying list only, and with each at most once between two submissions of it |
| TransferSteps.PicksFirst | src/libusb/libusb/io.c:2068-2099 | a timeout cancels, and a disconnect looks at, the transfer it has just picked from the list |
| TransferSteps.RecordTells | src/libusb/libusb/io.c:1617-1638 | in every run the record of a transfer tells its past since its submission began: whether its cancel was asked for in flight, that the backend was then called once, who made a cancel succeed, whether its timeout was dealt with, and whether its requests were marked |
| BulkSplit.UrbCountIs | src/libusb/libusb/os/linux_usbfs.c:2025-2032 | the count by division is the number of pieces of up to the unit's length, and one for an empty transfer |
| BulkSplit.UrbLengthIs | src/libusb/libusb/os/linux_usbfs.c:2067-2072 | the length chosen for each request is that of its piece |
| BulkSplit.UrbsTile | src/libusb/libusb/os/linux_usbfs.c:2060-2072 | each request starts where the one before ends and the last ends with the buffer |
| BulkSplit.UrbInside | src/libusb/libusb/os/linux_usbfs.c:2060-2072 | no request reaches beyond the buffer |
| BulkSplit.UrbsApart | src/libusb/libusb/os/linux_usbfs.c:2060-2072 | a request ends before any later one starts |
| BulkSplit.SplitMeans | src/libusb/libusb/os/linux_usbfs.c:1999-2032 | a transfer is one request under scatter-gather, or without a size limit and without continuation; any other is cut into pieces of 16384 bytes |
| BulkSplit.RequestMeans | src/libusb/libusb/os/linux_usbfs.c:2057-2082 | the place, the length and the three flags of every request, by direction, capabilities and position |
| BulkSplit.VerdictMeaning | src/libusb/libusb/os/linux_usbfs.c:2458-2500 | COMPLETED means no error status, NO_DEVICE that some request found the device gone; otherwise a stall, an overflow or an error of the bus, whichever the first request in error had |
| BulkSplit.DiscardOk | src/libusb/libusb/os/linux_usbfs.c:1919-1951 | a discard succeeds exactly if every request was discarded or had come back, and the last was discarded |
| BulkSplit.DiscardMeans | src/libusb/libusb/os/linux_usbfs.c:1919-1951 | a discard that fails reports the failure at the lowest number; EINVAL is one for the last request only |
| BulkAccounts.OneReportAtTheEnd | src/libusb/libusb/os/linux_usbfs.c:2526-2536 | in every history of a transfer in either direction, whatever is refused, cancelled, brought and in what order: num_retired counts reaped and never submitted requests, transferred is the sum of the lengths, and the memory is freed and the one report given exactly when the kernel holds none |
| BulkAccounts.CompletedMeansNoError | src/libusb/libusb/os/linux_usbfs.c:2448-2500 | in all these histories COMPLETED is reported exactly if no request reaped in normal mode had an error and the transfer was neither cancelled nor failed midway |
| BulkAccounts.HistoryStaysInside | src/libusb/libusb/os/linux_usbfs.c:2434-2446 | in all these histories, if no request brings more than it has room for, transferred and both ends of every move stay inside the buffer |
| BulkAccounts.StartedOk | src/libusb/libusb/os/linux_usbfs.c:2034-2136 | a submission makes the books right wherever the kernel refused |
| BulkAccounts.CancelledOk | src/libusb/libusb/os/linux_usbfs.c:2348-2373 | a cancel at any point keeps them |
| BulkAccounts.ReapedOk | src/libusb/libusb/os/linux_usbfs.c:2402-2537 | so does every reap |
| BulkAccounts.HeldCount | src/libusb/libusb/os/linux_usbfs.c:2121-2126 | the requests are allocated exactly while the kernel holds one, and num_retired reaches num_urbs exactly when it holds none |
| BulkAccounts.OverflowMustBeLast | src/libusb/libusb/os/linux_usbfs.c:2481-2486 | an overflow in normal mode frees the requests when the kernel holds none of them exactly if it comes on the last one |
| BulkAccounts.MoveStaysInside | src/libusb/libusb/os/linux_usbfs.c:2434-2446 | in whatever order requests come back, the bytes of one are inside the buffer before and after the move |
| BulkUrbs.DeliverKeeps | src/libusb/libusb/os/linux_usbfs.c:2060-2072 | the kernel's write for one request disturbs neither collected data nor those of another request |
| BulkUrbs.ReapKeeps | src/libusb/libusb/os/linux_usbfs.c:2434-2446 | moving the data of a reaped request up to the collected ones overwrites nothing of a request still held |
| BulkUrbs.ReapInOrder | src/libusb/libusb/os/linux_usbfs.c:2503-2520 | a reap that leaves the mode normal was full, or no data follows |
| BulkUrbs.AfterReapValid | src/libusb/libusb/os/linux_usbfs.c:2402-2537 | handle_bulk_completion on an IN transfer keeps books, data and order |
| BulkUrbs.AfterCancelValid | src/libusb/libusb/os/linux_usbfs.c:2348-2373 | so does a cancel at any point |
| BulkUrbs.StartedValid | src/libusb/libusb/os/linux_usbfs.c:2034-2136 | a submission establishes them wherever the kernel refused |
| BulkHistory.BufferHoldsReapedData | src/libusb/libusb/os/linux_usbfs.c:2434-2458 | at every point the buffer starts with the data of the reaped requests end to end, transferred is the sum of their lengths, and delivered data of other requests still stand |
| BulkHistory.AllDataInSequence | src/libusb/libusb/os/linux_usbfs.c:2419-2432 | at the end the buffer starts with everything the kernel delivered, in the order of submission and without holes |
| BulkHistory.DeliveredMeans | src/libusb/libusb/os/linux_usbfs.c:2060-2072 | the data of a request count as written exactly from when the kernel wrote them |
| BulkHistory.BooksOfHistory | src/libusb/libusb/os/linux_usbfs.c:2402-2537 | every history of an IN transfer with its data is one of the histories of `BulkAccounts` |
| BulkMoves.NoMoveExactly | src/libusb/libusb/os/linux_usbfs.c:2434-2446 | no reap in any history moves bytes to another place, exactly if the transfer is a single request |
| BulkMoves.BufferKeptExactly | src/libusb/libusb/os/linux_usbfs.c:2434-2446 | every reap in every history leaves any buffer as it is, exactly if the transfer is a single request |
| BulkMoves.CancelledMoves | src/libusb/libusb/os/linux_usbfs.c:2434-2446 | for every transfer of more requests a history that moves a byte: all accepted, cancelled, request 0 back empty, request 1 with a byte |
| BulkMoves.MoveChanges | src/libusb/libusb/os/linux_usbfs.c:2438-2444 | a move leaves every buffer as it is exactly if there is nothing to move or it stays where it is |
| BulkReports.NormalMeans | src/libusb/libusb/os/linux_usbfs.c:2402-2537 | a transfer stays in normal mode exactly while all requests were accepted, no cancel took effect, the bus did not fail and no request came short |
| BulkReports.ReportMeans | src/libusb/libusb/os/linux_usbfs.c:2402-2537 | for every history, the one report at the end: each of its values exactly under a condition on the cancels, the refusals and the statuses that came back |
| BulkDriver.BulkTransfer.ChooseSplit | src/libusb/libusb/os/linux_usbfs.c:1999-2032 | the capability branches and the division give the unit, the count and the flags of the split |
| BulkDriver.BulkTransfer.FillUrb | src/libusb/libusb/os/linux_usbfs.c:2041-2082 | each turn of the loop fills in the request of that number, with the flags of its direction |
| BulkDriver.BulkTransfer.SubmitAll | src/libusb/libusb/os/linux_usbfs.c:2041-2086 | the loop fills and submits requests up to the first the kernel refuses |
| BulkDriver.BulkTransfer.SubmitRefused | src/libusb/libusb/os/linux_usbfs.c:2088-2136 | a refusal of the first request fails the call; a later one leaves the earlier ones submitted and retires the rest |
| BulkDriver.BulkTransfer.Submit | src/libusb/libusb/os/linux_usbfs.c:1969-2139 | exactly the state of a started transfer, or an error and nothing allocated, for every refusal and failed allocation |
| BulkDriver.DiscardUrbs | src/libusb/libusb/os/linux_usbfs.c:1919-1951 | the backward loop returns what the answers amount to |
| BulkDriver.BulkTransfer.Cancel | src/libusb/libusb/os/linux_usbfs.c:2348-2373 | changes reap_action exactly when the discard succeeds and no bus error is being handled |
| BulkDriver.BulkTransfer.TakeSurplus | src/libusb/libusb/os/linux_usbfs.c:2434-2446 | surplus data end up right behind those collected, and transferred grows by them |
| BulkDriver.BulkTransfer.HandleAbnormal | src/libusb/libusb/os/linux_usbfs.c:2415-2456 | the abnormal path does to the books what a reap does, and moves the bytes of the request behind those collected |
| BulkDriver.BulkTransfer.HandleNormal | src/libusb/libusb/os/linux_usbfs.c:2458-2536 | the normal path does so through all its jumps, and leaves the buffer alone |
| BulkDriver.BulkTransfer.HandleCompletion | src/libusb/libusb/os/linux_usbfs.c:2402-2537 | handle_bulk_completion, in either direction, changes the books as a reap does and the buffer as `BulkMoves.Moved` says |
| BulkDriver.BulkTransfer.Reap | src/libusb/libusb/os/linux_usbfs.c:2402-2537 | whatever request the kernel holds comes back, it keeps the books right and stays inside the buffer |
| BulkDriver.BulkTransfer.ReapIn | src/libusb/libusb/os/linux_usbfs.c:2402-2537 | on an IN transfer it turns fields and buffer into those of the model's reap and keeps every invariant of the data |
| BulkDriver.ReapReady | src/libusb/libusb/os/linux_usbfs.c:2402-2537 | what the code needs of a returned request follows from what the kernel promises, and in normal mode its data already stand in their place |
| IsoUrbs.PacketsIn | src/libusb/libusb/os/linux_usbfs.c:2200-2230 | every request gets 128 packets, the last the remaining ones |
| IsoUrbs.IsoUrbsTile | src/libusb/libusb/os/linux_usbfs.c:2200-2230 | the requests tile the buffer in the order of the packets |
| IsoUrbs.TakenFits | src/libusb/libusb/os/linux_usbfs.c:2570-2573 | iso_packet_offset never passes the packet descriptors, and reaches their end when all requests are reaped |
| IsoUrbs.ResultsInPlace | src/libusb/libusb/os/linux_usbfs.c:2570-2573 | packet results stand at their own packets exactly if the requests come back in the order of submission |
| IsoUrbs.SwappedResults | src/libusb/libusb/os/linux_usbfs.c:2570-2573 | two requests that come back in the other order leave results at the wrong packets |
| IsoUrbs.IsoReapValid | src/libusb/libusb/os/linux_usbfs.c:2539-2656 | every reap stays inside the packet descriptors and keeps the accounts |
| IsoUrbs.IsoOneReportAtTheEnd | src/libusb/libusb/os/linux_usbfs.c:2611-2652 | num_retired counts reaped and never submitted requests; memory is freed and the one report given exactly when the kernel holds none |
| IsoUrbs.IsoCompletedMeans | src/libusb/libusb/os/linux_usbfs.c:2611-2652 | when the kernel holds none, the report is that of the last reap in the history; it is COMPLETED exactly if nothing abnormal happened and that request was neither in error nor lost |
| IsoUrbs.EarlierErrorIsLost | src/libusb/libusb/os/linux_usbfs.c:2611-2652 | a history of two requests, the first in error, that is reported as COMPLETED, whatever the outcomes of the packets |
| IsoReports.ModeMeans | src/libusb/libusb/os/linux_usbfs.c:2263-2286 | the mode is decided by the submission and by the first cancel that takes effect |
| IsoReports.IsoReportMeans | src/libusb/libusb/os/linux_usbfs.c:2611-2652 | the one report at the end: each of its values exactly under a condition on the cancels, the refusals and the request that came back last |
| IsoReports.ResultsStay | src/libusb/libusb/os/linux_usbfs.c:2568-2609 | what the user is told of a packet is what the kernel reported of it, and it stays |
| IsoReports.EveryPacketTold | src/libusb/libusb/os/linux_usbfs.c:2568-2609 | when all requests came back in the order of submission, every packet has been told its own outcome |
| IsoUrbs.LengthCheckExact | src/libusb/libusb/os/linux_usbfs.c:2164-2179 | of the accepted transfers, every request ends inside the buffer exactly if the packets add up to less than 2 to the 31 |
| IsoUrbs.LengthCheckRight | src/libusb/libusb/os/linux_usbfs.c:2164-2179 | with packets that add up to less, exactly the transfers that fit are accepted |
| IsoUrbs.LengthCheckSees | src/libusb/libusb/os/linux_usbfs.c:2164-2179 | whatever the packets add up to, the low 32 bits decide: accepted if they fit the buffer or their top bit is set |
| IsoUrbs.TooManyLargePackets | src/libusb/libusb/os/linux_usbfs.c:2164-2179 | 21846 packets of 98304 bytes are accepted for any buffer, and the last request ends beyond it |
| IsoUrbs.IsoUrbInside | src/libusb/libusb/os/linux_usbfs.c:2200-2230 | every request ends within the sum of the packet lengths |
| IsoDriver.IsoTransfer.Check | src/libusb/libusb/os/linux_usbfs.c:2155-2180 | accepts exactly the transfers whose packets and 32-bit total pass |
| IsoDriver.IsoTransfer.Fill | src/libusb/libusb/os/linux_usbfs.c:2198-2231 | the nested loops build every request of the split, or fail with an allocation |
| IsoDriver.IsoTransfer.Submit | src/libusb/libusb/os/linux_usbfs.c:2141-2286 | exactly the state of a started transfer, also when it was used before, and submitted exactly under the stated conditions |
| IsoDriver.IsoTransfer.Cancel | src/libusb/libusb/os/linux_usbfs.c:2348-2373 | changes reap_action exactly when the discard succeeds |
| IsoDriver.IsoTransfer.CopyResults | src/libusb/libusb/os/linux_usbfs.c:2568-2609 | writes the translated outcomes at the cursor and leaves all other descriptors alone |
| IsoDriver.IsoTransfer.FindUrb | src/libusb/libusb/os/linux_usbfs.c:2550-2561 | the loop finds the request by its address, or tells that there is none |
| IsoDriver.IsoTransfer.Reap | src/libusb/libusb/os/linux_usbfs.c:2539-2656 | handle_iso_completion turns the fields into those of the model's reap, inside the descriptors; a request it does not know changes nothing |
| ConfigProofs.RoundTrip | src/libusb/libusb/descriptor.c:341-456 | parsing what was serialized gives back the tree with no byte left over |
| ConfigProofs.SerializedBack | src/libusb/libusb/descriptor.c:341-456 | bytes that begin with a serialized tree parse to it whatever follows that adds nothing; a descriptor cut off behind it drops the extras at the end of the tree |
| ConfigCuts.CutInExtras | src/libusb/libusb/descriptor.c:95-124 | a serialized tree cut anywhere inside the extras at its end parses to the tree up to there: with the whole extras left if fewer than two bytes follow them, else with none |
| ConfigErrors.ParserReads | src/libusb/libusb/descriptor.c:341-456 | for arbitrary bytes and allocation failures the parser fails, or ends, where reading the descriptors one by one does |
| ConfigErrors.RejectsExactly | src/libusb/libusb/descriptor.c:60-456 | with memory, bytes are rejected exactly for a bad header or where reading arrives at a descriptor too short, a setting of more than 32 endpoints, or fewer than two bytes for an announced endpoint |
| ConfigProofs.NormalForm | src/libusb/libusb/descriptor.c:341-456 | whatever tree the parser returns for arbitrary bytes survives serializing and parsing, exactly unless it has extras but no interface |
| ConfigProofs.ParsedIsWellFormed | src/libusb/libusb/descriptor.c:170-456 | for arbitrary bytes: one number per interface, different numbers for neighbours, bNumEndpoints counts the endpoints and is at most 32, extras are whole unknown descriptors |
| ConfigProofs.StopsBetweenDescriptors | src/libusb/libusb/descriptor.c:60-137 | for arbitrary bytes, what is left over starts where a whole descriptor ends |
| ConfigProofs.OnlyNoMemory | src/libusb/libusb/descriptor.c:341-456 | a failing allocation never changes the tree: same result or NO_MEM |
| ConfigProofs.SerializedBytes | src/libusb/libusb/descriptor.c:341-456 | the serializer writes bytes if the fields fit theirs |
| ConfigProofs.ExtrasWithoutInterface | src/libusb/libusb/descriptor.c:384-417 | a concrete configuration with extras and no interface |
| ConfigProofs.EndpointGood | src/libusb/libusb/descriptor.c:52-138 | a parsed endpoint is well formed and nothing can be skipped behind it |
| ConfigProofs.EndpointBack | src/libusb/libusb/descriptor.c:52-138 | a serialized endpoint parses to itself, and without its extras if a descriptor is cut off behind it |
| ConfigProofs.InterfaceGood | src/libusb/libusb/descriptor.c:170-322 | parsed settings share a number, and what follows cannot continue the interface |
| ConfigProofs.InterfaceBack | src/libusb/libusb/descriptor.c:170-322 | serialized settings parse to themselves; if the bytes are cut off behind them, without the extras at their end |
| ConfigProofs.ScanResult | src/libusb/libusb/descriptor.c:95-120 | what the skipping loops pass over are whole unknown descriptors, all there are |
| ConfigParser.SkipExtras | src/libusb/libusb/descriptor.c:95-120 | the skipping loop ends where the specification says, inside the buffer |
| ConfigParser.Endpoint | src/libusb/libusb/descriptor.c:52-138 | parse_endpoint returns what the specification says, reading inside the buffer only |
| ConfigParser.Endpoints | src/libusb/libusb/descriptor.c:285-308 | so does the endpoint loop |
| ConfigParser.Body | src/libusb/libusb/descriptor.c:224-308 | so does the rest of a setting |
| ConfigParser.Interface | src/libusb/libusb/descriptor.c:170-322 | so does parse_interface |
| ConfigParser.OneInterface | src/libusb/libusb/descriptor.c:384-445 | so does a turn of the interface loop |
| ConfigParser.Interfaces | src/libusb/libusb/descriptor.c:384-451 | so does that loop |
| ConfigParser.Configuration | src/libusb/libusb/descriptor.c:341-456 | so does parse_configuration, and left is exactly the number of unread bytes |
| ProbeSequence.Prime | src/libusb/libusb/os/windows_common.c:134-134 | HTAB_SIZE is prime, as its comment demands |
| ProbeSequence.NoMultiple | src/libusb/libusb/os/windows_common.c:134-134 | so no product of two numbers below it is a multiple of it |
| ProbeSequence.SlotsDiffer | src/libusb/libusb/os/windows_common.c:234-242 | the probe sequence repeats no slot within 1021 steps |
| ProbeSequence.VisitsAll | src/libusb/libusb/os/windows_common.c:234-242 | it visits every slot |
| ProbeSequence.ReturnsToStart | src/libusb/libusb/os/windows_common.c:242-244 | it returns to its first slot after exactly 1021 steps |
| HashTable.MainHashIs | src/libusb/libusb/os/windows_common.c:207-209 | the main hash is the number with the digits 5381 and the characters to the base 33, modulo 2 to the 32 |
| HashTable.ProbeIs | src/libusb/libusb/os/windows_common.c:210-242 | the search starts at that modulo 1021, or at 1, and goes down by 1 to 1019 a step around the slots |
| HashTable.SearchMeans | src/libusb/libusb/os/windows_common.c:222-251 | the search ends at the string, at a free slot behind used ones, or has seen every slot in use |
| HashTable.FreeUnlessFull | src/libusb/libusb/os/windows_common.c:242-261 | it comes back to its start exactly when the table is full |
| HashTable.InternMeans | src/libusb/libusb/os/windows_common.c:196-273 | an interned string gets its id; another gets a slot that was free, or 0 exactly if the table is full or the copy fails |
| HashTable.InternValid | src/libusb/libusb/os/windows_common.c:253-267 | every call keeps the table valid: each string can be found from its first slot, once, and the count is right |
| HashTable.SameStringSameId | src/libusb/libusb/os/windows_common.c:183-195 | in every history a string that has an id gets the same id again |
| HashTable.DifferentStringsDifferentIds | src/libusb/libusb/os/windows_common.c:183-195 | different strings never share an id |
| HashTable.UsedSlotsStay | src/libusb/libusb/os/windows_common.c:253-267 | no slot in use is overwritten |
| HashTable.FailsOnlyWhenFull | src/libusb/libusb/os/windows_common.c:253-264 | a call returns 0 exactly if the string has no id yet and the table is full or the copy fails |
| HashTable.Table.Create | src/libusb/libusb/os/windows_common.c:149-171 | a new table is empty and valid; an existing one stays |
| HashTable.Table.MainHashOf | src/libusb/libusb/os/windows_common.c:198-211 | the loop computes the 32-bit hash over signed characters |
| HashTable.Table.ProbeOn | src/libusb/libusb/os/windows_common.c:229-250 | the collision loop terminates where the search of the specification does |
| HashTable.Table.Hash | src/libusb/libusb/os/windows_common.c:196-273 | htab_hash changes the table and returns exactly as specified; a null pointer gets 0 |
| DeviceRefs.UnrefCounted | src/libusb/libusb/core.c:1326-1369 | dropping a held reference, with all the frees it sets off up the tree, keeps every count equal to its holders |
| DeviceRefs.RefCounted | src/libusb/libusb/core.c:1310-1320 | so does taking one |
| DeviceRefs.FreedAreAncestors | src/libusb/libusb/core.c:1355-1368 | only the device and ancestors of it with a single reference are freed |
| DeviceRefs.HolderBelow | src/libusb/libusb/core.c:1355-1368 | every device that exists has a reference held to it or to a device below it |
| DeviceRefs.UnheldIsEmpty | src/libusb/libusb/core.c:1355-1368 | with nothing held no device is left |
| DeviceRuns.NoUseAfterFree | src/libusb/libusb/core.c:801-923 | in every run no operation a caller is entitled to uses a freed device, be it the one it names, its parent, that of an earlier submission, or that of a message |
| DeviceRuns.CountIsHolders | src/libusb/libusb/core.c:740-772 | at every point the count of a device is the number of its holders and children |
| DeviceRuns.LeavesOnce | src/libusb/libusb/hotplug.c:261-291 | a device is announced to have left at most once, and only after its arrival |
| DeviceRuns.NamedIsLive | src/libusb/libusb/hotplug.c:293-327 | no queued message and no entry of the device list names a freed device |
| DeviceRuns.InvRun | src/libusb/libusb/core.c:740-772 | every state of every run keeps counts, stages and messages consistent |
| DeviceRuns.SubmitKeepsCount | src/libusb/libusb/io.c:1496-1499 | submitting a transfer again swaps its device reference without freeing the device of the handle |
| DeviceRuns.TeardownIsReady | src/libusb/libusb/hotplug.c:185-234 | at any point of a run the teardown's conditions hold |
| DeviceLog.HoldersMayAct | src/libusb/libusb/core.c:801-923 | at every point of every run whoever holds on to a device may use it, and the backend may go on with its life |
| DeviceLog.QueueIsFifo | src/libusb/libusb/hotplug.c:261-327 | the queue gets every message that a notification allocates, in the order of the operations, and each is handled once, in that order |
| DeviceLog.Accounts | src/libusb/libusb/core.c:1310-1369 | what the application, the handles, the transfers and the backend hold on a device is what the calls so far add up to |
| DeviceLog.Life | src/libusb/libusb/core.c:740-772 | a device is newborn, listed, leaving or lost exactly according to how often it was created, attached, detached and reported, each at most once |
| DeviceLog.ParentStays | src/libusb/libusb/core.c:1355-1357 | as long as a device exists, its parent is the one it was given |
| DeviceOrder.SurvivorsStay | src/libusb/libusb/hotplug.c:218-224 | a teardown at any point of a run takes no device off the list that lives |
| DeviceOrder.OrderedRun | src/libusb/libusb/core.c:740-749 | in every run each listed device is in front of the listed devices above it |
| HotplugExit.StepList | src/libusb/libusb/hotplug.c:217-230 | a turn of the walk leaves the rest of the list untouched, so the saved next device is still linked |
| HotplugExit.StepWalking | src/libusb/libusb/hotplug.c:217-230 | and no device it frees is left on the list |
| HotplugExit.ParentsRemoved | src/libusb/libusb/hotplug.c:164-183 | exactly the ancestors with a single reference are taken off the list |
| HotplugExit.HeldStay | src/libusb/libusb/hotplug.c:164-183 | no device still referenced by the list is taken off, so the assertion on next_dev never fails |
| HotplugSurvivors.SoleChild | src/libusb/libusb/hotplug.c:166-176 | a device with a child has a single reference exactly if everything held at or below it is at or below that child |
| HotplugSurvivors.TurnTakes | src/libusb/libusb/hotplug.c:217-230 | the turn of a device takes off exactly the devices walked before it for which that holds at its turn |
| HotplugSurvivors.FrontStep | src/libusb/libusb/hotplug.c:217-230 | after every turn the devices walked that are still listed are exactly those that live and were not taken off |
| HotplugSurvivors.NoneTaken | src/libusb/libusb/hotplug.c:217-230 | if every device is listed in front of those above it, none is taken off |
| HotplugSurvivors.ParentInFront | src/libusb/libusb/hotplug.c:217-230 | a parent listed in front of a child that is held from outside is taken off although it lives |
| HotplugTeardown.Context.UnrefDevice | src/libusb/libusb/core.c:1326-1369 | the recursive decrement and free touches live devices only and has the specified effect |
| HotplugTeardown.Context.RecursivelyRemoveParents | src/libusb/libusb/hotplug.c:164-183 | takes the ancestors with a single reference off the list, never the saved next device |
| HotplugTeardown.Context.DropMessages | src/libusb/libusb/hotplug.c:202-214 | frees every message and drops the references of those that left |
| HotplugTeardown.Context.DropDevices | src/libusb/libusb/hotplug.c:216-231 | the loop reads the successor of a linked device only, drops the list's reference to each device, and leaves listed exactly those that live and were not taken off |
| HotplugTeardown.Context.Exit | src/libusb/libusb/hotplug.c:185-234 | a device survives exactly if it or a device below it is referenced from outside; listed are exactly those survivors that were not taken off; with nothing outside everything is freed and the list is empty |
| Timeouts.CalculateTimeout | src/libusb/libusb/io.c:1245-1263 | the stored deadline is exactly now plus the timeout, normalized, and never mistaken for an infinite one |
| Timeouts.LaterMeans | src/libusb/libusb/libusbi.h:284-289 | TIMESPEC_CMP compares the times and TIMESPEC_IS_SET tells zero |
| Timeouts.SubTimespec | src/libusb/libusb/libusbi.h:290-299 | TIMESPEC_SUB is the normalized difference |
| Timeouts.FlyingTransfers.Add | src/libusb/libusb/io.c:1395-1455 | inserts before exactly those that time out later, keeping the list sorted with infinite deadlines last |
| Timeouts.FlyingTransfers.Remove | src/libusb/libusb/io.c:1460-1473 | takes one transfer out and keeps the list sorted |
| Timeouts.FlyingTransfers.HandleTimeout | src/libusb/libusb/io.c:2052-2066 | marks one transfer as dealt with, and as timed out exactly if its cancel succeeds |
| Timeouts.FlyingTransfers.HandleTimeouts | src/libusb/libusb/io.c:2068-2099 | in spite of its early returns tries to cancel exactly the overdue transfers, in order, and leaves the others alone |
| Timeouts.FlyingTransfers.GetNextTimeout | src/libusb/libusb/io.c:2576-2625 | reports the time left of the earliest deadline still to be dealt with, or that there is none |
| Timeouts.PollTimeout | src/libusb/libusb/io.c:2247-2251 | the steps in int give the milliseconds rounded up, converted to int once |
| Timeouts.SleepIsExact | src/libusb/libusb/io.c:2247-2251 | with r ns left the sleep lasts from r - 999 to r + 999000 ns, exactly if the time left fits an int as milliseconds rounded up |
| Timeouts.LimitIsExact | src/libusb/libusb/io.c:2247-2251 | a limit given by the caller is slept for, rounded up to a millisecond, exactly if it fits in the same way |
| Timeouts.SleepWithinLimit | src/libusb/libusb/io.c:2303-2322 | for limits that fit, a sleep is never endless and never exceeds the limit by a millisecond or more |
| Timeouts.SmallerDecides | src/libusb/libusb/io.c:2303-2322 | the wait is the smaller of the time left and the limit, in microseconds |
| Timeouts.NeverLate | src/libusb/libusb/io.c:2303-2322 | a sleep that fits an int never lasts a millisecond past the earliest waiting deadline or past the limit |
| Timeouts.ExpiredMeans | src/libusb/libusb/io.c:2303-2322 | a deadline counts as passed exactly if less than a microsecond is left |
| Timeouts.LongTimeoutWaitsForever | src/libusb/libusb/io.c:2247-2251 | concrete waits: the first one without end, one of 4294968 s that lasts 704 ms, and a deadline that makes a wait endless |
| PollFds.Context.AllocEventData | src/libusb/libusb/os/events_posix.c:221-248 | the new array has the event sources in order, with nothing raised |
| PollFds.Context.WaitForEvents | src/libusb/libusb/os/events_posix.c:250-340 | num_ready is the number of raised backend entries that are left, none of a removed source if descriptors are distinct; event_triggered tells about the internal one, and the error paths change nothing |
| PollFds.Context.ClearRemoved | src/libusb/libusb/os/events_posix.c:311-330 | the nested loops silence one raised entry per removed source and keep the count |
| PollFds.RaisedIs | src/libusb/libusb/os/events_posix.c:262-309 | the recursive count of raised entries is the number of indices with events |
| PollFds.NoRemovedSourceReported | src/libusb/libusb/os/events_posix.c:311-330 | no removed source is reported exactly if none has more raised entries than removals |
| PollFds.NoneReportedWhateverPollSays | src/libusb/libusb/os/events_posix.c:311-330 | whatever poll answers, no removed source is reported, exactly if no removed descriptor is in the array more often than it was removed |
| PollFds.DistinctNoneRemoved | src/libusb/libusb/os/events_posix.c:311-330 | so with every descriptor registered once none is |
| PollFds.OthersStillReported | src/libusb/libusb/os/events_posix.c:311-330 | events of other sources all stay |
| PollFds.RegisteredTwice | src/libusb/libusb/os/events_posix.c:311-330 | a descriptor registered twice and removed once may be reported |
| IntrusiveList.Init | src/libusb/libusb/libusbi.h:208-211 | list_init makes an empty list |
| IntrusiveList.Add | src/libusb/libusb/libusbi.h:213-220 | list_add puts the entry at the front of the sequence |
| IntrusiveList.AddTail | src/libusb/libusb/libusbi.h:222-230 | list_add_tail puts it at the end |
| IntrusiveList.Rotate | src/libusb/libusb/libusbi.h:222-230 | a ring is the same from any of its nodes, so adding in front of an element inserts there |
| IntrusiveList.Del | src/libusb/libusb/libusbi.h:232-237 | list_del takes the entry out of the sequence and clears its links |
| IntrusiveList.Cut | src/libusb/libusb/libusbi.h:239-252 | list_cut moves the whole sequence and leaves an empty list |
| IntrusiveList.SpliceFront | src/libusb/libusb/libusbi.h:254-260 | list_splice_front puts one sequence in front of the other, exactly if it is not empty |
| IntrusiveList.EmptyMeans | src/libusb/libusb/libusbi.h:206-206 | list_empty tells whether the sequence is |
| Utf8Copy.Copy | src/libusb/libusb/descriptor.c:1590-1627 | the target gets the kept bytes and a zero, nothing beyond its size is touched, and the source's length plus one is returned |
| Utf8Copy.KeepsLongestWholePrefix | src/libusb/libusb/descriptor.c:1617-1623 | for valid UTF-8 (section 4 of RFC 3629) the kept bytes are the longest prefix of whole characters that leaves room for the zero |
| Utf8Copy.PrefixIsUtf8 | src/libusb/libusb/descriptor.c:1617-1623 | so what is copied is valid UTF-8 again |
| Utf8Copy.BoundaryMeans | src/libusb/libusb/descriptor.c:1620-1622 | in valid UTF-8 the code's bit test tells exactly where characters start |
| Utf8Copy.EncodedIsChar | src/libusb/libusb/descriptor.c:1590-1627 | the characters meant are those of the standard: every code point that is not a surrogate, encoded by section 3 of RFC 3629, is one |
| Utf8Copy.CharIsEncoded | src/libusb/libusb/descriptor.c:1590-1627 | and every character is the encoding of such a code point |

## Left out

- LockOrder.NoDeadlock: usb_devs_lock, hotplug_cbs_lock, linux_hotplug_lock and the locks of device
  handles are not modelled.
- BulkAccounts.OneReportAtTheEnd: an overflow on a request that is not the last one outstanding is left
  to `BulkAccounts.OverflowMustBeLast`.
- Timeouts.CalculateTimeout: seconds are unbounded, as the source relies on a 64-bit time_t.
- BulkDriver.BulkTransfer.Reap: statuses the code handles alike are one case each, and the discards it
  triggers show only in what the kernel returns later.
- The OS timer (timerfd) and eventfd variants of the event code.
- Windows and Darwin backends except the hash table; the calls into the operating system.
- Backends without hotplug, which take devices off the list when their count drops to zero.
- libusb_close with transfers in flight and devices still referenced after libusb_exit: errors of the
  application.
- Control transfers, LIBUSB_TRANSFER_SHORT_NOT_OK and the mapping of statuses to error codes in sync.c.
- Freedom from memory leaks: allocations succeed or fail, and are not accounted for.
- Registration, matching and deregistration of hotplug callbacks.
- BOS, interface association and string descriptors.
