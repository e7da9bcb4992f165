# Install monitor: verification of the driver channel and the service

The repository is a Windows software-install monitor: a kernel driver sees files and registry keys
being written, sends each event through an "inverted call" channel (the service keeps read requests
parked in the driver), and the service records in two SQL tables which software every file or key
belongs to. This project models the three state machines behind that and proves what they keep.

**The channel** (`src/drv/ioctl.cc` over `src/drv/safe_list.h`).

* `Channel` is the protocol as a transition system: any number of `Dispatcher`, `SendMessage` and
  `IoCancelIrp` calls, one atomic step per lock region, interlocked exchange, request completion or
  buffer release, with list-node allocation failing at will. `ChannelLedgers`, `ChannelCancel`,
  `ChannelDelivery` and `ChannelSafety` prove its invariants over every run; `ChannelBound` bounds
  the message list and `ChannelBoundTight` reaches the bound, `ChannelProgress` shows that every
  call ends, `ChannelStatus` what the status of a completed request means, `ChannelLists` when
  readers and messages wait at the same time, and `SmoothRuns` what holds when nothing goes wrong.
  `Ledger` is the bookkeeping they share: every request, message or slot is in exactly one place.
* `AtomicCalls` says what a call does when nothing overlaps it, and shows that such a call is a run
  of the fine-grained steps; `SequentialRuns` shows the converse, that a run whose calls do not overlap
  is those calls. `BoundedChannel` shows that such calls refine one drop-oldest channel of 1024
  messages when every message fits every reader, `MessageOrder` says exactly when they are first in,
  first out, and `ReaderOrder` that readers are served first come, first served. `CallOutcomes` says what
  each call returns and completes.
* `SafeList` is the list itself: circular, doubly linked, with a sentinel, on the heap. `Ioctl` is
  `ioctl.cc` as a class over two such lists, each routine proved to have the effect that
  `AtomicCalls` specifies, so that the ordering theorems are about the linked lists too. `Producer` is
  the driver's `install_monitor.cc`, which builds the messages and hands them over.
* `ChannelExamples` holds runs that break what one might expect.

**The wire and the slots.** `Wire` encodes and decodes the message with its payload at the odd offset
5, on arrays with loops as in the source. `Slots` follows the service's four request buffers, whatever
ends their requests; `ServedChannel` puts them on the channel, call by call, so that the channel's calls
decide how every request ends.

**The attribution store.** `Paths` converts device and registry paths, `Store` says what one event
does to the tables and `Recorded` which software and which rows that are, `Service` has the
service's methods and proves them equal to that, and `Workers` interleaves the workers statement by
statement. `Forest` is the "installed by" relation on the inserted rows; `Attribution` proves it for
sequential runs with any failures, `WorkersAttribution` says exactly when it survives interleaving,
and `WorkersRows` exactly when an image gets one app row and when app rows stay without assets.
`WorkersTight` has the runs that reach the bounds.

## Where the code does not keep what it promises

* `SafeList::Pop(buffer)` (`src/drv/safe_list.h:52-65`) leaves `node` on the last element visited when
  nothing matches, and deletes it while it is linked. `SafeLists.SafeList.PopBuffer` is the literal
  code on the heap, and leaves the list valid exactly when the buffer is in the list or the list is
  empty. In the protocol the literal and the exact `Pop(buffer)` are two modes of one model: all exact
  runs are safe; a literal run is safe exactly when no cancel's pop misses a non-empty list
  (`ChannelSafety.LiteralRunIff`); and such a miss happens when a cancel runs between a sender's pop
  and its exchange, after which one request is completed twice (`ChannelExamples.CompletedTwice`).
  After a miss the model goes on as if the deleted node were still readable.
* Messages can leave in another order than they came, in two ways. A reader whose buffer is too small
  sends the oldest message to the tail of the list (`src/drv/ioctl.cc:72-77`,
  `ChannelExamples.ReaderReorders`), and `SendMessage` hands its message to the first waiting request
  without looking at the queued ones (`src/drv/ioctl.cc:123-130`, `ChannelExamples.SenderOvertakes`).
  `MessageOrder.OrderIff` is exact for calls that do not overlap: the order is kept throughout if and
  only if no reader and no sender does that. When every message fits every reader neither can happen, and
  `MessageOrder.Fifo` follows.
* Readers and messages can wait at the same time. `ChannelLists.RunKeepsOneListIff` says exactly which
  runs of overlapping calls avoid it: those in which no request is parked past queued messages and no
  message is queued past parked requests (`ChannelExamples.BothWait` is one that does not). It can happen
  without overlap as well, since `SendMessage` tries one request only; `ChannelLists.OneListIff` is the
  exact condition there.
* The first drive whose device name is a prefix wins (`src/srv/install_monitor.cc:58-69`), so
  `HarddiskVolume10` is taken for `HarddiskVolume1` (`Paths.VolumeTenIsTakenForOne`). All paths come
  back exactly when no device name is a case-insensitive prefix of another (`Paths.AllRoundTripIff`).
* A request that ends with a too-small buffer is never issued again (`src/srv/ioctl.cc:73-75`), so its
  slot is lost (`Slots.TooLargeLosesSlot`). The message that did it goes back to the list
  (`src/drv/ioctl.cc:76`) and ends every request that meets it (`ServedChannel.OversizedTakesSlot`,
  `ServedChannel.OversizedStays`): one event of more than 2045 units can take all four slots
  (`ServedChannel.OneEventTakesAllSlots`), after which the workers can only stop
  (`Slots.AllLostOnlyStops`). For driver calls one after the other `ServedChannel.NoneLostIff` says
  exactly which runs of service and driver lose no slot, and `ServedChannel.NoneLost` that none is lost
  while all events have at most 2045 units, requests can be parked and none is cancelled. When calls
  overlap, every request that ends still gets a message under these conditions
  (`SmoothRuns.OnlySuccesses`).
* The string lengths are cast to 16 bits and `wcsncpy` drops what follows a NUL: `Wire.RoundTripIff` is
  the exact condition for an event to come back, and `Wire.EventDoesNotComeBack` one that does not. Of an
  event of at most 2045 units nothing is lost that would have reached the tables, since their keys end at
  the first NUL as well (`Service.EndToEnd`); a longer event never reaches them.
* Workers that meet one new image together each create an app row for it: at most one row per worker,
  and that number is reached (`Workers.RowsPerImage`, `WorkersTight.BoundIsReached`). An image gets one row
  at most if and only if no select of it comes up empty behind another worker that is about to insert its
  row (`WorkersRows.OneRowPerImageIff`).
* Such workers also misattribute: the insert of the image's row is ignored for all but the first, yet each
  records its target under its own id, which its installer's row then does not have, with nothing failing
  (`WorkersTight.TwoWorkersMisattribute`). Attribution and forest are kept by exactly those interleavings
  in which no worker whose insert of its image's row met a row under another id then lands its target
  (`WorkersAttribution.RunAttributesIff`, `WorkersAttribution.RunIsForestIff`).
* An event that fails between its app row and its image's row leaves an app row without assets for good
  (`Attribution.FailedImageLeavesOrphan`), and so does a worker whose image got its row from another one.
  `Attribution.AppRowsAreRootsIff` and, for interleavings, `WorkersRows.AppRowsAreRootsIff` are exact.

## Readings of the source

* `Dispatcher` reads `irp->IoStatus` after completing the request (`src/drv/ioctl.cc:109-115`); it is
  modelled as returning the status recorded at completion.
* `IoCancelIrp` is the I/O manager's documented behaviour: under the cancel lock it sets the cancel
  flag and exchanges the cancel routine for null, and calls the routine if there was one.
* Requests and messages stand for allocations and are not reused, so a cancel never meets another
  request at the same address.
* `finalize` runs only with no call in flight; it destroys the message list, then the request list.
* `kMaxIrpListSize` is declared and never used; the model does not bound the request list either.
* Allocation, statement failures, version information, the drive table and the content of the
  service's buffers before a read are parameters.
* Keys of the tables are the texts up to the first NUL; the conversion to UTF-8 is taken to be
  injective. Case folding is that of the C locale (ASCII letters).

## Model

| member | source | states |
|---|---|---|
| `ChannelSafety.InvInitially` | src/drv/ioctl.cc:146-151 | after `initialize`, before any call, every invariant of the channel holds |
| `ChannelLedgers.IrpsStayLinear` | src/drv/ioctl.cc:60-132 | any step of any call keeps every submitted request in exactly one place (one call's hands, one position of the list, completed once), unless a literal `Pop(buffer)` misses |
| `ChannelLedgers.MsgsStayLinear` | src/drv/ioctl.cc:66-83 | any step keeps every message in exactly one place (one call's hands, one position of the list, released once), whatever `Pop(buffer)` does |
| `ChannelLedgers.StaysEvictingOther` | src/drv/ioctl.cc:134-137 | a sender never evicts the message it is sending |
| `ChannelLedgers.ShutdownEffect` | src/drv/ioctl.cc:153-158 | `finalize` releases exactly the queued messages and cancels exactly the queued requests, in list order, and touches nothing else |
| `ChannelCancel.LockStays` | src/drv/ioctl.cc:85-107 | the cancel lock has exactly one thread inside whenever it is taken |
| `ChannelCancel.StepExchange` | src/drv/ioctl.cc:60-64 | a cancel that exchanges the cancel routine keeps the protocol: it becomes the one claimant of the request if the routine was set, and changes nothing if not |
| `ChannelCancel.StepSendExchange` | src/drv/ioctl.cc:123-127 | a sender that exchanges the cancel routine keeps the protocol, whichever of it and a racing cancel comes first |
| `ChannelCancel.StepPush` | src/drv/ioctl.cc:98-104 | parking an armed request, or failing to, keeps the protocol |
| `ChannelCancel.CancelStays` | src/drv/ioctl.cc:60-107 | every step keeps the cancel protocol: armed requests are placed, claims are exclusive, no cancellation is lost, no node dangles; unless a literal `Pop(buffer)` misses |
| `ChannelDelivery.DeliveryStays` | src/drv/ioctl.cc:43-83 | every step keeps: delivered messages are those released as delivered or about to be, a request succeeds exactly when it got a message and the message fits, and what calls return is what was recorded |
| `ChannelSafety.StepKeepsInv` | src/drv/ioctl.cc:60-144 | every step of every call keeps all invariants, if `Pop(buffer)` is exact or does not miss |
| `ChannelSafety.LiteralMissTwoOwners` | src/drv/safe_list.h:52-65 | a literal `Pop(buffer)` that misses gives the request a second owner, which goes on to complete it |
| `ChannelSafety.LiteralMissBreaks` | src/drv/safe_list.h:52-65 | such a miss leaves a deleted node linked and breaks the one-owner invariant |
| `ChannelSafety.LiteralStepIff` | src/drv/safe_list.h:52-65 | under the literal code a step keeps the invariants if and only if it is not a miss on a non-empty list |
| `ChannelSafety.ExactRunsAreSafe` | src/drv/ioctl.cc:60-158 | with an exact `Pop(buffer)`, all invariants hold in every state of every interleaving of any number of calls |
| `ChannelSafety.LiteralRunIff` | src/drv/safe_list.h:52-65 | a run of the literal code is safe throughout if and only if no `Pop(buffer)` in it misses a non-empty list |
| `ChannelSafety.OneOwner` | src/drv/ioctl.cc:60-132 | every submitted request has exactly one owner |
| `ChannelSafety.CompletedOnce` | src/drv/ioctl.cc:26-31 | no request is completed twice |
| `ChannelSafety.CancelInFlight` | src/drv/ioctl.cc:60-64 | a parked request whose cancel routine is gone has exactly one cancel about to pop it; one that is marked and still armed is in the hands of its cancel |
| `ChannelSafety.QuiescentRequests` | src/drv/ioctl.cc:85-107 | with no call in flight every submitted request is completed or parked, not both, and every parked one is armed and not cancelled |
| `ChannelSafety.MessageConservation` | src/drv/ioctl.cc:66-144 | as multisets: messages sent = in hand + queued + released (delivered, evicted, dropped, refused or cleared) |
| `ChannelSafety.DeliveredOnce` | src/drv/ioctl.cc:43-54 | a message is delivered at most once, into a request it fits that completed with success, and is released as delivered and no longer queued |
| `ChannelSafety.RefusedIffFalse` | src/drv/install_monitor.cc:36-46 | `SendMessage` returned false exactly for the messages that its caller released |
| `ChannelStatus.StepReasons` | src/drv/ioctl.cc:26-132 | every step of overlapping calls keeps: a completed request's status has its reason, and a call about to complete one as cancelled has one |
| `ChannelStatus.StatusMeans` | src/drv/ioctl.cc:26-132 | in every interleaving a request is completed as cancelled only if it was cancelled or the device shut down, as too-small only if a message larger than it was sent, as not-ready only after a shutdown, never as pending |
| `ChannelBound.LengthBound` | src/drv/ioctl.cc:134-144 | with at most k calls of `SendMessage` and `Dispatcher` in flight the list never holds more than 1023 + k messages, in every interleaving |
| `ChannelBound.LengthBoundSplit` | src/drv/ioctl.cc:72-77 | with at most n senders and m dispatchers in flight, at most 1023 + n + m messages |
| `ChannelBoundTight.BoundIsReached` | src/drv/ioctl.cc:134-143 | for every n > 0 and m, a run with at most n senders and m dispatchers in flight after which the list holds 1023 + n + m messages |
| `AtomicCalls.DispatchIsRun` | src/drv/ioctl.cc:109-115 | a `Dispatcher` call that nothing overlaps is a run of the fine-grained steps from any state, with the effect and status of `Dispatch` |
| `AtomicCalls.SendIsRun` | src/drv/ioctl.cc:117-144 | the same for `SendMessage`: refused, taken by the first request, or queued after evicting the oldest |
| `AtomicCalls.CancelIsRun` | src/drv/ioctl.cc:60-64 | the same for a cancel |
| `CallOutcomes.DispatchReturns` | src/drv/ioctl.cc:66-115 | a `Dispatcher` call returns not-ready, success, too-small or pending exactly when the device is down, the oldest message fits, it does not fit, or none is queued |
| `CallOutcomes.DispatchWhileDown` | src/drv/ioctl.cc:67-70 | on a device that is down it completes its own request with not-ready and touches nothing else |
| `CallOutcomes.DispatchWithMessage` | src/drv/ioctl.cc:72-80 | with a message queued it completes only its own request, with what it returns; the message is delivered, put back at the end, or released |
| `CallOutcomes.DispatchWithout` | src/drv/ioctl.cc:85-107 | without one the request is completed as cancelled, completed for want of memory, or parked at the end and armed |
| `CallOutcomes.SendReturns` | src/drv/ioctl.cc:117-144 | `SendMessage` returns true exactly when the device is up and the first request takes the message or it can be queued; otherwise the message is refused |
| `CallOutcomes.SendEnds` | src/drv/ioctl.cc:123-132 | it completes the request that has waited longest and no other: cancelled, success, or too-small |
| `CallOutcomes.CancelEnds` | src/drv/ioctl.cc:60-64 | an uninterrupted cancel marks its request, disarms it, and completes it as cancelled exactly when it was armed and parked |
| `BoundedChannel.CallsAreRun` | src/drv/ioctl.cc:60-144 | calls one after the other are a run of the fine-grained steps that ends with all invariants and no call in flight |
| `BoundedChannel.CallsSettle` | src/drv/ioctl.cc:60-144 | between non-overlapping calls the armed requests are the parked ones and nothing is queued twice |
| `BoundedChannel.LiteralIsExact` | src/drv/safe_list.h:52-65 | non-overlapping calls never run into the miss: literal and exact code do the same |
| `BoundedChannel.CallsRefine` | src/drv/ioctl.cc:66-144 | with every message fitting every reader, the two lists and the logs are those of one drop-oldest channel of 1024 messages, at most one list being non-empty |
| `BoundedChannel.EvictsOldest` | src/drv/ioctl.cc:134-137 | only a `SendMessage` that finds 1024 queued messages and no reader evicts, and it evicts the oldest |
| `SequentialRuns.RunIsCalls` | src/drv/ioctl.cc:60-144 | in every fine-grained run whose calls do not overlap, the driver between calls is in the state that the calls started so far, one after the other, lead to |
| `SequentialRuns.RunIsFifo` | src/drv/ioctl.cc:66-144 | between the calls of every such run with fitting messages: the calls that lead to the driver's state delivered then queued what they accepted without the evicted, one list is empty, at most 1024 messages |
| `MessageOrder.ReadStepIff` | src/drv/ioctl.cc:72-79 | a reader keeps the order of the accepted, not given up messages if and only if the oldest fits it, is the only one, or cannot be put back |
| `MessageOrder.SendStepIff` | src/drv/ioctl.cc:123-143 | a sender, evicting or not, keeps that order if and only if it does not hand its message to a fitting, armed reader while messages are queued |
| `MessageOrder.OrderIff` | src/drv/ioctl.cc:66-144 | over any sequence of calls in both modes: after every call delivered then queued is accepted without evicted and dropped, if and only if every call meets its condition |
| `MessageOrder.Fifo` | src/drv/ioctl.cc:66-144 | with every message fitting every reader: delivered then queued is accepted without evicted, readers and messages never wait together, at most 1024 messages |
| `MessageOrder.FifoReference` | src/drv/ioctl.cc:66-144 | the same of the reference channel |
| `ReaderOrder.FirstComeFirstServed` | src/drv/ioctl.cc:98-123 | over any calls that do not overlap: the requests that senders ended, in that order, then those still waiting, are the parked ones in the order of their calls without the cancelled |
| `ChannelLists.StepKeepsOneListIff` | src/drv/ioctl.cc:76-141 | from a state with an empty list, a step of any call leaves one list empty if and only if it does not park a request past queued messages or queue a message past parked requests |
| `ChannelLists.RunKeepsOneListIff` | src/drv/ioctl.cc:60-144 | a run of overlapping calls keeps one list empty throughout if and only if it has no such step |
| `ChannelLists.OneListIff` | src/drv/ioctl.cc:123-143 | calls that do not overlap keep one list empty throughout if and only if no sender queues its message although readers wait behind the one that did not take it |
| `ChannelProgress.NeverStuck` | src/drv/ioctl.cc:85-107 | while a call is in flight some call can take a step: the cancel lock never deadlocks |
| `ChannelProgress.EveryCallEnds` | src/drv/ioctl.cc:60-144 | in every run, each `Dispatcher` call takes at most seven steps, each `SendMessage` eight and each cancel six, counting those it has left, and none before it starts |
| `ChannelProgress.AllCallsEnd` | src/drv/ioctl.cc:60-144 | all calls of a run together have taken at most eight steps for each call started |
| `ChannelProgress.StuckIsQuiescent` | src/drv/ioctl.cc:85-107 | a state of a run is one in which no call can take a step if and only if no call is in flight |
| `ChannelProgress.CallsRunOut` | src/drv/ioctl.cc:60-144 | without new calls, any steps of the calls in flight are no more than they have left together |
| `ChannelProgress.CanComeToRest` | src/drv/ioctl.cc:60-144 | from every safe state the calls in flight can all return, in no more steps than they have left |
| `ChannelExamples.CancelInsideSend` | src/drv/safe_list.h:52-65 | a run of the literal code in which a cancel misses while a sender has its request, completes it, and leaves another request's node dangling |
| `ChannelExamples.CompletedTwice` | src/drv/safe_list.h:52-65 | a run of the literal code in which one request is completed twice |
| `ChannelExamples.BothWait` | src/drv/ioctl.cc:109-144 | a run of overlapping calls after which, with no call in flight, a reader and a message both wait |
| `ChannelExamples.SenderOvertakes` | src/drv/ioctl.cc:123-130 | four calls after which the second message is delivered and the first queued, with nothing given up and no reader having met a queued message |
| `ChannelExamples.ReaderReorders` | src/drv/ioctl.cc:72-77 | three calls after which the newer of two messages is in front, the reader having been too small for the older |
| `SafeLists.InsertTailList` | src/drv/safe_list.h:34 | the ring gains the node at its end, forward and backward links staying inverse |
| `SafeLists.RemoveEntryList` | src/drv/safe_list.h:58 | the ring loses exactly that node |
| `SafeLists.Splice` | src/drv/safe_list.h:70-76 | the whole ring moves to the local sentinel, and the member list is an empty ring |
| `SafeLists.CleanRing` | src/drv/safe_list.h:80-83 | emptying the local ring terminates, cleans each buffer once in list order and deletes every node |
| `SafeLists.SafeList.Push` | src/drv/safe_list.h:29-38 | appends the buffer, or changes nothing when allocation fails |
| `SafeLists.SafeList.Pop` | src/drv/safe_list.h:40-50 | returns and removes the oldest buffer, or nothing from an empty list |
| `SafeLists.SafeList.Search` | src/drv/safe_list.h:55-62 | the loop unlinks the first node with the buffer, or ends with the last node in hand and the list as it was |
| `SafeLists.SafeList.PopBuffer` | src/drv/safe_list.h:52-65 | removes the first occurrence if there is one; otherwise the last node is deleted while linked and its buffer returned; the list stays valid if and only if the buffer was in it or it was empty |
| `SafeLists.SafeList.Clear` | src/drv/safe_list.h:67-84 | hands every buffer to the cleaner once, in list order, deletes every node and leaves an empty list |
| `SafeLists.SafeList.Size` | src/drv/safe_list.h:86 | the counter is the length of the list |
| `SafeLists.Reachable` | src/drv/safe_list.h:29-86 | following the links from the sentinel visits every node in order, forward and backward, and comes back to the sentinel |
| `Ioctls.Ioctl.CompleteIrpWithPendingData` | src/drv/ioctl.cc:43-54 | on the heap: copies the message out and completes with success if it fits, else completes with buffer-too-small |
| `Ioctls.Ioctl.CompleteIrpRoutine` | src/drv/ioctl.cc:66-83 | on the heap lists: completes at once exactly when the device is down or a message is queued, with the effect of `Dispatch`; otherwise changes nothing |
| `Ioctls.Ioctl.PendingIrpRoutine` | src/drv/ioctl.cc:85-107 | on the heap lists, whatever else is queued: completes a cancelled request, parks it armed at the end of the list, or disarms and completes it when there is no memory |
| `Ioctls.Ioctl.Dispatcher` | src/drv/ioctl.cc:109-115 | on the heap lists: state and status are those of `Dispatch` |
| `Ioctls.Ioctl.EvictIfFull` | src/drv/ioctl.cc:134-137 | on the heap lists: the oldest of 1024 or more messages is released, otherwise nothing happens |
| `Ioctls.Ioctl.SendMessage` | src/drv/ioctl.cc:117-144 | on the heap lists: state and result are those of `Send`; a refused message stays the caller's |
| `Ioctls.Ioctl.NotifyIrpCancelRoutine` | src/drv/ioctl.cc:60-64 | on the heap lists, with the literal `Pop(buffer)`: takes a parked request out and completes it; on a miss the last node is deleted while linked and the request is completed all the same; nothing once the device is down or the list is empty |
| `Ioctls.Ioctl.CancelIrp` | src/drv/ioctl.cc:60-64 | on the heap lists, wherever the request is: the effect of an uninterrupted cancel of the literal code, and the lists stay valid if and only if its pop does not miss |
| `Ioctls.Ioctl.Finalize` | src/drv/ioctl.cc:153-158 | on the heap lists: the effect of `Shutdown` |
| `Wire.WcsNCpy` | src/drv/install_monitor.cc:30-32 | writes exactly the units before the first NUL and then NULs, inside the array, and leaves every other byte |
| `Wire.BuildInstallInfo` | src/drv/install_monitor.cc:14-34 | the new array holds the size in its header and the encoded event behind it, all bytes but the last, with every write in bounds |
| `Producer.FileInstall` | src/drv/install_monitor.cc:36-40 | a file event becomes a message with type 0 and its size in the header, and the channel's state is that after `SendMessage`, a refused message being released; nothing happens without memory for it |
| `Producer.RegistryInstall` | src/drv/install_monitor.cc:42-46 | the same for a registry key, with type 1 |
| `Wire.DecodeBuffer` | src/srv/ioctl.cc:99-110 | reads type, lengths and both strings from any buffer they lie in, with every read in bounds; what they mean is stated by the rows that follow |
| `Wire.HeaderLayout` | include/shared.h:16-21 | bytes 0-1 are the image's length and bytes 2-3 the path's, cut to 16 bits, low byte first; byte 4 is the type |
| `Wire.ImageLayout` | src/drv/install_monitor.cc:30 | unit k of the padded image is at byte 5 + 2k, low byte first |
| `Wire.PathLayout` | src/drv/install_monitor.cc:31-32 | unit k of the padded path is right behind the image, low byte first |
| `Wire.SizeReadsBack` | src/drv/install_monitor.cc:23 | the size in the header reads back as it was written |
| `Wire.BytesOfUnit` | src/drv/install_monitor.cc:27-32 | the two bytes of a unit are its remainder and quotient by 256 |
| `Wire.EncodedIff` | src/drv/install_monitor.cc:25-32 | a buffer starts with an encoded event if and only if the decoder's fields read the event's type, its lengths cut to 16 bits, and both padded strings |
| `Wire.CutIsModulo` | src/drv/install_monitor.cc:27-28 | the cast of a length keeps it modulo 65536 |
| `Wire.DecodeEncoded` | src/srv/ioctl.cc:103-105 | for strings of any length: what is decoded from a buffer that carries an event is cut from both padded strings together, by the lengths cut to 16 bits |
| `Wire.RoundTripPadded` | src/srv/ioctl.cc:99-105 | with at most 65535 units each, both strings of an event that the buffer carries come back with their lengths, NUL-padded from their first NUL |
| `Wire.LengthsComeBackIff` | src/drv/install_monitor.cc:27-28 | both strings come back with their lengths if and only if these fit 16 bits |
| `Wire.RoundTripIff` | src/drv/install_monitor.cc:25-32 | an event that the buffer carries comes back unchanged if and only if both lengths fit 16 bits and nothing follows a NUL |
| `Wire.EventDoesNotComeBack` | src/drv/install_monitor.cc:30-32 | an image with a unit after a NUL comes back without it |
| `Wire.FitsIff` | src/srv/ioctl.cc:9 | a built message fits the 4096-byte buffer if and only if its strings have at most 2045 units together |
| `Wire.EventIsReceived` | src/drv/ioctl.cc:51 | every such message can be copied over any buffer, which then starts with the encoded event, stale bytes and the unwritten last byte notwithstanding |
| `Wire.ThroughTheBuffer` | src/srv/ioctl.cc:9 | a 4096-byte buffer that carries an event holds at most 2045 units of it and decodes to the padded event, and to the event itself if and only if nothing follows a NUL |
| `WideStrings.NulPaddedIff` | src/drv/install_monitor.cc:30-32 | `wcsncpy` changes nothing if and only if nothing follows a NUL |
| `WideStrings.NulPaddedAt` | src/drv/install_monitor.cc:30-32 | unit i of what `wcsncpy` writes is the string's, or NUL if one comes before |
| `WideStrings.CStrIs` | src/srv/install_manager.cc:119-125 | the key of a text is its part before the first NUL |
| `Slots.StepKeepsInv` | src/srv/ioctl.cc:62-97 | every step of workers and device keeps every slot in exactly one place |
| `Slots.SlotConservation` | src/srv/ioctl.cc:28-32 | in every run the four slots are split between unissued, outstanding, completed, handled and lost, each in one place |
| `Slots.WorkerLeavesIff` | src/srv/ioctl.cc:63-83 | a step makes a worker leave if and only if it stops, or takes a packet with an error other than too-small |
| `Slots.WorkerHandlesIff` | src/srv/ioctl.cc:67-83 | a step leaves a worker with a slot in hand if and only if it had that one and took no step, or took the oldest packet and that is filled |
| `Slots.ExitedIff` | src/srv/ioctl.cc:62-86 | in every run a worker has left if and only if it has stopped or taken such a packet |
| `Slots.PacketsInOrder` | src/srv/ioctl.cc:67-79 | in every run the packets taken, then those in the port, are those posted, in that order |
| `Slots.NoWorkerLeaves` | src/srv/ioctl.cc:62-86 | while every request that ends gets a fitting message and no worker is stopped, no worker leaves and no slot is lost |
| `Slots.ServiceGoesOn` | src/srv/ioctl.cc:62-97 | then, once all slots are issued, all four requests are outstanding or a worker can take its next step |
| `Slots.LossCount` | src/srv/ioctl.cc:73-79 | the lost slots, with the bad packets still in the port, are as many as the requests that ended otherwise than with a fitting message |
| `Slots.NoneLostIff` | src/srv/ioctl.cc:62-97 | whatever ends the requests: no slot is lost or about to be if and only if every request that ended got a message that fits |
| `Slots.TooLargeLosesSlot` | src/srv/ioctl.cc:73-75 | a run in which a message of 2046 units costs its slot |
| `Slots.AllLostOnlyStops` | src/srv/ioctl.cc:62-86 | in every run, once all four slots are lost a worker can only stop |
| `Slots.FilledIff` | src/srv/ioctl.cc:9 | a request ends well if and only if it got a message of at most 2045 units |
| `Slots.ResultIsDriverStatus` | src/drv/ioctl.cc:43-54 | the result the slot model uses is the status with which the driver completes such a request |
| `ServedChannel.StepKeeps` | src/srv/ioctl.cc:82-97 | every call keeps the parked requests and the outstanding slots matched one for one, the armed requests parked, and the steps it means for the slots possible |
| `ServedChannel.StepAgrees` | src/drv/ioctl.cc:43-54 | the requests that a step of the slots ends, and how, are exactly those that the channel completes, and with what status |
| `ServedChannel.SlotsRun` | src/srv/ioctl.cc:62-97 | the slots of every such run of service and driver take a run of their own, so that all that holds of those holds here |
| `ServedChannel.NoneLostIff` | src/srv/ioctl.cc:73-75 | in every run of service and driver, driver calls one after the other: no slot is lost or about to be if and only if no request met a message too large for it or could not be parked, and none was cancelled while parked |
| `ServedChannel.NoneLost` | src/srv/ioctl.cc:9 | in every such run no slot is lost while every event has at most 2045 units, requests can be parked and none is cancelled |
| `ServedChannel.OversizedTakesSlot` | src/drv/ioctl.cc:72-77 | a message that is too large, queued alone, costs the slot of any request that is issued, and stays queued |
| `ServedChannel.OneEventTakesAllSlots` | src/drv/ioctl.cc:72-77 | a run in which one event of 2046 units takes all four slots |
| `ServedChannel.OversizedStays` | src/drv/ioctl.cc:72-77 | a message larger than all of any number of readers ends each of them with too-small, is delivered to none and stays |
| `SmoothRuns.OnlySuccesses` | src/drv/ioctl.cc:60-144 | in every run of overlapping calls in which no request is cancelled, requests can be parked and the messages sent fit the requests submitted: every completed request got a message, and every parked one is armed |
| `SmoothRuns.OnlySuccessesLiteral` | src/drv/safe_list.h:52-65 | the same of the literal code, whose pop never misses in such runs |
| `Paths.ConvertFilePath` | src/srv/install_monitor.cc:48-72 | the loop fails exactly when no device is a prefix, and otherwise gives the letter of the first drive whose device is one (0x41 plus its number), a colon and the rest of the path |
| `Paths.FoldIff` | src/srv/install_monitor.cc:65 | two units compare alike if and only if they are equal or the same ASCII letter in two cases |
| `Paths.FoldedPrefixIff` | src/srv/install_monitor.cc:64-65 | a device is a prefix if and only if each of its units compares alike with the path's |
| `Paths.DriveCIsC` | src/srv/install_monitor.cc:60-67 | paths on the first volume, as drive C, come out on `C:` |
| `Paths.PicksFirst` | src/srv/install_monitor.cc:58-69 | the conversion uses the first drive whose device is a case-insensitive prefix |
| `Paths.FailsIff` | src/srv/install_monitor.cc:58-71 | it fails if and only if no device is such a prefix |
| `Paths.RoundTripIff` | src/srv/install_monitor.cc:58-69 | a path given by its drive's device comes back if and only if no earlier device is a prefix of it |
| `Paths.AllRoundTripIff` | src/srv/install_monitor.cc:48-72 | all paths on all drives come back if and only if no device is a case-insensitive prefix of another |
| `Paths.VolumeTenIsTakenForOne` | src/srv/install_monitor.cc:64-67 | a drive table on which a path does not come back |
| `Paths.RegistryNames` | src/srv/install_monitor.cc:76-84 | `\REGISTRY\MACHINE\` becomes `HKEY_LOCAL_MACHINE\` and `\REGISTRY\USER\` becomes `HKEY_CURRENT_USER\`, for every rest |
| `Paths.RegistryFailsIff` | src/srv/install_monitor.cc:78-86 | the conversion fails if and only if the path has neither prefix |
| `Paths.RegistryRoundTrip` | src/srv/install_monitor.cc:74-87 | the registry conversion and its inverse undo each other wherever they succeed |
| `Paths.RegistryInjective` | src/srv/install_monitor.cc:74-87 | different registry paths get different names |
| `Paths.KeysApart` | src/srv/install_monitor.cc:60-82 | no text is both a drive path and a registry name |
| `Paths.ConvertPadded` | src/srv/install_monitor.cc:65-66 | what follows a NUL decides neither whether a file path is converted nor the key it gets |
| `Paths.ConvertPaddedRegistry` | src/srv/install_monitor.cc:78-84 | the same for registry paths |
| `Store.RecordKeeps` | src/srv/install_manager.cc:119-170 | one event, whatever fails in it, keeps ids positive, bounded and referring to app rows, and changes no row |
| `Store.RecordAllKeeps` | src/srv/install_manager.cc:119-170 | the same for any sequence of events and failures |
| `Store.ReplayChangesNothing` | src/srv/install_manager.cc:119-130 | an event that succeeded, replayed after any further events, succeeds and changes neither table nor the generator |
| `Store.RepeatsDoNotMatter` | src/srv/sql_helper.cc:84-97 | a run of accepted events leaves the same tables as the run without its repeats |
| `Recorded.FaultlessRecordsIff` | src/srv/install_manager.cc:119-161 | without failures an event is recorded if and only if its image has a row, or has version information whose company is not Microsoft Corporation or whose product is Microsoft Office |
| `Recorded.RecordsIff` | src/srv/install_manager.cc:119-161 | the same with any failures: exactly those count that the event meets |
| `Recorded.RunKeys` | src/srv/install_manager.cc:119-170 | after any run with any failures the asset rows are those of images that had a row or were such software, and of what these images wrote |
| `Recorded.RunIds` | src/srv/sql_helper.cc:69-70 | after any run the generator stands at its start plus the app inserts that were prepared, whether or not they then failed |
| `Recorded.NewRows` | src/srv/install_manager.cc:149-158 | a new image gets an app row with its own version information under the next id and a row of type 0 with that id; what it wrote gets the image's id and the event's type |
| `Service.SqlHelper.Connect` | src/srv/sql_helper.cc:6-34 | the generator starts at the largest id in use, or at 0 |
| `Service.SqlHelper.SelectSoftwareIdByPath` | src/srv/sql_helper.cc:36-56 | the id of the row with that key, or 0 |
| `Service.SqlHelper.InsertSoftware` | src/srv/sql_helper.cc:58-82 | a new row under the next id; a failed execution uses the id up, a failed preparation does not |
| `Service.SqlHelper.InsertAsset` | src/srv/sql_helper.cc:84-103 | insert or ignore: a row that is there stays as it is |
| `Service.Restart` | src/srv/sql_helper.cc:22-26 | connecting to coherently stored rows, or to none, gives coherent tables |
| `Service.RunsAreStoredCoherently` | src/srv/install_manager.cc:119-170 | any sequence of events and failures leaves rows that are coherent when stored |
| `Service.InsertSoftware` | src/srv/install_manager.cc:119-161 | select, filter, insert app row and own asset row, with every failure, as `Store.InsertSoftware`, which the `Recorded` rows pin down |
| `Service.InsertAsset` | src/srv/install_manager.cc:163-170 | the row of the converted text |
| `Service.FileInstall` | src/srv/install_monitor.cc:10-27 | both conversions, then the inserts under type 0; nothing when one fails |
| `Service.RegistryInstall` | src/srv/install_monitor.cc:29-46 | the same with a registry path and type 1 |
| `Service.DoSingleResponse` | src/srv/ioctl.cc:99-111 | the tables change as the event decoded from the buffer says |
| `Service.EntriesAreValid` | src/srv/install_monitor.cc:10-46 | file events write a drive path under type 0, registry events a registry name under type 1 |
| `Service.FileEntry` | src/srv/install_monitor.cc:10-27 | a file event is entered under the drive paths of image and file, in this order, with type 0 |
| `Service.RegistryEntry` | src/srv/install_monitor.cc:29-46 | a registry event is entered under the image's drive path and the name of the key under its root, with type 1 |
| `Service.NotEnteredIff` | src/srv/install_monitor.cc:14-38 | an event is not entered if and only if its image is on no drive, or its path on none or under neither root |
| `Service.EndToEnd` | src/srv/ioctl.cc:99-111 | a reader's buffer that carries an event, whatever its strings hold, changes the tables as the event itself would |
| `Service.FileArrives` | src/srv/ioctl.cc:106-107 | a buffer with type 0 is recorded as a file event, under drive letters, with type 0 |
| `Service.RegistryArrives` | src/srv/ioctl.cc:108-109 | a buffer with type 1 is recorded as a registry event, under `HKEY_LOCAL_MACHINE\`, with type 1 |
| `Workers.StepKeepsCoherence` | src/srv/sql_helper.cc:58-103 | any worker's step, failing or not, keeps tables and the ids in workers' hands coherent and every row as it is |
| `Workers.RunsStayCoherent` | src/srv/ioctl.cc:62-86 | in every interleaving of any number of workers, whatever fails: ids distinct, positive and at most the generator's, assets refer to app rows, rows never change or disappear |
| `Workers.RowsPerImage` | src/srv/ioctl.cc:10 | while no insert of its own row has failed, an image has at most one app row per worker, four with the service's four threads |
| `Workers.EveryRowRecorded` | src/srv/install_manager.cc:149-153 | every app row of a run is an old one or is recorded with its creator |
| `WorkersTight.BoundIsReached` | src/srv/install_manager.cc:119-160 | n workers that meet one new image can create n app rows for it, with nothing failing |
| `WorkersRows.OneRowPerImageIff` | src/srv/install_manager.cc:119-160 | in every interleaving, when nobody is about to create a row of the image and no statement of one who was has failed: it has at most one app row if and only if no select of it came up empty while another worker stood between its own empty select and its image insert |
| `WorkersRows.AppRowsAreRootsIff` | src/srv/install_manager.cc:149-158 | in every interleaving from empty tables, when nobody is about to insert an image's row: the app rows are the roots of the inserted rows if and only if no insert of an image's row failed or met a row |
| `WorkersTight.TwoWorkersMisattribute` | src/srv/install_manager.cc:149-158 | a run of two workers, nothing failing, after which a target has id 2 and its installer's row id 1 |
| `WorkersAttribution.StepAttributesIff` | src/srv/install_manager.cc:119-170 | after any step, failing or not, every inserted row has its installer's id if and only if that held before and the step does not land a target under an id its installer's row does not have |
| `WorkersAttribution.ForeignIff` | src/srv/install_manager.cc:156-158 | in every interleaving a worker stands before its target with an id that its image's row does not have if and only if its last step was an insert of that row that met one under another id |
| `WorkersAttribution.RunAttributesIff` | src/srv/ioctl.cc:62-86 | in every interleaving from coherent tables, with any failures: all inserted rows have their installers' ids if and only if no worker whose insert of its image's row met one under another id then lands its target |
| `WorkersAttribution.RunIsForestIff` | src/srv/ioctl.cc:62-86 | from empty tables, in every interleaving with any failures, the inserted rows are the asset table and form the installed-by forest if and only if no such worker lands its target |
| `WorkersAttribution.StepKeepsOwnIdsIff` | src/srv/install_manager.cc:156-158 | a step gives a worker an id that its image's row does not have if and only if its insert of that row meets one under another id |
| `Workers.IgnoredForOwnKind` | src/srv/sql_helper.cc:87-88 | in every run an ignored insert, of an image's own row or of a target's, is ignored because of a row of its own type |
| `Workers.AloneIsRecord` | src/srv/install_monitor.cc:20-26 | a worker that is not interrupted does what one event does in sequence, whatever fails |
| `Attribution.EventExtends` | src/srv/install_manager.cc:119-170 | one event, whatever fails in it, extends the installed-by forest, and the forest stays the asset table |
| `Attribution.RunIsForest` | src/srv/install_manager.cc:119-170 | after every sequential run from empty tables, whatever failed, the insertions of the rows form an acyclic installed-by forest in which each row has its installer's id, and this forest is the asset table |
| `Attribution.SameSoftwareIffSameRoot` | src/srv/install_manager.cc:119-170 | two rows have the same software id if and only if the same image, installed by nobody, is at their root |
| `Attribution.AppRowsAreRootsIff` | src/srv/install_manager.cc:149-158 | after such a run every app row is a root of the forest if and only if no event failed between its app row and its image's row |
| `Attribution.FailedImageLeavesOrphan` | src/srv/install_manager.cc:149-158 | one event that fails at its image's row leaves an app row without assets |
| `Attribution.AppRowsAreRoots` | src/srv/install_manager.cc:149-158 | without failures the app rows are the roots of the forest, one for one |

## Left out

- Event capture in the kernel, driver loading and unload racing live calls: plumbing around Windows calls; events are arbitrary (type, image, path) triples.
- Spin locks and interrupt levels: a lock region is one atomic step; the cancel lock is kept as mutual exclusion.
- The counter and ids as machine integers: `size_` and `max_software_id_` are unbounded, so their overflow is not covered; the 16-bit lengths and units are.
- Ioctls.Ioctl.CompleteIrpWithPendingData: the copy of the bytes is an entry in the log of deliveries, which names message and request; what the buffer then holds is `Wire.EventIsReceived`.
- `Information`, the byte count of a completion (src/drv/ioctl.cc:28): a delivery names its message, whose size it is.
- The memory of a deleted list node after a literal miss: the protocol model goes on as if it were intact.
- The order of messages whose calls overlap: such calls have no order of their own to keep; the order theorems are about runs whose calls do not overlap.
- Attribution of rows that were there before a run: a row's installer is known for the rows a run inserts.
- Interleaving on the heap: the fine-grained protocol works on sequences, and the class `Ioctl` proves each routine between other calls only; the lists' methods are the atomic steps that link them.
- `clean_` as a callback: `Clear` returns the buffers in the order in which it cleans them, and `Ioctl` then applies the routine.
- The class `Communication`: its slots are a transition system on values, only `DoSingleResponse` is a method; file handles, the order of thread start and shutdown of the port appear only as a worker that stops.
- The service's requests on the channel while driver calls overlap: `ServedChannel` takes one call after the other.
- Cancellation of requests by the I/O manager when the service closes its handle: any request may fail at any time.
- The SQL driver: each statement is one atomic update that may fail.
- Version-resource lookup (src/srv/install_manager.cc:39-117): an arbitrary function from the image path to product, company and version.
- WcharToUtf8: keys are wide strings up to the first NUL; conversion is taken to be injective.
- `GetLogicalDrives` and `QueryDosDeviceW`: a table of device names; a drive that is absent or cannot be queried has none.
- Logging, service control, the install script and the build: no property of interest.
