# Wii host controller drivers: a verified model

The drivers for the Wii and Wii U keep their work in fixed pools of cells that they share with
hardware: queues threaded through descriptors, trees of endpoints, rings, and lists handed from one
interrupt context to the next.  This project models four of them and proves what they promise.

* **EHCI asynchronous schedule** (`EhciTransfers`, `EhciLayout`, `EhciUpdates`, `EhciWalks`,
  `EhciOverlay`, `EhciSchedule`, `EhciStores`, `EhciRuns`).  `EhciSchedule.AsyncSchedule` is the driver's state: the transfer and endpoint
  pools as arrays, the queued transactions, and the links of both the driver and the controller.  A
  ghost field says where every transfer belongs.  Its invariant (`EhciLayout.Ok`) holds after every
  operation: creating and deleting endpoints, submitting, completing and aborting transfers, every
  failing exit and the rollback of a submission the controller could not be told about.
* **OHCI endpoint and transfer scheduling** (`OhciInterruptPlan`, `OhciTree`, `OhciSchedule` for the
  interrupt tree and its admission of bandwidth; `OhciTransfers` for the descriptors of one endpoint;
  `OhciDoneQueue`, `OhciDoneProtocol` and `OhciDoneRest` for retired descriptors; `OhciFrames` for the 64-bit frame
  number).
* **SD host command engine** (`SdhcEngine`): the command queue, the command in flight, its data
  transfer, callbacks that re-enter the engine, and the watchdog.
* **GX2 rings and fences** (`Gx2Ring`, `Gx2Fences`, `Gx2Interrupts`).

`Chains` and `Modular` hold the facts about linked cells and remainders that the others share.

How the model stands for the code:

* A pool is an array or sequence of records and a pointer is an index into it, `NIL` the null pointer.
  Physical addresses are aligned and one-to-one with cells.  Descriptor byte order is the identity.
  Link words keep their flag bits where the code looks at them.
* What hardware may do at any time is nondeterministic: waits for the EHCI controller may time out, an
  SD card may be absent, the SD controller may stay inhibited, the GPU may write interrupt entries
  while they are drained.  The OHCI controller, filter, watchdog, timer and handler interleave at
  every access to shared memory, registers and locks, and so do the controller, the filter and a
  reader of the frame number.  The EHCI controller fetches active descriptors and rewrites tokens of
  queued ones between driver operations, and never leaves more bytes in one than it was given.  It also
  fetches and retires descriptors of a submission before the driver restarts a queue that was empty; in
  `EhciStores` it does so between any two stores.
* The driver writes overlays, links and unlinks queue heads only while the controller is stopped, as long
  as no wait has timed out.  After a wait that did, disabling again returns success without waiting
  (WiiUSB/src/EHCI/WiiEHCI.cpp:440-463), so nothing is claimed about the controller from then on.
* A bounce buffer is a parameter of a submission: an error, or a page-aligned physical address.

Results that are false of the code as a reader might expect them, with the exact condition:

* The EHCI controller stands in a queue if the descriptor its queue head's overlay names next is queued
  there or is the dummy (`EhciOverlay.NeverFree`), and has its place there if none from that one on has
  retired.  Every operation of the driver keeps both in every queue unless a wait times out, with two
  exceptions (`EhciOverlay.PlacesKept`).
  * A submission to an empty queue restarts the controller at the new descriptors, which it may have begun to
    execute: it stands there, and has its place if and only if it has retired none of them
    (`EhciStores.RestartIff`, `EhciSchedule.AsyncSchedule.SubmitAsyncTransfer`).  Otherwise it may wait at a
    retired descriptor in front of active ones, the transaction never done (`EhciRuns.Waiting`).
  * Completing a transaction that asks for repair, because of an error or of a short last descriptor,
    restarts the controller at the next one.  Of a queue in which the controller stood, with n finished
    transactions in front, completeAsyncTransactions leaves the controller at a free cell if and only if
    something is left, the n-th asks for no repair, and an earlier one does or the controller stood at a
    descriptor of the n; otherwise it stands.  It has its place if and only if nothing is left, or none of
    the n asks for repair and it had its place, or the n-th does and no descriptor behind it has retired
    (`EhciSchedule.Fates`, `EhciSchedule.AsyncSchedule.CompleteAsyncTransactions`).  Runs from the start of
    the driver that end at a free cell are `EhciRuns.Stranded`, after a repair, and `EhciRuns.Overtaken`,
    without one.
* A restart makes the controller move bytes again if and only if it had come past the descriptor it is
  restarted at and that has not retired (`EhciOverlay.FetchesAgainIff`, `EhciStores.RestartRepeatsIff`).
* While a submission is written, the controller takes its descriptors in order with finished links and
  tokens, and one of them with stale buffer pointers if and only if it fetches it after the store of
  its token and before that of its last pointer other than zero (`EhciStores.StaleIff`); every
  descriptor with such a last pointer can be so taken (`StaleReached`).
* The bytes of a finished EHCI transaction that the driver copies to the client are exactly those the
  controller moved if and only if no retired descriptor that left bytes over is followed by one that
  moved some (`EhciTransfers.CopiedIffNoGap`).  A run from the start of the driver to a transaction
  with such a gap is `EhciRuns.GapReached`.
* When no OHCI context has a step left to take, every retired descriptor has been completed exactly once
  if and only if no context read a written-back list a second time or removed one that was not read,
  and none is left behind unread (`OhciDoneRest.CompletedIff`).  The filter interrupting the
  watchdog between its read and its removal of a list breaks the first
  (`OhciDoneProtocol.DeliveredTwice`).  Interrupting it between the removal and the acknowledgement
  breaks the second: the watchdog may then acknowledge the next list, which nobody has read
  (`OhciDoneRest.LeftBehind`).  Claims that do not overlap do neither
  (`OhciDoneProtocol.NoOverlapNoClash`, `OhciDoneRest.CompletedExactlyOnce`).
* From any state of a run the OHCI contexts can still come to rest with everything completed exactly once
  if and only if none of these steps has been taken (`OhciDoneRest.RestReachableIff`): a list read
  twice or removed unread; the filter preempting the watchdog, on its own processor, between its read
  and its removal of a list, or while it holds the lock of a side on which the list written back by
  then has transfers; a context acknowledging, or the watchdog leaving off because the main list is not
  empty, while the list in memory is unread and nobody else is about to read it.  Without overlapping
  claims only the lock can keep them from rest (`NonOverlappingRest`): the watchdog takes these locks
  with interrupts on, and the filter then spins for ever (`WaitsForEver`).
* With every overflow acknowledged within 200 frames, a read of the frame number is one wrap, 65536
  frames, ahead if and only if the filter counted a wrap that the frame it took did not show, or had
  counted but not acknowledged one that it did show; it is one wrap behind if and only if the
  filter counts and acknowledges, between the reads of the counter and of the status, a wrap that the
  frame it took did show (`OhciFrames.SplitReadIff`).  Frame numbers go back exactly as far as such
  misses differ (`DecreasesIff`, `ReadsMiss`).
* findInterruptBranch picks the least loaded of the branches that fit in every reachable state if and only
  if the endpoint is polled every frame or every 32 frames (`OhciInterruptPlan.LeastLoadedIff`); it
  does for the other rates as long as no endpoint is polled less often (`ChosenLeastLoaded`).
* Of two submissions within a cycle the fence test tells the later one if and only if its fence is less
  than 2^31 ahead, counting the skipped zero (`Gx2Fences.OrderIff`).
* A wait for a fence that never comes gives up if and only if the timeout is at most 2^32 - 4
  microseconds (`Gx2Fences.GivesUpIff`).
* The number of EHCI descriptors for a buffer is right if and only if rounding its size up stays below
  2^32 (`EhciTransfers.CountExactIff`); a low-speed periodic load is right if and only if the packet
  size is at most 10366 (in) or 10516 (out) bytes (`OhciInterruptPlan.PeriodicLoadExact`).

Where the code and its comments disagree the model follows the code.  The comment at
WiiUSB/src/OHCI/WiiOHCI_UIM.cpp:934-935 promises the least loaded branch, but findInterruptBranch
compares only the first slot of each (`OhciInterruptPlan.MisledChoice`).  The comment at
WiiGraphics/src/Cafe/WiiCafeFB.cpp:263-267 says that an interrupt drains a bounded number of entries;
consumeIHRing drains all of them and bounds only how many it hands out.

## Model

| member | source | states |
|---|---|---|
| EhciTransfers.TokenReadsBack | WiiUSB/src/EHCI/WiiEHCI.cpp:1249-1259 | A fresh token is active and free of error bits, and its byte count, packet identifier, last flag and toggle read back unchanged. |
| EhciTransfers.StatusIsError | WiiUSB/src/EHCI/WiiEHCI.cpp:718-732 | A token converts to an error status exactly when one of the tested error bits is set. |
| EhciTransfers.TokenStatusIs | WiiUSB/src/EHCI/WiiEHCI.cpp:718-732 | The status of a token, bit by bit: a data buffer error comes before babble, that before a transaction error, missed micro-frame or split state, and those before a halt alone. |
| EhciTransfers.CountExactIff | WiiUSB/src/EHCI/WiiEHCI.cpp:48-53 | The 32-bit descriptor count equals the true one if and only if the rounding does not overflow. |
| EhciTransfers.ChunksCover | WiiUSB/src/EHCI/WiiEHCI.cpp:1230-1284 | The descriptors of a transfer cover it in order without gap or overlap, each within the 15-bit byte field. |
| EhciTransfers.ByteInOneChunk | WiiUSB/src/EHCI/WiiEHCI.cpp:1230-1284 | Every byte of a buffer belongs to exactly one descriptor. |
| EhciTransfers.PagesReachExactly | WiiUSB/src/EHCI/WiiEHCI.cpp:1261-1271 | The five page pointers reach all bytes of a descriptor if and only if it does not span six pages. |
| EhciTransfers.PointersReachByte | WiiUSB/src/EHCI/WiiEHCI.cpp:1261-1271 | Whenever a page pointer is selected for byte k, it leads to the descriptor's start plus k. |
| EhciTransfers.DescriptorMapsBytes | WiiUSB/src/EHCI/WiiEHCI.cpp:1261-1271 | From a page-aligned bounce buffer, byte b of descriptor k is the bounce buffer's byte at the descriptor's offset plus b. |
| EhciTransfers.VerdictIs | WiiUSB/src/EHCI/WiiEHCI.cpp:734-804 | From the last descriptor that has retired: the transaction is done if and only if that is the last of all, has an error bit, or is an input descriptor that left bytes over; the status stands for its token; the queue needs repair in the latter two cases. |
| EhciTransfers.RemainderIsUnmoved | WiiUSB/src/EHCI/WiiEHCI.cpp:734-804 | When a transaction is done, its length less the reported remainder is what the retired descriptors moved, never negative, on the clean, short-read and error exits. |
| EhciTransfers.ErrorReportedExactly | WiiUSB/src/EHCI/WiiEHCI.cpp:775-788 | A transaction ends with an error exactly when its last retired descriptor has an error bit. |
| EhciTransfers.CopiedIffNoGap | WiiUSB/src/EHCI/WiiEHCI.cpp:873-894 | The bytes copied from the front of the bounce buffer are exactly the bytes moved if and only if no retired descriptor that left bytes over is followed by a retired one that moved some. |
| EhciWalks.QueueWalk | WiiUSB/src/EHCI/WiiEHCI.cpp:1121-1324 | In every state of the invariant, following the controller's links from an endpoint's first descriptor meets the descriptors of all its transactions in submission order, then its inactive dummy, and nothing else. |
| EhciWalks.RingWalk | WiiUSB/src/EHCI/WiiEHCI.cpp:656-660 | From the schedule's head the controller visits exactly the listed endpoints' queue heads in list order and is back at the head. |
| EhciWalks.ListedKeysDistinct | WiiUSB/src/EHCI/WiiEHCI.cpp:606-609 | No two listed endpoints share function, endpoint number and direction. |
| EhciWalks.PoolPartition | WiiUSB/src/EHCI/WiiEHCI.cpp:549-570 | Between operations every transfer is in exactly one of: the free list, one listed endpoint's dummy, one queued transaction. |
| EhciWalks.TransferredBytes | WiiUSB/src/EHCI/WiiEHCI.cpp:873-876 | For every queued transaction that is done, length less remainder is exactly the bytes moved. |
| EhciWalks.CopiedBytes | WiiUSB/src/EHCI/WiiEHCI.cpp:873-894 | In every state of the invariant the same condition decides, for every queued transaction that is done, whether the client gets exactly the bytes moved. |
| EhciOverlay.NeverFree | WiiUSB/src/EHCI/WiiEHCI.cpp:465-494 | A controller that stands in a queue will fetch a descriptor of a transaction queued there or the dummy, never a free cell. |
| EhciOverlay.FetchMoves | WiiUSB/src/EHCI/WiiEHCI.cpp:1230-1296 | Fetching along the links the driver wrote moves the controller from each descriptor of a queue to the next, up to the dummy. |
| EhciOverlay.AppendKeepsPlace | WiiUSB/src/EHCI/WiiEHCI.cpp:1220-1296 | Writing active descriptors over the dummy keeps the controller's place. |
| EhciOverlay.RemoveKeepsPlace | WiiUSB/src/EHCI/WiiEHCI.cpp:877-882 | Taking off a transaction whose descriptors have all retired moves the place by their number. |
| EhciOverlay.FrontPlacedIff | WiiUSB/src/EHCI/WiiEHCI.cpp:465-494 | A controller restarted at the front of a queue stands there, and has its place if and only if none of the queue's descriptors has retired. |
| EhciOverlay.FetchesAgainIff | WiiUSB/src/EHCI/WiiEHCI.cpp:465-494 | A restart makes the controller fetch again a descriptor it had fetched if and only if it had come past the one it is restarted at and that has not retired. |
| EhciOverlay.RestartedPlacedIff | WiiUSB/src/EHCI/WiiEHCI.cpp:465-494 | Restarting the controller at the front of what is left of a queue gives it a place if and only if none of the descriptors left has retired. |
| EhciUpdates.AllocateKeeps | WiiUSB/src/EHCI/WiiEHCI.cpp:549-560 | Taking the first free transfer keeps the whole invariant. |
| EhciUpdates.ReleaseKeeps | WiiUSB/src/EHCI/WiiEHCI.cpp:562-570 | Returning a transfer keeps the whole invariant. |
| EhciUpdates.AppendKeeps | WiiUSB/src/EHCI/WiiEHCI.cpp:1220-1296 | Writing a transaction over the old dummy and fresh cells and queueing it keeps the invariant: the driver's and the controller's links of the queue again end at its dummy. |
| EhciUpdates.DetachKeeps | WiiUSB/src/EHCI/WiiEHCI.cpp:837-840 | Taking any number of transactions off the front of a queue keeps the invariant. |
| EhciUpdates.DissolveKeeps | WiiUSB/src/EHCI/WiiEHCI.cpp:806-820 | Giving up a detached transaction's descriptors keeps the invariant. |
| EhciUpdates.SwapDummyKeeps | WiiUSB/src/EHCI/WiiEHCI.cpp:1299-1304 | Putting the old dummy back under an empty queue keeps the invariant. |
| EhciUpdates.LinkFirstKeeps | WiiUSB/src/EHCI/WiiEHCI.cpp:656-660 | Linking an endpoint under a new key in front of the list and of the ring of queue heads keeps the invariant. |
| EhciUpdates.UnlinkKeeps | WiiUSB/src/EHCI/WiiEHCI.cpp:1465-1479 | Unlinking an endpoint at any position of the list keeps the invariant. |
| EhciSchedule.LinkThenInitialize | WiiUSB/src/EHCI/WiiEHCI.cpp:340-349 | Linking each transfer before initialising it leaves a free list of one transfer. |
| EhciSchedule.AsyncSchedule.constructor | WiiUSB/src/EHCI/WiiEHCI.cpp:303-360 | The initial state satisfies the invariant, with the given number of transfers free and no endpoint listed. |
| EhciSchedule.AsyncSchedule.AllocateAsyncTransfer | WiiUSB/src/EHCI/WiiEHCI.cpp:549-560 | Takes and initialises the first free transfer, or changes nothing when there is none. |
| EhciSchedule.AsyncSchedule.ReleaseAsyncTransfer | WiiUSB/src/EHCI/WiiEHCI.cpp:562-570 | Puts an initialised transfer first on the free list. |
| EhciSchedule.AsyncSchedule.RebuildAsyncQueue | WiiUSB/src/EHCI/WiiEHCI.cpp:465-494 | On success the overlay points at the start of the queue, its token is cleared or reduced to toggle and ping, its other words are reset, and the schedule is enabled again; nothing else changes. |
| EhciSchedule.AsyncSchedule.WriteOverlay | WiiUSB/src/EHCI/WiiEHCI.cpp:482-491 | An overlay is written only with the controller stopped, unless some wait for it has timed out, and nothing else changes. |
| EhciSchedule.AsyncSchedule.FindEndpointState | WiiUSB/src/EHCI/WiiEHCI.cpp:572-585 | Returns the first listed endpoint with the function and endpoint number that is a control endpoint or has the direction, null if and only if there is none. |
| EhciSchedule.RestartToken | WiiUSB/src/EHCI/WiiEHCI.cpp:482-490 | A restart keeps data toggle and ping state of the overlay token and clears its other bits, and all of a control endpoint's. |
| EhciSchedule.AsyncSchedule.BuildTransfers | WiiUSB/src/EHCI/WiiEHCI.cpp:1224-1285 | Writes exactly the specified descriptor into each cell of the transaction and no other cell. |
| EhciSchedule.DescriptorBuilt | WiiUSB/src/EHCI/WiiEHCI.cpp:1230-1284 | The descriptors so written are chained in order by both kinds of link, the last leading to the new dummy, with lengths and packet identifiers that fit the transaction. |
| EhciSchedule.DescriptorFields | WiiUSB/src/EHCI/WiiEHCI.cpp:1230-1284 | Every field of the token of every descriptor of a submission, and that its pointers lead to the bytes of the bounce buffer that it stands for. |
| EhciSchedule.ToggleIs | WiiUSB/src/EHCI/WiiEHCI.cpp:1228-1279 | The toggle of the k-th descriptor of a control transfer: set from the start of the data, clear for the set-up, flipping from one descriptor to the next if and only if a full descriptor is a number of whole packets. |
| EhciSchedule.AsyncSchedule.SubmitAsyncTransfer | WiiUSB/src/EHCI/WiiEHCI.cpp:1121-1324 | Success queues the transaction last on the first listed endpoint with the function and endpoint number that is a control endpoint or has the direction, over the old dummy and the first free transfers; every failing exit leaves the pool, queues and list divided as before; each error code has its exact cause. Unless a wait times out the controller keeps its place in every other queue, and in this one if it was not empty; in one that was empty it stands at the front, and has its place if and only if it has retired none of the new descriptors. |
| EhciSchedule.AsyncSchedule.ControllerRuns | WiiUSB/src/EHCI/WiiEHCI.cpp:1259-1308 | Before an empty queue is restarted, a controller that was at its dummy executes the new descriptors along their links, as many as it has tokens for, and retires each with its token; nothing else changes. |
| EhciSchedule.AsyncSchedule.SubmitTransaction | WiiUSB/src/EHCI/WiiEHCI.cpp:1176-1323 | Fails for want of memory exactly when fewer transfers are free than needed, and on every failure restores the division of the pool. |
| EhciSchedule.AsyncSchedule.Rollback | WiiUSB/src/EHCI/WiiEHCI.cpp:1298-1320 | Taking a submission back restores every transfer's owner, the empty queue and the old dummy. |
| EhciSchedule.AsyncSchedule.EvaluateAsyncTransaction | WiiUSB/src/EHCI/WiiEHCI.cpp:734-804 | The loops return the verdict of the specification: done or not, status, remainder, and whether the queue needs repair. |
| EhciSchedule.AsyncSchedule.CompleteHead | WiiUSB/src/EHCI/WiiEHCI.cpp:873-899 | Reports the head transaction once, frees exactly its descriptors, advances the queue, and repairs the overlay when asked to or when the queue is empty. The controller keeps its place in every other queue; in this one it keeps it without a restart, and has it after one if and only if no descriptor left has retired. |
| EhciSchedule.Fates | WiiUSB/src/EHCI/WiiEHCI.cpp:854-908 | After completions from the front of a queue in which the controller stood, it stands there or is at a free cell: the latter if and only if something is left, the last one completed asked for no repair, and an earlier one did or the controller stood at a completed descriptor. It is in its place if and only if nothing is left, or none asked for repair and it was in its place, or the last one did and nothing behind it has retired. |
| EhciSchedule.DeliverOne | WiiUSB/src/EHCI/WiiEHCI.cpp:854-908 | Completing the first finished head takes the first of all reports still to be made, and leaves fewer transactions queued. |
| EhciSchedule.FrontAndRest | WiiUSB/src/EHCI/WiiEHCI.cpp:854-908 | What a queue delivers is one report for each transaction of its longest finished front, in order; the rest starts with an unfinished one. |
| EhciSchedule.AsyncSchedule.CompleteAsyncTransactions | WiiUSB/src/EHCI/WiiEHCI.cpp:854-908 | Terminates; reports every endpoint's finished front exactly once in submission order, endpoint by endpoint; afterwards no endpoint's head evaluates as finished. From the verdicts before the call follows, for each queue in which the controller stood and both ways, whether it is left at a free cell and whether in its place. |
| EhciSchedule.DeliveredFrom | WiiUSB/src/EHCI/WiiEHCI.cpp:854-908 | The status reported for a transaction stands for the token of its last descriptor that has retired. |
| EhciSchedule.AbortionsAre | WiiUSB/src/EHCI/WiiEHCI.cpp:842-851 | An abort's reports: one for each transaction of the queue, in order, with the status given and the whole length left over. |
| EhciSchedule.ReleasedFacts | WiiUSB/src/EHCI/WiiEHCI.cpp:842-851 | Freeing a list of transactions frees exactly their cells. |
| EhciSchedule.AsyncSchedule.AbortEndpointTransactions | WiiUSB/src/EHCI/WiiEHCI.cpp:830-852 | Reports each queued transaction once in submission order with its whole length left over, frees exactly their cells, and leaves the endpoint's queue empty. The controller keeps its places. |
| EhciSchedule.AsyncSchedule.UIMAbortEndpoint | WiiUSB/src/EHCI/WiiEHCI.cpp:1426-1441 | Aborts the first listed endpoint with the function and endpoint number that is a control endpoint or has the direction; not found exactly when there is none. |
| EhciSchedule.AsyncSchedule.CreateAsyncEndpoint | WiiUSB/src/EHCI/WiiEHCI.cpp:587-675 | A new key is listed first with an inactive dummy; a known key and every failing exit, including the restart that times out, leave everything as it was. After a success an endpoint with the function and endpoint number is listed that is a control endpoint or has the direction. Memory is short exactly when no endpoint or no transfer is free. |
| EhciSchedule.AsyncSchedule.UIMDeleteEndpoint | WiiUSB/src/EHCI/WiiEHCI.cpp:1443-1484 | Aborts the first listed endpoint with the function and endpoint number that is a control endpoint or has the direction, and removes exactly it from the list, its transfers and dummy free again; when the controller cannot be stopped it stays listed with an empty queue. |
| EhciSchedule.AsyncSchedule.UnlinkEndpoint | WiiUSB/src/EHCI/WiiEHCI.cpp:1465-1479 | The walk to the predecessor finds it, and both lists lose exactly the endpoint. |
| EhciSchedule.AsyncSchedule.ControllerFetches | WiiUSB/src/EHCI/WiiEHCI.hpp:34-44 | The controller's step: it fetches the next descriptor into the overlay if that is active, one place on, and waits at the dummy. |
| EhciSchedule.AsyncSchedule.ControllerRetires | WiiUSB/src/EHCI/WiiEHCI.cpp:734-804 | Rewriting the token of a fetched descriptor keeps the invariant and the controller's places. |
| EhciStores.SubmissionReady | WiiUSB/src/EHCI/WiiEHCI.cpp:1177-1285 | The stores that submit a transaction over an endpoint's dummy and the cells it has allocated meet what the results on their interleaving ask for. |
| EhciStores.StaleIff | WiiUSB/src/EHCI/WiiEHCI.cpp:1245-1271 | However the controller's fetches interleave with the stores, it takes the descriptors in order, with finished links and tokens, and one with stale buffer pointers if and only if it fetches it between the store of its token and that of its last pointer other than zero. |
| EhciStores.RestartIff | WiiUSB/src/EHCI/WiiEHCI.cpp:1259-1308 | However fetches and retirements interleave with the stores, a restart at the submission after the last one gives the controller a place there if and only if no step has retired one of its descriptors. |
| EhciStores.RestartRepeatsIff | WiiUSB/src/EHCI/WiiEHCI.cpp:1306-1308 | The restart makes it move the bytes of a descriptor again if and only if it has taken the first one and not retired that. |
| EhciStores.HalfWrittenIff | WiiUSB/src/EHCI/WiiEHCI.cpp:1259-1271 | For a descriptor with bytes whose pages end below 2^32 that is the time from the store of its token to its last one; for one without bytes there is none. |
| EhciStores.StaleReached | WiiUSB/src/EHCI/WiiEHCI.cpp:1259-1271 | For every descriptor with a last pointer other than zero there is a run in which the controller takes it active and without any of its pointers. |
| EhciRuns.Stranded | WiiUSB/src/EHCI/WiiEHCI.cpp:854-908 | From the constructor, creating an input endpoint, submitting three transactions, retiring the first short and the second fully, and completing leaves the controller at a free cell, unless a wait times out. |
| EhciRuns.Overtaken | WiiUSB/src/EHCI/WiiEHCI.cpp:1306-1308 | From the constructor, a transaction submitted to an empty queue and retired before the restart, a second one, and completing, which needs no repair, leave the controller at a free cell, unless a wait times out. |
| EhciRuns.Waiting | WiiUSB/src/EHCI/WiiEHCI.cpp:1306-1308 | From the constructor, a transaction of two descriptors whose first retires before the restart is not done, and the controller is at that retired descriptor without a place, unless a wait times out. |
| EhciRuns.GapReached | WiiUSB/src/EHCI/WiiEHCI.cpp:873-894 | From the constructor, submitting one transaction of two descriptors and retiring the first short and the second fully gives a finished transaction with a byte moved behind one that was not, unless a wait times out. |
| OhciInterruptPlan.PathFollowsParents | WiiUSB/src/OHCI/WiiOHCI_Descriptors.cpp:563-625 | The lists met from a slot are the nodes from its leaf through the parents to the 1 ms node. |
| OhciInterruptPlan.OnPath | WiiUSB/src/OHCI/WiiOHCI_Descriptors.cpp:373-395 | The node of an interval and branch is met from a slot if and only if the slot modulo the interval is the branch. |
| OhciInterruptPlan.IntervalIs | WiiUSB/src/OHCI/WiiOHCI_Descriptors.cpp:295-311 | The interval is zero for rate zero and otherwise the largest power of two up to the rate, at most 32. |
| OhciInterruptPlan.BusTimeIs | WiiUSB/src/OHCI/WiiOHCI_Descriptors.cpp:313-345 | The load in nanoseconds is the bus time by the formula of USB 2.0, section 5.11.3, rounded down. |
| OhciInterruptPlan.PeriodicLoadExact | WiiUSB/src/OHCI/WiiOHCI_Descriptors.cpp:313-345 | The 16-bit load is the bus time exactly for full speed and for low-speed packets up to a stated size. |
| OhciInterruptPlan.ChooseIsBest | WiiUSB/src/OHCI/WiiOHCI_Descriptors.cpp:347-371 | No branch is chosen exactly when none fits; a chosen one fits and its first slot is the least loaded of all that fit, the lowest branch winning ties. |
| OhciInterruptPlan.ChosenLeastLoaded | WiiUSB/src/OHCI/WiiOHCI_UIM.cpp:934-945 | As long as no endpoint is polled less often than the new one, the chosen branch has the lowest peak of all that fit. |
| OhciInterruptPlan.MisledChoice | WiiUSB/src/OHCI/WiiOHCI_Descriptors.cpp:347-371 | For each rate between, a run of creates after which the branch with the highest peak is chosen although another fits. |
| OhciInterruptPlan.LeastLoadedIff | WiiUSB/src/OHCI/WiiOHCI_UIM.cpp:934-945 | In every reachable state and for every load the chosen branch has the lowest peak of all that fit, if and only if the interval is 1 or 32. |
| OhciInterruptPlan.EveryRunBalanced | WiiUSB/src/OHCI/WiiOHCI_UIM.cpp:915-969 | After any creates and deletes each slot's recorded load is the sum over the endpoints met in it and at most 900. |
| OhciInterruptPlan.RefusedExactlyWhenFull | WiiUSB/src/OHCI/WiiOHCI_UIM.cpp:915-969 | An endpoint is refused for bandwidth exactly when its rate is zero or every branch has a slot that would pass 900. |
| OhciInterruptPlan.ClampNeverFires | WiiUSB/src/OHCI/WiiOHCI_Descriptors.cpp:397-411 | Deleting an endpoint never drives a slot's load below zero. |
| OhciInterruptPlan.LocatedHasKey | WiiUSB/src/OHCI/WiiOHCI_Descriptors.cpp:630-758 | The endpoint found under a key has its function and endpoint number, and its direction unless it is a control endpoint; none is found only when none has the key. |
| OhciInterruptPlan.CreateThenDelete | WiiUSB/src/OHCI/WiiOHCI_UIM.cpp:1172-1269 | Creating an endpoint under an unused key and deleting it again restores all lists and loads. |
| OhciTree.WalkIsSlot | WiiUSB/src/OHCI/WiiOHCI_Descriptors.cpp:563-625 | The controller's walk from a slot meets exactly the cells of the slot's lists in order: hardware and driver links name the same cells. |
| OhciTree.MetExactlyOnItsBranch | WiiUSB/src/OHCI/WiiOHCI_Descriptors.cpp:563-625 | An endpoint is met once from every slot of its branch and never from another. |
| OhciTree.WalkLoad | WiiUSB/src/OHCI/WiiOHCI_Descriptors.cpp:397-411 | The recorded load of a slot is the sum over the cells the controller meets there. |
| OhciTree.InsertKeeps | WiiUSB/src/OHCI/WiiOHCI_Descriptors.cpp:829-832 | Linking a new endpoint behind a list head keeps the tree's invariant. |
| OhciTree.RemoveKeeps | WiiUSB/src/OHCI/WiiOHCI_UIM.cpp:1230-1231 | Unlinking an endpoint from its predecessor keeps the tree's invariant. |
| OhciSchedule.InterruptSchedule.constructor | WiiUSB/src/OHCI/WiiOHCI_Descriptors.cpp:416-625 | Initialisation builds the tree of 63 nodes and the 32-slot table with no endpoint and no load. |
| OhciSchedule.InterruptSchedule.FindInterruptBranch | WiiUSB/src/OHCI/WiiOHCI_Descriptors.cpp:347-371 | The loops return the specified choice. |
| OhciSchedule.InterruptSchedule.AdjustInterruptBranchLoad | WiiUSB/src/OHCI/WiiOHCI_Descriptors.cpp:397-411 | The loop changes exactly the slots of the branch. |
| OhciSchedule.InterruptSchedule.UIMCreateInterruptEndpoint | WiiUSB/src/OHCI/WiiOHCI_UIM.cpp:915-969 | The pointer operations have exactly the effect and status of the plan's create. |
| OhciSchedule.InterruptSchedule.PolledAsAsked | WiiUSB/src/OHCI/WiiOHCI_UIM.cpp:915-969 | After a successful create the controller's walks meet the new endpoint, which has the key given, in at least one of any polling rate of frames in a row. |
| OhciSchedule.InterruptSchedule.CreateListEndpoint | WiiUSB/src/OHCI/WiiOHCI_Descriptors.cpp:777-835 | Control, bulk and isochronous endpoints are added first to their list. |
| OhciSchedule.InterruptSchedule.GetEndpoint | WiiUSB/src/OHCI/WiiOHCI_Descriptors.cpp:630-758 | The search finds the endpoint the plan locates, with its predecessor and kind. |
| OhciSchedule.InterruptSchedule.UIMDeleteEndpoint | WiiUSB/src/OHCI/WiiOHCI_UIM.cpp:1172-1269 | The pointer operations have exactly the effect and status of the plan's delete. |
| OhciSchedule.InterruptSchedule.SlotWalk | WiiUSB/src/OHCI/WiiOHCI_Descriptors.cpp:563-625 | In every valid state, the hardware walk from each slot meets each endpoint exactly on its branch and its load is the recorded one, at most 900. |
| OhciTransfers.ByteInOnePiece | WiiUSB/src/OHCI/WiiOHCI_UIM.cpp:93-174 | Every byte of a buffer lies in exactly one descriptor's piece. |
| OhciTransfers.GrownMore | WiiUSB/src/OHCI/WiiOHCI_UIM.cpp:93-174 | Turning the dummy into the next piece and adding a fresh dummy extends the queue by exactly that piece. |
| OhciTransfers.TransferQueue.DoGeneralTransfer | WiiUSB/src/OHCI/WiiOHCI_UIM.cpp:51-207 | Appends one descriptor per started 0x800 bytes, in order, only the last with the completion; both kinds of link end at the new dummy; a halted queue is refused exactly when it is not empty, and revived otherwise. |
| OhciDoneQueue.DividedByKind | WiiUSB/src/OHCI/WiiOHCI_Interrupts.cpp:59-75 | A transfer goes to the inbound list if and only if it is inbound and isochronous or low-latency; every general transfer goes to the main one. |
| OhciDoneQueue.OrderReversed | WiiUSB/src/OHCI/WiiOHCI_Interrupts.cpp:59-75 | Of two transfers on one side, the one retired first comes first. |
| OhciDoneQueue.DoneQueue.QueueDoneHeadTransfers | WiiUSB/src/OHCI/WiiOHCI_Interrupts.cpp:10-100 | Turns the controller's list into an oldest-first list of inbound isochronous transfers and one of the rest, each in front of what waits; signals exactly when the latter is not empty. |
| OhciDoneQueue.DoneQueue.HandleIsoInTimer | WiiUSB/src/OHCI/WiiOHCI_Interrupts.cpp:357-408 | Moves the inbound list in order in front of the main one and signals if there was one. |
| OhciDoneQueue.DoneQueue.TakeDone | WiiUSB/src/OHCI/WiiOHCI_Interrupts.cpp:263-270 | Takes the whole main list and leaves it empty. |
| OhciDoneQueue.DoneQueue.CompleteTransferQueue | WiiUSB/src/OHCI/WiiOHCI_UIM.cpp:693-727 | Completes each transfer of the list once, in order. |
| OhciDoneProtocol.ClaimAlone | WiiUSB/src/OHCI/WiiOHCI_Interrupts.cpp:10-154 | A claim that is not disturbed removes and acknowledges the list, puts its transfers oldest first in front of what waits on either list, and signals if and only if the main list got any. |
| OhciDoneProtocol.WatchdogLooks | WiiUSB/src/OHCI/WiiOHCI_Interrupts.cpp:320-326 | The watchdog takes up a list if and only if its status is raised and the main list is empty. |
| OhciDoneProtocol.TimerAlone | WiiUSB/src/OHCI/WiiOHCI_Interrupts.cpp:357-408 | The timer alone moves the inbound list in front of the main one and signals if there was one. |
| OhciDoneProtocol.HandlerAlone | WiiUSB/src/OHCI/WiiOHCI_Interrupts.cpp:246-303 | The handler alone completes everything on the main list in order. |
| OhciDoneProtocol.NextCopies | WiiUSB/src/OHCI/WiiOHCI_Interrupts.cpp:107-408 | Every step of every context moves retirements without losing or copying one, except the clashing reads and clears. |
| OhciDoneProtocol.ExactlyOnceIffNoClash | WiiUSB/src/OHCI/WiiOHCI_Interrupts.cpp:107-408 | Over all interleavings, every retirement is in exactly one place, a list left behind unread counting as one, if and only if no list was read twice or removed unread. |
| OhciDoneProtocol.NoOverlapNoClash | WiiUSB/src/OHCI/WiiOHCI_Interrupts.cpp:139-154 | Claims of the filter and the watchdog that do not overlap never clash. |
| OhciDoneProtocol.AlwaysAwake | WiiUSB/src/OHCI/WiiOHCI_Interrupts.cpp:78-90 | Whatever waits for the handler will be taken: no wakeup is lost in any interleaving. |
| OhciDoneRest.CompletedIff | WiiUSB/src/OHCI/WiiOHCI_Interrupts.cpp:139-154 | When no context has a step left to take, every retirement has been completed exactly once if and only if no list was read twice or removed unread and none is left behind unread. |
| OhciDoneRest.CompletedExactlyOnce | WiiUSB/src/OHCI/WiiOHCI_Interrupts.cpp:246-303 | When no context has a step left to take after claims that did not overlap, each retirement has been completed exactly once. |
| OhciDoneRest.DoomedSince | WiiUSB/src/OHCI/WiiOHCI_Interrupts.cpp:320-334 | As long as no list is read twice or removed unread, a state is one with a trapped filter, a lost list or a list about to be read twice if and only if one of the stated steps has been taken. |
| OhciDoneRest.CanComeToRest | WiiUSB/src/OHCI/WiiOHCI_Interrupts.cpp:10-408 | Unless one of the stated steps has been taken, the contexts can complete every retirement exactly once and come to rest in finitely many steps, without further retirements and with no further claims overlapping. |
| OhciDoneRest.RestReachableIff | WiiUSB/src/OHCI/WiiOHCI_Interrupts.cpp:107-408 | After any run they can still come to rest with everything completed exactly once if and only if none of the stated steps has been taken. |
| OhciDoneRest.NonOverlappingRest | WiiUSB/src/OHCI/WiiOHCI_Interrupts.cpp:78-99 | Without overlapping claims they can if and only if the filter has never preempted the watchdog while that held the lock of a side on which the list written back by then had transfers. |
| OhciDoneRest.LeftBehind | WiiUSB/src/OHCI/WiiOHCI_Interrupts.cpp:320-334 | A concrete run in which the watchdog acknowledges a list that nobody has read: no context has a step left to take, one retirement is not completed, and rest with everything completed is never reached. |
| OhciDoneRest.WaitsForEver | WiiUSB/src/OHCI/WiiOHCI_Interrupts.cpp:320-334 | A concrete run without overlapping claims that ends with the filter spinning on a lock of the watchdog it preempted, never to rest. |
| OhciDoneProtocol.DeliveredTwice | WiiUSB/src/OHCI/WiiOHCI_Interrupts.cpp:320-334 | A concrete interleaving of watchdog and filter in which one retirement is delivered twice. |
| OhciFrames.PromptTracks | WiiUSB/src/OHCI/WiiOHCI_Interrupts.cpp:199-205 | While each overflow is acknowledged before the next is raised, the driver's counter loses no wrap. |
| OhciFrames.FrameNumberIs | WiiUSB/src/OHCI/WiiOHCI.cpp:508-521 | However frames and the filter's accesses interleave with the three accesses of a read, its result is the frame at its start plus its error in wraps. |
| OhciFrames.ExactIff | WiiUSB/src/OHCI/WiiOHCI.cpp:508-521 | While each overflow is acknowledged before the next is raised, a read of any length is exact if and only if the wraps it adds and lacks cancel out. |
| OhciFrames.SplitReadIff | WiiUSB/src/OHCI/WiiOHCI.cpp:508-521 | With overflows acknowledged within fewer than 200 frames, a read is one wrap ahead, one wrap behind or exact, each if and only if its condition on the interleaving holds. |
| OhciFrames.FrameNumberExact | WiiUSB/src/OHCI/WiiOHCI.cpp:508-521 | A read during which the filter does nothing, and that does not start between its counting and acknowledging, is exact whatever frames start meanwhile. |
| OhciFrames.DecreasesIff | WiiUSB/src/OHCI/WiiOHCI.cpp:508-521 | Of two reads the later returns less if and only if it starts fewer frames later than its error is below the earlier one's. |
| OhciFrames.NeverDecreases | WiiUSB/src/OHCI/WiiOHCI.cpp:508-521 | From a read that is not ahead to one that is not behind the frame number never decreases. |
| OhciFrames.ReadsMiss | WiiUSB/src/OHCI/WiiOHCI.cpp:508-521 | One promptly serviced wrap around which reads are ahead in two ways and behind in one, and a later read returns less. |
| OhciFrames.FrameNumber32Agrees | WiiUSB/src/OHCI/WiiOHCI.cpp:528-541 | The 32-bit frame number is the 64-bit one modulo 2^32, however the read is interrupted. |
| OhciFrames.FrameCounter.GetFrameNumber | WiiUSB/src/OHCI/WiiOHCI.cpp:508-521 | With the controller and the filter going on between its accesses, returns the number that the states it found give. |
| OhciFrames.FrameCounter.GetFrameNumber32 | WiiUSB/src/OHCI/WiiOHCI.cpp:528-541 | Returns that number modulo 2^32. |
| SdhcEngine.Engine.ExecuteCommandGated | WiiStorage/src/SDHC/WiiSDHC_Commands.cpp:165-175 | The command is submitted behind all earlier ones, afterwards nothing waits while the controller is free, and the commands submitted are exactly the clients' and those of completed commands' callbacks. |
| SdhcEngine.Engine.DispatchNext | WiiStorage/src/SDHC/WiiSDHC_Commands.cpp:182-215 | Commands begin in submission order, at most one is in flight, the controller is busy exactly then; a command that begins is issued, or completes next with the cause why it is not; the recursion through completions is bounded by the work submitted. |
| SdhcEngine.Engine.CompleteIO | WiiStorage/src/SDHC/WiiSDHC_Commands.cpp:543-571 | The command in flight completes once with its status, its callback submits all its follow-ups, and the next command begins. |
| SdhcEngine.Engine.PrepareDataTx | WiiStorage/src/SDHC/WiiSDHC_Commands.cpp:475-536 | Sets up all blocks at once; a write's bytes are in the double buffer. |
| SdhcEngine.Engine.IssueCommand | WiiStorage/src/SDHC/WiiSDHC_Commands.cpp:239-333 | Issues the command with its data set up once, byte for byte in the double buffer if it writes, or fails because the controller stays inhibited or the buffer is too small. |
| SdhcEngine.Engine.FinishCommandPhase | WiiStorage/src/SDHC/WiiSDHC_Commands.cpp:338-383 | The command phase ends, fails or goes on to the data phase exactly as the interrupt status says. |
| SdhcEngine.Engine.FinishDataPhase | WiiStorage/src/SDHC/WiiSDHC_Commands.cpp:385-457 | A transfer that completes without error succeeds with all bytes; data is never set up again; a read leaves the double buffer's bytes in the caller's range. |
| SdhcEngine.Engine.DoAsyncIO | WiiStorage/src/SDHC/WiiSDHC_Commands.cpp:222-468 | In terms of the bits of the two status words, exactly when an issued command completes, with which status and which data in the caller's buffer; otherwise it stays in flight in its data phase and nothing else changes. |
| SdhcEngine.Engine.ServiceInterruptStatus | WiiStorage/src/SDHC/WiiSDHC_Private.cpp:22-44 | The same of a raw interrupt status, whose low half is the normal and whose high half the error status; no status or no command, no change. |
| SdhcEngine.ReadLeaves | WiiStorage/src/SDHC/WiiSDHC_Commands.cpp:405-419 | Byte for byte what a read leaves in the caller's buffer, the signature bytes of block 0 zeroed. |
| SdhcEngine.Engine.CommandWatchdogFired | WiiStorage/src/SDHC/WiiSDHC_Private.cpp:58-102 | A silent firing takes a millisecond off the time left or, when none is left, completes the command with a timeout or the pending error; an interrupt is answered as by ServiceInterruptStatus and gives the command in flight its whole time again. |
| SdhcEngine.Engine.SilentFirings | WiiStorage/src/SDHC/WiiSDHC_Private.cpp:58-102 | Without interrupts up to 4999 firings leave the command in flight and all completions as they are, a millisecond less left each time; the 5000th completes exactly that command with the pending error or a timeout. |
| SdhcEngine.WorkOfLeaves | WiiStorage/src/SDHC/WiiSDHC_Commands.cpp:543-571 | When callbacks submit nothing, the work outstanding, which bounds the nesting, is the number of queued commands. |
| Gx2Fences.FenceIs | WiiGraphics/src/Cafe/WiiGX2.cpp:2031-2035 | The k-th fence is ((k - 1) mod (2^32 - 1)) + 1. |
| Gx2Fences.OrderAgrees | WiiGraphics/src/Cafe/WiiGX2.cpp:2097-2099 | For submissions fewer than 2^31 - 1 apart the signed-difference test is submission order. |
| Gx2Fences.OrderIff | WiiGraphics/src/Cafe/WiiGX2.cpp:2097-2099 | Within a cycle the test agrees with submission order if and only if the later fence is less than 2^31 ahead, the skipped zero counted. |
| Gx2Fences.ReachedMeansRetired | WiiGraphics/src/Cafe/WiiGX2.cpp:2092-2103 | With retirement in order, a fence shows as reached exactly when its submission and all earlier ones have retired. |
| Gx2Fences.WaitUserFence | WiiGraphics/src/Cafe/WiiGX2.cpp:2080-2104 | Reports the fence reached at the first poll that shows it, unless the 32-bit elapsed time passes the timeout first. |
| Gx2Fences.WaitForSubmission | WiiGraphics/src/Cafe/WiiGX2.cpp:2080-2104 | With submissions retiring in order, a wait for a submission's fence reports it reached if and only if that and all earlier submissions have retired by a poll within the time allowed. |
| Gx2Fences.GivesUpIff | WiiGraphics/src/Cafe/WiiGX2.cpp:2092-2103 | A hopeless wait ends if and only if the timeout is at most 2^32 - 4. |
| Gx2Fences.GivesUpAfter | WiiGraphics/src/Cafe/WiiGX2.cpp:2092-2103 | Up to 4294967280 it ends after as many polls as 20-microsecond intervals fit. |
| Gx2Ring.HeaderReadsBack | WiiGraphics/src/Cafe/GX2Regs.hpp:885-886 | Type, count and opcode of a packet header read back. |
| Gx2Ring.AddressReadsBack | WiiGraphics/src/Cafe/WiiGX2.cpp:2042-2043 | The two address words of a packet give back the 40 bits of a dword address. |
| Gx2Ring.ConsumeEncoded | WiiGraphics/src/Cafe/WiiGX2.cpp:650-656 | Reading a ring window that holds encoded packets by their headers' counts gives back exactly those packets. |
| Gx2Ring.CommandRing.RingWrite | WiiGraphics/src/Cafe/WiiGX2.cpp:650-656 | Appends one dword behind those written, wrapping at the ring's end. |
| Gx2Ring.CommandRing.Pm4SetContextRegs | WiiGraphics/src/Cafe/WiiGX2.cpp:1587-1596 | Emits one packet with all values, whose index gives back the register, or nothing for none. |
| Gx2Ring.CommandRing.Pm4SetVTXResource | WiiGraphics/src/Cafe/WiiGX2.cpp:1616-1646 | Emits exactly one resource packet, whose words give back slot, address, size and stride. |
| Gx2Ring.CommandRing.Pm4WaitEopFence | WiiGraphics/src/Cafe/WiiGX2.cpp:1649-1660 | Emits exactly one wait packet, whose words give back the fence's address and value. |
| Gx2Ring.CommandRing.SubmitIndirectBuffer | WiiGraphics/src/Cafe/WiiGX2.cpp:2004-2078 | Emits the buffer, flush and fence packets under the next nonzero fence, or refuses and changes nothing; the packets' words give back the buffer's address and size and the fence page's address. |
| Gx2Ring.CommandRing.ParsedExactly | WiiGraphics/src/Cafe/WiiGX2.cpp:1581-1660 | Reading from the old to the new write pointer gives back exactly the packets emitted, wherever the ring wraps. |
| Gx2Interrupts.SameOffsetIff | WiiGraphics/src/Cafe/WiiGX2.cpp:770-779 | Two ring offsets are equal exactly when a multiple of 4096 entries lies between them. |
| Gx2Interrupts.InterruptRing.ConsumeIHRing | WiiGraphics/src/Cafe/WiiGX2.cpp:757-807 | Whatever the GPU appends meanwhile, drains exactly the entries sent before the call, in order, without loss or repetition, and hands out the first of them up to the caller's limit. |

## Left out

- EhciSchedule.AsyncSchedule.SubmitAsyncTransfer: the stores of a submission are one step, and what the controller does with its descriptors before a restart comes behind them; their interleaving is the subject of EhciStores.StaleIff and EhciStores.RestartIff. A controller that has been left at a free cell does nothing, also when a submission takes that cell.
- EhciStores.StaleIff: takes the stores of one submission alone, in program order.
- EhciSchedule.AsyncSchedule.CompleteAsyncTransactions: callbacks do not submit, abort or delete; tokens do not change during the call.
- EhciSchedule.AsyncSchedule.CompleteHead: the copy into the client's buffer is not performed; what it copies is the subject of EhciWalks.CopiedBytes.
- EhciSchedule.AsyncSchedule.AbortEndpointTransactions: callbacks do not re-enter the driver.
- EhciSchedule.AsyncSchedule.CreateAsyncEndpoint: the two capability words of a queue head are not modelled.
- EhciSchedule.AsyncSchedule.ControllerFetches: a queue head that has halted is not kept from fetching, and the overlay's page and status words while a descriptor is executed are those it was fetched with.
- EhciSchedule.AsyncSchedule.UIMDeleteEndpoint: the endpoint it releases has no transactions left, so the loop in releaseEndpointState that frees some is not modelled.
- OhciSchedule.InterruptSchedule.UIMDeleteEndpoint: the key of function 0, endpoint 0, no direction is excluded, because the search range of the 1 ms node includes the isochronous list's head.
- OhciSchedule.InterruptSchedule.GetEndpoint: excludes the same key.
- OhciSchedule.InterruptSchedule.UIMCreateInterruptEndpoint: the endpoint and its tail transfer can always be allocated.
- OhciSchedule.InterruptSchedule.CreateListEndpoint: the endpoint and its tail transfer can always be allocated, and isochronous bandwidth is not modelled.
- OhciTransfers.TransferQueue.DoGeneralTransfer: allocation succeeds, and descriptors come from the unused part of the pool; isochronous transfers are not modelled.
- OhciDoneQueue.DoneQueue.HandleIsoInTimer: the copy of inbound data into the source buffers is not modelled.
- OhciDoneQueue.DoneQueue.CompleteTransferQueue: failed transfers and the return of transfers to the free list are not modelled.
- OhciDoneRest.CompletedExactlyOnce: says what holds when no context has a step left to take; when they can get there is OhciDoneRest.RestReachableIff, that the operating system schedules them so is not modelled.
- OhciDoneRest.RestReachableIff: the handler and the watchdog, which share a work loop, interleave freely, as do threads that the filter holds up on the watchdog's processor; neither holds a lock across steps.
- OhciFrames.SplitReadIff: the 64-bit counter is read and written in one access.
- SdhcEngine.Engine.IssueCommand: the words written to the command registers are not modelled.
- SdhcEngine.Engine.FinishCommandPhase: the response data read in this phase is not modelled.
- Gx2Fences.WaitUserFence: the values the fence page shows are a parameter, so that a wait that never ends is one whose observations run out.
- EHCI: a submission's record can always be allocated, and nothing is said of the dead store of the first descriptor's link before it is initialised, copies into the client's buffer, clearing a stalled endpoint, UIMFinalize, which drops transactions without completing them, and whether control toggles across several descriptors match the device.
- OHCI: the path of failed transfers, out-of-memory exits, isochronous bandwidth, the control-list priming endpoint, removal of an endpoint's queued transfers, root hub emulation.
- SDHC: card identification, clock and power set-up, the words written to the command registers, response data, cache maintenance, and prepare and complete of memory descriptors.
- GX2: a read-pointer check before the ring is written, which the code does not make either: a run of calls is assumed shorter than the ring.
- Framebuffer, audio, EXI, IPC, processor start-up, interrupt controllers, register tables, build scripts, and the user-space GX2 library: single-branch logic or foreign calls.
