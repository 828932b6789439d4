# GinkgoOS in Dafny

A Dafny model of the parts of GinkgoOS whose correctness is hardest to see, and
proofs about them: the capability and message-passing core of the kernel, the
window protocol, wait registration, the asynchronous AHCI disk driver, the HID
descriptor parser and report decoder, the application package and registry
formats, and the framebuffer writer.

`dafny verify dfyconfig.toml` checks the whole project.

## What is modelled

**Capabilities and channels** (`Handles`, `Transfers`, `Channels`,
`ChannelGraph`, `World`, `WorldInvariant`, `Runs`, `Interleaving`, `Reclamation`,
`Authority`, `IpcHeap`).
A world holds every handle table, every channel with both queues, a count of
strong references per object, the rights each object was installed with, and the
references whose destructors have not run yet. Every public operation is a step
of that world, failed ones included. `IpcHeap.Heap` is the same system as a class
whose methods update tables and queues in place and refine the steps. The main
results hold in every reachable world: reference counts are exact, channel
ownership is acyclic, rights only shrink, a handle never comes back to life, and
the destructor cascade stops and reclaims exactly what no table can reach.
A write that carries handles is also modelled as the code runs it: it begins, its
cycle search takes one channel lock at a time, and it commits, while other
operations run in between (`Interleaving`). Every such run is a run of atomic
operations, so the invariant holds there too. `Authority` says, of table entries and
queues alone, what each right permits and what a receiver gets.

**Windows and waits** (`Windows`, `Waits`, `Wakeups`, `Cancellation`). Buffers, presentations and releases
of one window, and the registration protocol in which marking, taking and
calling back happen in separate critical sections of any number of threads.

**AHCI** (`Prdt`, `SlotMasks`, `Ahci`, `AhciRuns`, `AhciReset`, `AhciRequests`,
`AhciDriver`). Descriptor
tables (section 4.2.3.3 of AHCI 1.3.1), queued command slots, the completion ring
and the reset machine that must prove the DMA engines stopped (section 10.3 of
AHCI 1.3.1). Everything the hardware answers is an argument of the event.

**HID** (`HidValues`, `HidLayout`, `HidParser`, `HidItems`, `Nesting`, `HidMeaning`,
`HidExact`, `HidDescriptor`, `HidDecode`, `HidReplay`, `HidTrust`, `HidDecoder`,
`HidPackets`, `HidListener`, `HidDevice`, `HidAnalog`).
Report descriptors (section 6.2.2 of the
USB Device Class Definition for HID 1.11), the layouts they describe, and the
decoder that turns packets into key, button and axis events. `HidMeaning` says of the
list of items what a descriptor means, and the parser computes exactly that.

**Packages** (`Fields`, `Package`, `PackageCodec`, `Registry`, `RegistryStore`,
`RegistryRuns`, `Validation`). Both binary formats, as functions and as the cursor loops that read
them, and the naming rules in force.

**Graphics** (`Colors`, `Framebuffer`, `NativePixels`). Colour packing for arbitrary masks, and
the wide-store paths against one pixel at a time.

`Objects`, `Totals`, `Refs`, `LittleEndian` and `Bits` hold shared vocabulary.

## Properties that do not hold as hoped

- A window can show WRITABLE when no present can succeed: after a run that used up
  the serials (`Windows.WritableAtExhaustion`). `Windows.WritableIsExact` gives the
  exact condition.
- For the native layout the wide path does not store the same bytes as the pixel
  path, which clears the unused byte: they agree exactly when that byte is zero
  (`NativePixels.RegionAgreesExactly`). The colour shown is the same in any case
  (`NativePixels.NativePixelShowsItsColor`).
- The AHCI completion ring can overflow when commands are submitted without
  asking whether the port is ready (`AhciReset.OverflowWithoutPolling`).
  `AhciRuns.OverflowThreatensExactly` gives the exact condition on the port, and
  `AhciRuns.PoliteRunsNeverOverflow` shows that asking first is enough.
- Replaying a HID field's events can disagree with what the decoder calls active.
  `HidPackets.ReplayMatchesExactly` says for which fields and keys it never does:
  absolute variable fields without two elements for the key, relative ones with
  none, and arrays in which what is announced as the key is what holds it, by one
  value only unless the array has a single place. For a whole device
  `HidDevice.ListenerIsRightExactly` adds that at most one field may speak of the
  key, and `HidDevice.DeviceTestIsExact` decides it from the parsed layout.
- Relative axis events do not always add up to the motion reported: an unsigned 32-bit
  field can report more than a signed word. `HidAnalog.WordHoldsExactly` says for
  which fields that cannot happen, `HidAnalog.MotionIsConserved` what is lost.
- `DuplicateGenerationFilename` and the encoder's `PackageTooLarge` can never be
  reported (`Registry.DuplicateFilenameUnreachable`, `PackageCodec.EncodePackage`).

## Model

| member | source | states |
|---|---|---|
| Handles.PackingIsBijective | crates/ginkgo-ipc/src/kernel.rs:164-175 | packing an index and a generation into a raw handle and unpacking it are mutual inverses, and no live handle is zero |
| Handles.DistinctHandlesNameDistinctSlots | crates/ginkgo-ipc/src/kernel.rs:2748-2755 | two valid handles of one table name the same slot exactly when they are the same handle |
| Handles.HandleLifeIsOneInterval | crates/ginkgo-ipc/src/kernel.rs:234-250 | along any evolution of a table a valid handle keeps naming the same entry until it dies, and a dead handle stays dead |
| Handles.IssuedSurvives | crates/ginkgo-ipc/src/kernel.rs:234-250 | every handle ever handed out stays accounted for (live, or of an older generation) along any evolution |
| Handles.FreshHandle | crates/ginkgo-ipc/src/kernel.rs:2793-2803 | the handle a vacant slot would issue has never been issued before |
| Handles.VacantBelowIsExact | crates/ginkgo-ipc/src/kernel.rs:2757-2791 | the vacancies found are exactly the empty, unretired slots, in ascending order |
| Handles.ReservationIsSound | crates/ginkgo-ipc/src/kernel.rs:2757-2791 | a reservation names distinct usable slots below the capacity, the lowest ones first, and keeps the table invariant |
| Handles.HandleTable.constructor | crates/ginkgo-ipc/src/kernel.rs:1419-1421 | a new table is valid and has issued nothing |
| Handles.HandleTable.ValidatedSlot | crates/ginkgo-ipc/src/kernel.rs:2748-2755 | resolves a handle, or reports InvalidHandle |
| Handles.HandleTable.CountVacant | crates/ginkgo-ipc/src/kernel.rs:2757-2791 | the counting loop returns the number of reusable slots |
| Handles.HandleTable.FirstVacant | crates/ginkgo-ipc/src/kernel.rs:2757-2791 | the collecting loop returns the lowest reusable slots, as many as asked for if there are that many |
| Handles.HandleTable.AppendVacant | crates/ginkgo-ipc/src/kernel.rs:2757-2791 | the growing loop appends exactly the missing fresh slots |
| Handles.HandleTable.ReserveSlots | crates/ginkgo-ipc/src/kernel.rs:2757-2791 | HandleTableFull exactly when fewer slots remain than requested; every failure changes nothing; success yields the specified indices |
| Handles.HandleTable.InsertReserved | crates/ginkgo-ipc/src/kernel.rs:2793-2803 | fills only that slot and returns a handle that resolves to it and was never issued before |
| Handles.HandleTable.HandleClose | crates/ginkgo-ipc/src/kernel.rs:2583-2592 | removes exactly the named entry, retires its generation, and the handle is invalid afterwards; an invalid handle changes nothing |
| Transfers.BatchErrorFromIsExact | crates/ginkgo-ipc/src/kernel.rs:2820-2891 | the ordered validation is silent exactly for distinct, live, sufficiently privileged handles whose requested rights do not exceed their source |
| Transfers.BatchErrorIsExact | crates/ginkgo-ipc/src/kernel.rs:2412-2528 | a whole batch validates exactly when it is acceptable |
| Transfers.TakeFirstIsExact | crates/ginkgo-ipc/src/kernel.rs:2820-2891 | a batch vacates exactly the moved slots, once each, and touches no other slot |
| Transfers.TakeMovesEvolves | crates/ginkgo-ipc/src/kernel.rs:2820-2891 | taking the moves out keeps the table invariant and never revives a handle |
| Transfers.BatchConservesRefs | crates/ginkgo-ipc/src/kernel.rs:2820-2891 | for every object, what leaves the table plus what is kept equals what was there plus one per duplicate |
| Transfers.InstallFirstIsExact | crates/ginkgo-ipc/src/kernel.rs:2793-2803 | installing fills exactly the reserved slots, in order |
| Transfers.ReceivedEvolves | crates/ginkgo-ipc/src/kernel.rs:2535-2580 | receiving keeps the table invariant and only uses vacant slots |
| Transfers.ReceivedAddsRefs | crates/ginkgo-ipc/src/kernel.rs:2535-2580 | receiving adds exactly the received references, per object |
| Transfers.TakeBatch | crates/ginkgo-ipc/src/kernel.rs:2412-2528 | the removal loop realises the specified table |
| Transfers.InstallEntries | crates/ginkgo-ipc/src/kernel.rs:2535-2580 | the installation loop fills the reserved slots and returns fresh handles naming the entries in order |
| Transfers.Receive | crates/ginkgo-ipc/src/kernel.rs:2535-2580 | reserve-then-install is all or nothing, and refuses for lack of room exactly when there is none |
| Transfers.ReceiveNew | crates/ginkgo-ipc/src/kernel.rs:2930-2962 | installing new objects reserves first; a failure to make them leaves only vacant slots behind |
| Channels.PushKeepsInv | crates/ginkgo-ipc/src/kernel.rs:2412-2528 | queueing keeps the direction a bounded FIFO of what was sent, and the recycled buffers within bounds |
| Channels.PopKeepsInv | crates/ginkgo-ipc/src/kernel.rs:2535-2580 | reading keeps the channel invariant |
| Channels.CloseKeepsInv | crates/ginkgo-ipc/src/kernel.rs:876-888 | closing a side empties it and keeps the channel invariant |
| Channels.DeliveryIsFifo | crates/ginkgo-ipc/src/kernel.rs:2535-2580 | what a side reads next is the oldest message sent to it and not yet read |
| Channels.OnlyNotifiedSidesAreRaised | crates/ginkgo-ipc/src/kernel.rs:982-994 | a write, a read or a lost buffer raises signals only on the side that is then notified |
| Channels.PushCount | crates/ginkgo-ipc/src/kernel.rs:2412-2528 | queueing adds exactly the message's references |
| Channels.PopCount | crates/ginkgo-ipc/src/kernel.rs:2535-2580 | reading takes out exactly the message's references |
| Channels.CloseCount | crates/ginkgo-ipc/src/kernel.rs:876-888 | closing releases exactly the references that were queued |
| ChannelGraph.NoNewCycle | crates/ginkgo-ipc/src/kernel.rs:3121-3179 | a cycle closed by queueing on a channel passes through that channel |
| ChannelGraph.AcceptedWriteKeepsAcyclic | crates/ginkgo-ipc/src/kernel.rs:2412-2528 | queueing endpoints none of whose channels reach the destination keeps ownership acyclic |
| ChannelGraph.RemovalsCompose | crates/ginkgo-ipc/src/kernel.rs:47-49 | if the graph only shrinks from each lock acquisition to the next, it only shrinks from any one to any later one; that it does is Interleaving.QuietRunsOnlyRemove |
| ChannelGraph.ClosedNeverReaches | crates/ginkgo-ipc/src/kernel.rs:3121-3179 | a visited set without a way out does not lead outside |
| ChannelGraph.CollectOutgoing | crates/ginkgo-ipc/src/kernel.rs:3121-3179 | adds exactly the channels that the handles of one message lead to |
| ChannelGraph.CollectQueue | crates/ginkgo-ipc/src/kernel.rs:3121-3179 | adds exactly the channels that the messages of one queue lead to |
| ChannelGraph.OutgoingChannels | crates/ginkgo-ipc/src/kernel.rs:3121-3179 | the edges read under one lock are exactly the channels whose endpoints are queued there |
| ChannelGraph.SearchStep | crates/ginkgo-ipc/src/kernel.rs:3121-3179 | one worklist step keeps the search invariant under concurrent removals and makes progress |
| ChannelGraph.Search | crates/ginkgo-ipc/src/kernel.rs:3121-3179 | the worklist loop ends with a closed visited set or a path |
| ChannelGraph.ObjectReachesChannel | crates/ginkgo-ipc/src/kernel.rs:3121-3179 | with arbitrary removals between lock acquisitions: a positive answer was right when the search began, a negative one is right when it ends, and the destination is never locked again |
| World.InvIsLinked | crates/ginkgo-ipc/src/kernel.rs:2412-2528 | in an invariant world every referenced endpoint belongs to an existing channel |
| WorldInvariant.NewTableKeepsInv | crates/ginkgo-ipc/src/kernel.rs:1419-1421 | a new handle table keeps the world invariant: tables and channels well formed, reference counts exact, referenced endpoints open, ownership acyclic, rights within their grants |
| WorldInvariant.ExtendTableKeepsInv | crates/ginkgo-ipc/src/kernel.rs:2757-2791 | a reservation that is then abandoned keeps the world invariant: tables and channels well formed, reference counts exact, referenced endpoints open, ownership acyclic, rights within their grants |
| WorldInvariant.CreateObjectKeepsInv | crates/ginkgo-ipc/src/kernel.rs:1438-1442 | installing a new object keeps the world invariant: tables and channels well formed, reference counts exact, referenced endpoints open, ownership acyclic, rights within their grants |
| WorldInvariant.CreateChannelKeepsInv | crates/ginkgo-ipc/src/kernel.rs:2918-2928 | creating a channel across two tables keeps the world invariant: tables and channels well formed, reference counts exact, referenced endpoints open, ownership acyclic, rights within their grants |
| WorldInvariant.WriteKeepsInv | crates/ginkgo-ipc/src/kernel.rs:2412-2528 | an accepted write keeps the world invariant: tables and channels well formed, reference counts exact, referenced endpoints open, ownership acyclic, rights within their grants |
| WorldInvariant.ReadKeepsInv | crates/ginkgo-ipc/src/kernel.rs:2535-2580 | a successful read keeps the world invariant: tables and channels well formed, reference counts exact, referenced endpoints open, ownership acyclic, rights within their grants |
| WorldInvariant.ForgetBufferKeepsInv | crates/ginkgo-ipc/src/kernel.rs:2332-2364 | losing a recycled buffer keeps the world invariant: tables and channels well formed, reference counts exact, referenced endpoints open, ownership acyclic, rights within their grants |
| WorldInvariant.CloseHandleKeepsInv | crates/ginkgo-ipc/src/kernel.rs:2583-2592 | closing a handle keeps the world invariant: tables and channels well formed, reference counts exact, referenced endpoints open, ownership acyclic, rights within their grants |
| WorldInvariant.CopyHandleKeepsInv | crates/ginkgo-ipc/src/kernel.rs:2595-2606 | duplicating a handle keeps the world invariant: tables and channels well formed, reference counts exact, referenced endpoints open, ownership acyclic, rights within their grants |
| WorldInvariant.TransferKeepsInv | crates/ginkgo-ipc/src/kernel.rs:2820-2891 | a cross-table batch keeps the world invariant: tables and channels well formed, reference counts exact, referenced endpoints open, ownership acyclic, rights within their grants |
| WorldInvariant.DropTableKeepsInv | crates/ginkgo-ipc/src/kernel.rs:1410-1416 | dropping a whole table keeps the world invariant: tables and channels well formed, reference counts exact, referenced endpoints open, ownership acyclic, rights within their grants |
| WorldInvariant.DropReferenceKeepsInv | crates/ginkgo-ipc/src/kernel.rs:876-888 | giving up one pending reference keeps the world invariant: tables and channels well formed, reference counts exact, referenced endpoints open, ownership acyclic, rights within their grants |
| WorldInvariant.FinishDropKeepsInv | crates/ginkgo-ipc/src/kernel.rs:876-888 | an endpoint destructor keeps the world invariant: tables and channels well formed, reference counts exact, referenced endpoints open, ownership acyclic, rights within their grants |
| WorldInvariant.StepKeepsInv | crates/ginkgo-ipc/src/kernel.rs:2299-2606 | every operation, accepted or refused, keeps the world invariant |
| WorldInvariant.RunKeepsInv | crates/ginkgo-ipc/src/kernel.rs:2299-2606 | every sequence of operations keeps the world invariant |
| Runs.InitialInv | crates/ginkgo-ipc/src/kernel.rs:1419-1421 | the empty world satisfies the invariant |
| Runs.RunsKeepChannelsSound | crates/ginkgo-ipc/src/kernel.rs:2412-2580 | after every sequence of operations, each write checked and committed at one instant, channel ownership is acyclic, every direction is a bounded FIFO of what was sent, and a closed side holds nothing; writes with other operations between check and commit are in Interleaving |
| Runs.FewReferences | crates/ginkgo-ipc/src/kernel.rs:2595-2606 | an object installed without DUPLICATE has at most one reference anywhere |
| Runs.RunKeepsGrants | crates/ginkgo-ipc/src/kernel.rs:2820-2891 | no run widens what an object was installed with |
| Runs.AuthorityNeverGrows | crates/ginkgo-ipc/src/kernel.rs:2820-2891 | after any run, in any table, queue or pending destructor, no reference carries more rights than its object was installed with; without DUPLICATE there is at most one |
| Runs.RunEvolves | crates/ginkgo-ipc/src/kernel.rs:234-250 | every table evolves by legal steps over every run |
| Runs.HandlesNeverRevive | crates/ginkgo-ipc/src/kernel.rs:234-250 | over every run a handle names one entry for one stretch and is invalid forever after a close or move |
| Interleaving.OnlyGraphWritesAddEdges | crates/ginkgo-ipc/src/kernel.rs:47-49 | every operation except a write that carries handles only removes edges of the ownership graph and keeps every channel |
| Interleaving.QuietRunsOnlyRemove | crates/ginkgo-ipc/src/kernel.rs:47-49 | over any sequence of such operations the views of a search only shrink and keep knowing every channel, which is what the search assumes |
| Interleaving.RemovalKeepsSearch | crates/ginkgo-ipc/src/kernel.rs:3121-3179 | edges that disappear between two lock acquisitions do not spoil a search |
| Interleaving.StartKeepsSearch | crates/ginkgo-ipc/src/kernel.rs:2412-2528 | starting from the next handle of the batch keeps the search invariant |
| Interleaving.VisitKeepsSearch | crates/ginkgo-ipc/src/kernel.rs:3121-3179 | visiting one channel under its lock keeps the search invariant |
| Interleaving.FinishedMeansNoCycle | crates/ginkgo-ipc/src/kernel.rs:3121-3179 | a search that ends without meeting the destination has shown that no handle of the batch leads there now |
| Interleaving.FoundMeansCycle | crates/ginkgo-ipc/src/kernel.rs:3121-3179 | a search that meets the destination has shown that some handle led there when it began |
| Interleaving.CommitIsAtomic | crates/ginkgo-ipc/src/kernel.rs:2412-2528 | the commit of an interleaved write is exactly the atomic write made at that moment: no check would fail then |
| Interleaving.RefusalWasRight | crates/ginkgo-ipc/src/kernel.rs:2412-2528 | an interleaved write refused as cyclic would have been refused as cyclic, had it been atomic, in the world it began in |
| Interleaving.NextKeepsInv | crates/ginkgo-ipc/src/kernel.rs:2299-2606 | beginning a write, advancing its search, committing it and every other operation in between keep the kernel invariant |
| Interleaving.RunsAreAtomic | crates/ginkgo-ipc/src/kernel.rs:2299-2606 | every interleaved run leaves the world of some run of atomic operations, each write taking effect at its commit |
| Interleaving.InterleavedRunsStaySound | crates/ginkgo-ipc/src/kernel.rs:2412-2528 | after every interleaving of write steps with other operations the world invariant holds and ownership is acyclic |
| Reclamation.HeldIsCounted | crates/ginkgo-ipc/src/kernel.rs:876-888 | whatever a table or an open queue holds is counted as referenced |
| Reclamation.CountedIsRooted | crates/ginkgo-ipc/src/kernel.rs:3121-3179 | once destructors have settled, climbing from holder to holder ends at a table |
| Reclamation.LiveIsReachable | crates/ginkgo-ipc/src/kernel.rs:876-888 | once destructors have settled the live objects are exactly those a table reaches, and the open endpoints likewise |
| Reclamation.RootedIsCounted | crates/ginkgo-ipc/src/kernel.rs:876-888 | a reachable object is never reclaimed |
| Reclamation.DropStepMakesProgress | crates/ginkgo-ipc/src/kernel.rs:876-888 | each destructor step uses up one unit of remaining work |
| Reclamation.DropStepKeepsReach | crates/ginkgo-ipc/src/kernel.rs:876-888 | no destructor step changes what the tables reach |
| Reclamation.CascadeIsBounded | crates/ginkgo-ipc/src/kernel.rs:876-888 | a destructor cascade has at most as many steps as references and open endpoints |
| Reclamation.CascadeKeepsReach | crates/ginkgo-ipc/src/kernel.rs:876-888 | no cascade changes what the tables reach |
| Reclamation.CascadeCollectsTheUnreachable | crates/ginkgo-ipc/src/kernel.rs:876-888 | however destructors interleave they stop, and leave alive and open exactly what was reachable when they began |
| IpcHeap.PrepareBatch | crates/ginkgo-ipc/src/kernel.rs:2412-2528 | the validation loop returns the error of the first disposition that may not be carried out, or for each the object its handle named with the rights it asks for, changing nothing |
| IpcHeap.FindsCycle | crates/ginkgo-ipc/src/kernel.rs:2412-2528 | running the search per capability with one shared visited set while other threads remove references: a positive answer was right when it began, a negative one is right when it ends |
| IpcHeap.FindsCycleAlone | crates/ginkgo-ipc/src/kernel.rs:2412-2528 | over a graph nobody changes the answer is exactly whether the write would close a cycle |
| IpcHeap.TransferEitherOrder | crates/ginkgo-ipc/src/kernel.rs:2820-2891 | filling the destination first and emptying the source after gives the same world as the other way round |
| IpcHeap.Heap.constructor | crates/ginkgo-ipc/src/kernel.rs:1419-1421 | starts as the empty world |
| IpcHeap.Heap.ReceiveInto | crates/ginkgo-ipc/src/kernel.rs:2535-2580 | receiving into one table names the entries, in order, by handles that named nothing before and changes nothing else, or nothing at all |
| IpcHeap.Heap.ChannelCreate | crates/ginkgo-ipc/src/kernel.rs:2299-2305 | installs both endpoints of a new channel with the default rights, or fails and at most leaves vacant slots behind |
| IpcHeap.Heap.HandleClose | crates/ginkgo-ipc/src/kernel.rs:2583-2592 | the handle names nothing afterwards, every other handle what it did, and the reference goes to its destructor |
| IpcHeap.Heap.HandleDuplicate | crates/ginkgo-ipc/src/kernel.rs:2595-2606 | returns a handle that named nothing before for the same object with the requested rights, only if the original carries DUPLICATE and those rights; or exactly the specified error and no change |
| IpcHeap.Heap.CountClones | crates/ginkgo-ipc/src/kernel.rs:2412-2528 | counts one more reference per duplicated handle |
| IpcHeap.Heap.EndpointWithRight | crates/ginkgo-ipc/src/kernel.rs:2964-2979 | resolves a handle to the endpoint its entry names, which carries the right; otherwise InvalidHandle, AccessDenied or WrongObjectType, whichever applies first |
| IpcHeap.Heap.CheckWrite | crates/ginkgo-ipc/src/kernel.rs:2412-2528 | all checks of a write in order, changing nothing |
| IpcHeap.Heap.CommitWrite | crates/ginkgo-ipc/src/kernel.rs:2412-2528 | the commit point cannot fail and produces the specified world |
| IpcHeap.Heap.ChannelWrite | crates/ginkgo-ipc/src/kernel.rs:2412-2528 | succeeds only where Authority.MayWrite holds and then sends exactly the bytes and the named objects with the named rights to the peer; a handle without WRITE gets its error and changes nothing; any other error leaves the world as it was, except that running out of storage may lose a recycled buffer |
| IpcHeap.Heap.ForgetRecycled | crates/ginkgo-ipc/src/kernel.rs:2332-2364 | losing a recycled buffer is a legal step |
| IpcHeap.Heap.CheckRead | crates/ginkgo-ipc/src/kernel.rs:2535-2580 | all checks of a read before the reservation, changing nothing |
| IpcHeap.Heap.ChannelRead | crates/ginkgo-ipc/src/kernel.rs:2535-2580 | succeeds only where Authority.MayRead holds and then delivers exactly the oldest message, its handles in order; a handle without READ gets its error; any error leaves everything as it was |
| IpcHeap.Heap.TransferBatch | crates/ginkgo-ipc/src/kernel.rs:2820-2891 | the i-th returned handle names in the destination the object the i-th disposition named, with exactly its rights, and the source loses exactly the moved handles; or nothing happens, with the specified error |
| IpcHeap.Heap.ReleaseSource | crates/ginkgo-ipc/src/kernel.rs:2820-2891 | the source side of a transfer as specified |
| IpcHeap.Heap.DropLast | crates/ginkgo-ipc/src/kernel.rs:876-888 | gives up one reference, and an endpoint that loses its last one closes and passes on what it held |
| IpcHeap.Heap.FinishEndpoint | crates/ginkgo-ipc/src/kernel.rs:876-888 | the endpoint destructor refines its step |
| IpcHeap.Heap.DropAll | crates/ginkgo-ipc/src/kernel.rs:876-888 | the destructor loop terminates, keeps the invariant, and leaves open exactly the endpoints a table could reach |
| Windows.NewSessionInv | crates/ginkgo-ipc/src/kernel.rs:1867-1916 | a new window satisfies the protocol invariant |
| Windows.StepKeepsOwnership | crates/ginkgo-ipc/src/kernel.rs:1938-2296 | every operation keeps buffer states and presentations in step |
| Windows.StepConserves | crates/ginkgo-ipc/src/kernel.rs:1938-2296 | every operation conserves the serials issued so far |
| Windows.StepKeepsOrder | crates/ginkgo-ipc/src/kernel.rs:2194-2249 | displayed serials keep ascending |
| Windows.StepKeepsInv | crates/ginkgo-ipc/src/kernel.rs:1938-2296 | every operation, successful or not, keeps the protocol invariant |
| Windows.RunKeepsInv | crates/ginkgo-ipc/src/kernel.rs:1938-2296 | every run keeps the protocol invariant |
| Windows.ReleasesAreExactlyOnce | crates/ginkgo-ipc/src/kernel.rs:1993-2014 | over every run each issued serial is pending, displayed, unread or read, in exactly one of these, so no release is lost or read twice |
| Windows.DefensiveChecksNeverFail | crates/ginkgo-ipc/src/kernel.rs:2074-2296 | in reachable states the defensive buffer checks never fire; each InvalidMessage has exactly the listed cause |
| Windows.SomethingIsEnabled | crates/ginkgo-ipc/src/kernel.rs:1938-2249 | while both ends are open and serials remain, someone can always proceed |
| Windows.WritableIsExact | crates/ginkgo-ipc/src/kernel.rs:946-980 | some present succeeds exactly when WRITABLE is up and serials remain |
| Windows.RoundsReach | crates/ginkgo-ipc/src/kernel.rs:1938-2106 | n rounds of present, discard and read-release give the window back with n serials used |
| Windows.WritableAtExhaustion | crates/ginkgo-ipc/src/kernel.rs:946-980 | counterexample run: after n rounds of present, discard and read-release from a new window WRITABLE is up, and every present fails exactly when those rounds used up the serials |
| Windows.PlainCompletionNeverWaits | crates/ginkgo-ipc/src/kernel.rs:2194-2249 | a submission that was never coalesced always finds room for the release its completion causes |
| Windows.RetirementIsFinal | crates/ginkgo-ipc/src/kernel.rs:2257-2296 | after retirement nothing is ever pending or displayed again |
| Windows.CopyRaisesNothing | crates/ginkgo-ipc/src/kernel.rs:2042-2058 | copying out of the pending buffer raises no signal |
| Windows.WindowState.constructor | crates/ginkgo-ipc/src/kernel.rs:1867-1916 | starts with every buffer owned by the client |
| Windows.WindowState.StateOf | crates/ginkgo-ipc/src/kernel.rs:1938-1987 | looks a buffer up, and reports out-of-range indices |
| Windows.WindowState.WindowPresent | crates/ginkgo-ipc/src/kernel.rs:1938-1987 | refines the protocol step: the specified new state and exactly the specified error |
| Windows.WindowState.WindowReadRelease | crates/ginkgo-ipc/src/kernel.rs:1993-2014 | refines the protocol step: the specified new state and exactly the specified error |
| Windows.WindowState.WindowDiscardPending | crates/ginkgo-ipc/src/kernel.rs:2074-2106 | refines the protocol step: the specified new state and exactly the specified error |
| Windows.WindowState.WindowCoalescePending | crates/ginkgo-ipc/src/kernel.rs:2114-2167 | refines the protocol step: the specified new state and exactly the specified error |
| Windows.WindowState.WindowComplete | crates/ginkgo-ipc/src/kernel.rs:2194-2249 | refines the protocol step: the specified new state and exactly the specified error |
| Windows.WindowState.WindowRetire | crates/ginkgo-ipc/src/kernel.rs:2257-2296 | refines the protocol step: the specified new state and exactly the specified error |
| Waits.SwapRemoveIsExact | crates/ginkgo-ipc/src/kernel.rs:1023-1026 | swap-removal takes out that record and nothing else |
| Waits.WithoutIsExact | crates/ginkgo-ipc/src/kernel.rs:1161-1171 | unregistering removes exactly the records of its token |
| Waits.MarkKeepsInv | crates/ginkgo-ipc/src/kernel.rs:1017-1021 | marking under the lock keeps the wait protocol invariant |
| Waits.TakeKeepsInv | crates/ginkgo-ipc/src/kernel.rs:1023-1032 | taking one marked record keeps it |
| Waits.CallbackKeepsInv | crates/ginkgo-ipc/src/kernel.rs:1028-1032 | calling back outside the lock keeps it |
| Waits.RegisterKeepsInv | crates/ginkgo-ipc/src/kernel.rs:2654-2710 | registering one more item, including failure and rollback, keeps it |
| Waits.RetainKeepsInv | crates/ginkgo-ipc/src/kernel.rs:996-1015 | retaining a record for signals that are down keeps it |
| Waits.UnregisterKeepsInv | crates/ginkgo-ipc/src/kernel.rs:1161-1190 | removing the records of a dropped registration keeps it |
| Waits.StepKeepsInv | crates/ginkgo-ipc/src/kernel.rs:996-1190 | no interleaving of critical sections breaks the protocol |
| Waits.RunKeepsInv | crates/ginkgo-ipc/src/kernel.rs:996-1190 | over every interleaving the invariant holds |
| Waits.NoLostWakeup | crates/ginkgo-ipc/src/kernel.rs:996-1097 | once all threads have finished, no retained record is ready, a live registration that was never called back waits only for signals that are down, and no record was delivered twice |
| Waits.ChannelNotifiesEnough | crates/ginkgo-ipc/src/kernel.rs:1084-1097 | what a channel write, read or close notifies covers whatever it can raise |
| Waits.WaiterList.constructor | crates/ginkgo-ipc/src/kernel.rs:996-1015 | starts empty |
| Waits.WaiterList.MarkMatching | crates/ginkgo-ipc/src/kernel.rs:1017-1021 | the loop marks exactly the matching records |
| Waits.WaiterList.TakeNotifying | crates/ginkgo-ipc/src/kernel.rs:1023-1026 | takes the first marked record, or none when none is marked |
| Waits.WaiterList.Retain | crates/ginkgo-ipc/src/kernel.rs:996-1015 | appends one record; refuses exactly at the limit, changing nothing |
| Prdt.SplitTiles | crates/ginkgo-kernel/src/ahci.rs:1380-1427 | the descriptors of a segment name exactly its bytes, in order |
| Prdt.SplitSizes | crates/ginkgo-kernel/src/ahci.rs:1380-1427 | each descriptor of a segment is 1 byte to 4 MiB and lies inside it |
| Prdt.PlanTiles | crates/ginkgo-kernel/src/ahci.rs:1380-1427 | the table names exactly the requested bytes, in order, and their lengths add up |
| Prdt.PlanSizes | crates/ginkgo-kernel/src/ahci.rs:1429-1440 | each descriptor is 1 byte to 4 MiB and addressable by the controller |
| Prdt.SegmentsErrorIsFirst | crates/ginkgo-kernel/src/ahci.rs:1380-1440 | the error of a segment list is that of its first refused segment, and there is none exactly when no segment is refused |
| Prdt.SplitSegment | crates/ginkgo-kernel/src/ahci.rs:1380-1427 | the splitting loop appends exactly the descriptors of one segment, or reports why not |
| Prdt.AddSegment | crates/ginkgo-kernel/src/ahci.rs:1380-1440 | accepts a segment exactly when it is addressable and fits the table, and otherwise reports exactly the reason |
| Prdt.AddSegments | crates/ginkgo-kernel/src/ahci.rs:1380-1427 | accepts exactly the addressable lists of at most 32 descriptors, and otherwise reports the first refused segment's error |
| Prdt.BuildPrdt | crates/ginkgo-kernel/src/ahci.rs:1380-1427 | succeeds exactly for acceptable requests, with the specified table; otherwise reports the first reason in order |
| Prdt.NcqFisRoundTrips | crates/ginkgo-kernel/src/ahci.rs:1517-1549 | a device reading the queued FIS finds the LBA, the sector count 1 to 65536 and the tag that were asked for |
| AhciRuns.InitialInv | crates/ginkgo-kernel/src/ahci.rs:328-360 | a fresh port satisfies the invariant |
| AhciRuns.RetireAllKeepsInv | crates/ginkgo-kernel/src/ahci.rs:901-967 | retiring completed slots keeps mask, slots, in-flight count and ring in step |
| AhciRuns.PollRetiresOnlyClear | crates/ginkgo-kernel/src/ahci.rs:901-967 | one poll takes a command out of its slot only when SACT and CI both read clear; over runs this is AhciReset.DeliveredOnlyOnceCleared |
| AhciRuns.SubmitShape | crates/ginkgo-kernel/src/ahci.rs:785-895 | a submission activates one free slot, a flush only when nothing is in flight, or leaves every slot alone |
| AhciRuns.SubmitKeepsInv | crates/ginkgo-kernel/src/ahci.rs:785-895 | submitting keeps the invariant |
| AhciRuns.PollKeepsInv | crates/ginkgo-kernel/src/ahci.rs:1035-1074 | polling keeps the invariant |
| AhciRuns.PollResetKeepsInv | crates/ginkgo-kernel/src/ahci.rs:1098-1176 | advancing a reset keeps the invariant |
| AhciRuns.StepKeepsInv | crates/ginkgo-kernel/src/ahci.rs:785-1211 | every event keeps the invariant |
| AhciRuns.RunKeepsInv | crates/ginkgo-kernel/src/ahci.rs:785-1211 | over every run mask, slots and in-flight count agree and a flush is never in flight with another command |
| AhciRuns.FlushIsAlone | crates/ginkgo-kernel/src/ahci.rs:785-895 | in every reachable state a flush in flight is the only command in flight |
| AhciRuns.PollOverflowsExactly | crates/ginkgo-kernel/src/ahci.rs:1010-1021 | a poll overflows the completion ring exactly when it looks at the registers and finds more finished commands than there is room |
| AhciRuns.OverflowThreatensExactly | crates/ginkgo-kernel/src/ahci.rs:1281-1293 | no register values make a poll of a working port overflow exactly when everything in flight still has a place in the ring |
| AhciRuns.StepKeepsFits | crates/ginkgo-kernel/src/ahci.rs:1281-1293 | with a ready poll before each submission everything in flight keeps a place |
| AhciRuns.PoliteRunsNeverOverflow | crates/ginkgo-kernel/src/ahci.rs:1281-1293 | with that discipline the overflow branch is dead in every run |
| AhciReset.OverflowWithoutPolling | crates/ginkgo-kernel/src/ahci.rs:1010-1021 | counterexample: two slots and submissions without ready polls overflow the ring |
| AhciReset.StepHolds | crates/ginkgo-kernel/src/ahci.rs:785-1211 | every event conserves each token, apart from acceptance, delivery and a proved stop |
| AhciReset.RecordConserves | crates/ginkgo-kernel/src/ahci.rs:785-1211 | the conservation law carries over from event to event |
| AhciReset.ResetMoves | crates/ginkgo-kernel/src/ahci.rs:363-392 | the reset machine completes only by a release, waits for FR only after CR read clear, and never leaves isolation |
| AhciReset.RunsStaySound | crates/ginkgo-kernel/src/ahci.rs:785-1211 | every run keeps invariant, conservation and stop proof together |
| AhciReset.DeliveredOncePerAcceptance | crates/ginkgo-kernel/src/ahci.rs:785-1074 | over every run no token is delivered more often than accepted; what is missing is in a slot, in the ring, or was dropped after a proved stop |
| AhciReset.StepRing | crates/ginkgo-kernel/src/ahci.rs:901-1074 | what an event adds to the ring or delivers comes out of slots it saw clear in SACT and CI |
| AhciReset.RunsKeepClearedFirst | crates/ginkgo-kernel/src/ahci.rs:901-1074 | over every run what was delivered or waits in the ring was first seen clear |
| AhciReset.DeliveredOnlyOnceCleared | crates/ginkgo-kernel/src/ahci.rs:901-1074 | over every run no token is delivered more often than its slot was seen clear in SACT and CI at once |
| AhciReset.ResettingKeepsSlots | crates/ginkgo-kernel/src/ahci.rs:1098-1176 | during a reset a slot is left alone unless the stop has been proved |
| AhciReset.ReleasedOnlyAfterStop | crates/ginkgo-kernel/src/ahci.rs:1098-1189 | over every run the command of an issued slot stays put unless CR was read clear and later CR and FR together |
| AhciReset.QuarantineIsForever | crates/ginkgo-kernel/src/ahci.rs:1191-1211 | without that proof the commands stay quarantined for ever |
| AhciReset.NeverAcceptsAgain | crates/ginkgo-kernel/src/ahci.rs:1241-1252 | a port that has started resetting never takes a command again |
| AhciReset.PatienceShrinks | crates/ginkgo-kernel/src/ahci.rs:1098-1176 | reset polls use up the watchdog and nothing refills it |
| AhciReset.ResetSettles | crates/ginkgo-kernel/src/ahci.rs:1098-1176 | a reset settles within 4097 reset polls whatever the registers read |
| SlotMasks.SlotBitsAreIndependent | crates/ginkgo-kernel/src/ahci.rs:351-360 | the bits of different slots never meet |
| SlotMasks.CompletedMaskIsCompleted | crates/ginkgo-kernel/src/ahci.rs:1551-1553 | the mask arithmetic on the issued, SACT and CI words gives exactly the set of slots that the port model retires |
| SlotMasks.IssuingAdds | crates/ginkgo-kernel/src/ahci.rs:351-360 | setting a slot's bit adds exactly that slot |
| SlotMasks.RetiringRemoves | crates/ginkgo-kernel/src/ahci.rs:351-360 | clearing a slot's bit removes exactly that slot |
| AhciDriver.PushAppends | crates/ginkgo-kernel/src/ahci.rs:1010-1021 | storing at head plus count modulo capacity appends to the queue the ring stands for |
| AhciDriver.PopDrops | crates/ginkgo-kernel/src/ahci.rs:1023-1033 | taking at the head removes the oldest |
| AhciDriver.Driver.constructor | crates/ginkgo-kernel/src/ahci.rs:461-565 | starts as a fresh, enabled port |
| AhciDriver.Driver.BeginReset | crates/ginkgo-kernel/src/ahci.rs:1087-1096 | refines starting a reset |
| AhciDriver.Driver.EnsureAsyncMode | crates/ginkgo-kernel/src/ahci.rs:1241-1252 | reports exactly the specified mode error |
| AhciDriver.Driver.FindFreeSlot | crates/ginkgo-kernel/src/ahci.rs:897-899 | finds the first free slot |
| AhciDriver.Driver.PushCompletion | crates/ginkgo-kernel/src/ahci.rs:1010-1021 | appends, or starts a reset exactly when the ring is full |
| AhciDriver.Driver.PopCompletion | crates/ginkgo-kernel/src/ahci.rs:1023-1033 | returns the oldest completion, or none when empty |
| AhciDriver.Driver.RetireCompleted | crates/ginkgo-kernel/src/ahci.rs:901-967 | the retiring loop refines the recursive specification |
| AhciDriver.Driver.RetireSlot | crates/ginkgo-kernel/src/ahci.rs:901-967 | retires one slot, or starts a reset when the ring is full |
| AhciDriver.Driver.RearmInterrupts | crates/ginkgo-kernel/src/ahci.rs:975-995 | refines rearming |
| AhciDriver.Driver.DrainCompletions | crates/ginkgo-kernel/src/ahci.rs:901-967 | refines draining |
| AhciDriver.Driver.TickCountdown | crates/ginkgo-kernel/src/ahci.rs:1035-1074 | decides whether a poll looks at the registers and counts down otherwise, as specified |
| AhciDriver.Driver.PollCompletion | crates/ginkgo-kernel/src/ahci.rs:1035-1074 | refines polling |
| AhciDriver.Driver.RequestCancel | crates/ginkgo-kernel/src/ahci.rs:1076-1085 | refines cancelling: a known token starts a reset |
| AhciDriver.Driver.CheckRequest | crates/ginkgo-kernel/src/ahci.rs:785-895 | reports no error if and only if the port is in asynchronous mode and the command is well formed, and otherwise exactly the specified one |
| AhciDriver.Driver.SubmitAsync | crates/ginkgo-kernel/src/ahci.rs:785-895 | accepts if and only if the command is well formed and the lowest free slot is taken by the hardware, and then occupies exactly that slot; refines submitting |
| AhciDriver.Driver.ActivateSlot | crates/ginkgo-kernel/src/ahci.rs:351-356 | refines activating a slot |
| AhciDriver.Driver.Quarantine | crates/ginkgo-kernel/src/ahci.rs:1191-1211 | the loop refines isolating all active slots |
| AhciDriver.Driver.ReleaseAfterDmaStopProof | crates/ginkgo-kernel/src/ahci.rs:1178-1189 | the loop refines releasing everything |
| AhciDriver.Driver.AdvanceResetMachine | crates/ginkgo-kernel/src/ahci.rs:1098-1176 | refines one step of the reset machine |
| AhciDriver.Driver.PollReset | crates/ginkgo-kernel/src/ahci.rs:1098-1176 | refines polling a reset |
| HidValues.ReadBits | crates/ginkgo-hid/src/lib.rs:935-943 | the bit loop reads the little-endian number shifted right and reduced modulo 2^size |
| HidValues.LogicalValueIsSigned | crates/ginkgo-hid/src/lib.rs:945-954 | shifting up and down again is the two's complement reading when the minimum is negative, and the plain number otherwise |
| HidValues.NormalizeAxisIsMonotone | crates/ginkgo-hid/src/lib.rs:921-929 | the scaled axis stays in range, hits both ends and never decreases |
| HidLayout.PlaceAllGroupsById | crates/ginkgo-hid/src/lib.rs:1179-1255 | finding or adding a report per item gives exactly the items grouped by report id, in order |
| HidLayout.PlaceAllCounts | crates/ginkgo-hid/src/lib.rs:1179-1236 | the reports hold every declared field and element, once |
| HidLayout.FieldsForIsOrdered | crates/ginkgo-hid/src/lib.rs:1179-1236 | fields of a report ascend, do not overlap and end inside it |
| HidParser.NextItem | crates/ginkgo-hid/src/lib.rs:1063-1111 | an item ends behind where it starts and inside the descriptor |
| HidParser.ItemKeepsInv | crates/ginkgo-hid/src/lib.rs:1113-1169 | every item keeps nesting, limits and numbering |
| HidParser.InterpretKeepsInv | crates/ginkgo-hid/src/lib.rs:1063-1111 | so does every descriptor |
| HidParser.FinishIsSound | crates/ginkgo-hid/src/lib.rs:1063-1111 | whatever is accepted at the end is a sound layout |
| HidParser.ParseIsSound | crates/ginkgo-hid/src/lib.rs:1063-1111 | every accepted descriptor yields unique report ids (all zero or all non-zero), ordered disjoint in-range fields, valid application indices and respected limits, and each report holds exactly its Input items |
| HidDescriptor.FindReport | crates/ginkgo-hid/src/lib.rs:1238-1255 | finds the first report with that id |
| HidDescriptor.TotalFields | crates/ginkgo-hid/src/lib.rs:1179-1236 | counts all fields |
| HidDescriptor.Retain | crates/ginkgo-hid/src/lib.rs:1063-1111 | keeps exactly the reports that carry bits |
| HidDescriptor.DescriptorParser.constructor | crates/ginkgo-hid/src/lib.rs:1047-1061 | starts with empty state at the first byte |
| HidDescriptor.DescriptorParser.TakeBytes | crates/ginkgo-hid/src/lib.rs:1300-1311 | returns the next bytes exactly when there are enough |
| HidDescriptor.DescriptorParser.CheckInput | crates/ginkgo-hid/src/lib.rs:1179-1236 | reports exactly the specified reason to refuse an Input item |
| HidDescriptor.DescriptorParser.InputItem | crates/ginkgo-hid/src/lib.rs:1179-1236 | refines one Input item, including its error |
| HidDescriptor.DescriptorParser.ExtendReport | crates/ginkgo-hid/src/lib.rs:1179-1236 | appends the declared field behind what the report holds |
| HidDescriptor.DescriptorParser.PlaceReport | crates/ginkgo-hid/src/lib.rs:1179-1255 | appends the item to the report of its id, starting one if there is none |
| HidDescriptor.DescriptorParser.AddInput | crates/ginkgo-hid/src/lib.rs:1179-1236 | keeps reports and element count equal to the grouping of all items |
| HidDescriptor.DescriptorParser.BeginCollection | crates/ginkgo-hid/src/lib.rs:1257-1281 | refines opening a collection |
| HidDescriptor.DescriptorParser.EndCollection | crates/ginkgo-hid/src/lib.rs:1283-1288 | refines closing a collection |
| HidDescriptor.DescriptorParser.MainItem | crates/ginkgo-hid/src/lib.rs:1113-1122 | refines main items and leaves no local item in force |
| HidDescriptor.DescriptorParser.GlobalItem | crates/ginkgo-hid/src/lib.rs:1124-1153 | refines global items, including push and pop |
| HidDescriptor.DescriptorParser.LocalItem | crates/ginkgo-hid/src/lib.rs:1155-1169 | refines local items |
| HidDescriptor.DescriptorParser.TakeItem | crates/ginkgo-hid/src/lib.rs:1063-1111 | reads one item, long items included |
| HidDescriptor.DescriptorParser.ApplyItem | crates/ginkgo-hid/src/lib.rs:1063-1111 | refines one item |
| HidDescriptor.DescriptorParser.Parse | crates/ginkgo-hid/src/lib.rs:1063-1111 | the loop comes to exactly what the items of the descriptor mean, error or layout, and an accepted layout is sound |
| HidDecode.ChangesAreExact | crates/ginkgo-hid/src/lib.rs:770-828 | the changes collected are exactly the values in one reading and not in the other, each once |
| HidDecode.ArrayEventsAreExact | crates/ginkgo-hid/src/lib.rs:770-828 | for every keyboard array each press is announced once per value in the new reading and not in the old that stands for it, each release the other way round, and nothing else is announced |
| HidDecode.PayloadEventsAreExact | crates/ginkgo-hid/src/lib.rs:770-828 | from payloads of selectors of at most 16 bits every new key is pressed once, every old one released once, and the remembered values stay of that kind |
| HidDecode.VariableStepReplays | crates/ginkgo-hid/src/lib.rs:738-768 | one reading of an absolute variable field takes a listener from the old contribution to the new |
| HidReplay.PayloadsArePossible | crates/ginkgo-hid/src/lib.rs:935-954 | what a payload reads as is in the range of the field |
| HidReplay.ReadingSays | crates/ginkgo-hid/src/lib.rs:770-828 | what a listener makes of one array reading |
| HidReplay.ArrayStepReplays | crates/ginkgo-hid/src/lib.rs:770-828 | one reading of an unambiguous array takes a listener from the old contribution to the new |
| HidReplay.RunReplays | crates/ginkgo-hid/src/lib.rs:738-842 | over any readings, replaying the events of a trusted field gives its contribution |
| HidReplay.SharedUsageReplaysWrongly | crates/ginkgo-hid/src/lib.rs:738-768 | counterexample family: two variable elements for one key |
| HidReplay.RelativeReplaysWrongly | crates/ginkgo-hid/src/lib.rs:738-768 | counterexample family: a relative element never announces a release |
| HidReplay.MisheardReplaysWrongly | crates/ginkgo-hid/src/lib.rs:770-828 | counterexample family: an array value announced as another key than the one it holds |
| HidReplay.AliasReplaysWrongly | crates/ginkgo-hid/src/lib.rs:770-828 | counterexample family: two array values for one key |
| HidReplay.ReplayIsRightExactly | crates/ginkgo-hid/src/lib.rs:694-842 | for every field and key the listener is right over all readings exactly when the field's description is trusted about that key |
| HidReplay.NarrowArraysAreTrusted | crates/ginkgo-hid/src/lib.rs:770-842 | keyboard arrays with selectors of at most 16 bits and a non-negative minimum are trusted about every key |
| HidTrust.ClearIsUnambiguous | crates/ginkgo-hid/src/lib.rs:201-218 | a test on bit size, logical minimum, usage range, count and key decides the condition over all selector values |
| HidTrust.TrustworthyIsRight | crates/ginkgo-hid/src/lib.rs:738-842 | the test on a field's description passes exactly when its events are right about the key over all readings |
| HidDecoder.Locate | crates/ginkgo-hid/src/lib.rs:635-671 | an accepted packet names an existing report and is long enough for it |
| HidDecoder.AcceptedPacketsAreCovered | crates/ginkgo-hid/src/lib.rs:635-671 | decoding never reads past an accepted packet |
| HidDecoder.ReadElement | crates/ginkgo-hid/src/lib.rs:834-838 | reads one element as specified |
| HidDecoder.ReadAll | crates/ginkgo-hid/src/lib.rs:834-838 | reads all elements as specified |
| HidDecoder.UpdateElements | crates/ginkgo-hid/src/lib.rs:738-768 | the loop over variable elements refines decoding |
| HidDecoder.CollectChanges | crates/ginkgo-hid/src/lib.rs:770-828 | the diffing loop announces exactly the specified changes |
| HidDecoder.UpdateSelectors | crates/ginkgo-hid/src/lib.rs:770-828 | the array branch refines decoding, rollover included |
| HidDecoder.DecodeField | crates/ginkgo-hid/src/lib.rs:724-736 | decodes either kind of field |
| HidDecoder.DecodeFields | crates/ginkgo-hid/src/lib.rs:635-671 | decodes the fields of a report in order |
| HidDecoder.ReportDecoder.constructor | crates/ginkgo-hid/src/lib.rs:606-619 | starts with every value at rest |
| HidDecoder.ReportDecoder.DecodeInto | crates/ginkgo-hid/src/lib.rs:635-671 | returns the specified events or error; a refused packet changes nothing |
| HidDecoder.ReportDecoder.ElementIsActive | crates/ginkgo-hid/src/lib.rs:694-716 | decides a field's contribution |
| HidDecoder.ReportDecoder.ReportIsActive | crates/ginkgo-hid/src/lib.rs:694-716 | decides a report's contribution |
| HidDecoder.ReportDecoder.IsActive | crates/ginkgo-hid/src/lib.rs:694-716 | decides whether any field holds the key |
| HidDecoder.FieldRunsAlone | crates/ginkgo-hid/src/lib.rs:635-671 | over any packets a field behaves as if it saw only its own readings |
| HidPackets.PlacedReads | crates/ginkgo-hid/src/lib.rs:935-943 | each element of a packed report reads back, whatever the other fields hold |
| HidPackets.PacketForAll | crates/ginkgo-hid/src/lib.rs:635-671 | every combination of possible readings of a report's fields arrives in some accepted packet |
| HidPackets.PacketFor | crates/ginkgo-hid/src/lib.rs:635-671 | every possible reading of every field of a sound layout arrives in some accepted packet, the other fields at rest |
| HidPackets.DecoderReplays | crates/ginkgo-hid/src/lib.rs:635-842 | over any packets, replaying what a trusted field announced gives its part in whether a key is active |
| HidPackets.MisleadingPackets | crates/ginkgo-hid/src/lib.rs:635-842 | for every other field some packets mislead the listener |
| HidPackets.ReplayMatchesExactly | crates/ginkgo-hid/src/lib.rs:635-842 | over all packets the events tell the truth about a key exactly when the field's description is trusted about it |
| HidPackets.RolloverFieldStays | crates/ginkgo-hid/src/lib.rs:770-842 | a keyboard array that rolls over in a packet keeps what it remembers and announces nothing, whatever the other fields do |
| HidPackets.RolloverPacketChangesNothing | crates/ginkgo-hid/src/lib.rs:635-842 | a packet in which every field rolls over produces no events, leaves all remembered values and leaves every key as active as it was |
| HidListener.PacketReplays | crates/ginkgo-hid/src/lib.rs:635-671 | a packet in which only one field speaks of a key says of that key what the field says |
| HidListener.RunReplaysTarget | crates/ginkgo-hid/src/lib.rs:635-671 | so does any sequence of packets |
| HidListener.UnconcernedIsMute | crates/ginkgo-hid/src/lib.rs:694-842 | a field that cannot stand for a key never announces it and never makes it active, over all packets |
| HidListener.RestIsMute | crates/ginkgo-hid/src/lib.rs:694-842 | nor does a field that has only ever been at rest |
| HidListener.OneFieldDecides | crates/ginkgo-hid/src/lib.rs:635-842 | if every other field is mute about a key, a listener to the whole device is right exactly when it is right about the one field |
| HidDevice.TrustedDeviceIsRight | crates/ginkgo-hid/src/lib.rs:635-842 | if every field is trusted about a key and at most one speaks of it, then over any packets a listener agrees with is_active |
| HidDevice.UntrustedFieldMisleads | crates/ginkgo-hid/src/lib.rs:635-842 | one untrusted field is enough for some packets to mislead the listener of the whole device |
| HidDevice.TwoFieldsMislead | crates/ginkgo-hid/src/lib.rs:635-842 | counterexample family: if two trusted fields speak of a key, some packets leave it active after its release was announced |
| HidDevice.ListenerIsRightExactly | crates/ginkgo-hid/src/lib.rs:635-842 | for every sound layout and key: the events of all fields together agree with is_active over all packets exactly when each field is trusted and at most one speaks of the key |
| HidDevice.DeviceTestIsExact | crates/ginkgo-hid/src/lib.rs:635-842 | a test on the parsed layout alone decides that |
| Package.AssetRoundTrip | crates/ginkgo-app-package/src/package.rs:341-392 | an encoded asset parses back to itself, whatever follows |
| Package.ParsedAssetIsEncoded | crates/ginkgo-app-package/src/package.rs:341-392 | whatever parses as an asset is that asset's encoding |
| Package.ParseEncoded | crates/ginkgo-app-package/src/package.rs:153-277 | a valid package parses back from its encoding, and with anything behind it is refused as trailing data |
| Package.ParsedIsEncoded | crates/ginkgo-app-package/src/package.rs:153-277 | every accepted byte string is the encoding of the one valid package it parses to |
| Package.EncodedFits | crates/ginkgo-app-package/src/package.rs:441-537 | the encoder's own limits keep every package within the size limit |
| Package.EncodingIsPrefixFree | crates/ginkgo-app-package/src/package.rs:441-537 | no encoding is a prefix of another package's |
| Package.NoStrictPrefix | crates/ginkgo-app-package/src/package.rs:153-277 | no accepted package is a strict prefix of another |
| PackageCodec.ParseAssetAt | crates/ginkgo-app-package/src/package.rs:341-392 | parsing at a cursor agrees with parsing the suffix |
| PackageCodec.ParseAssetsAt | crates/ginkgo-app-package/src/package.rs:153-277 | the asset loop agrees with the recursive parser |
| PackageCodec.UniqueAssets | crates/ginkgo-app-package/src/package.rs:296-308 | the pairwise check decides whether asset paths are distinct |
| PackageCodec.ParseTailAt | crates/ginkgo-app-package/src/package.rs:153-277 | reading the assets behind the executable agrees with parsing that suffix |
| PackageCodec.ParsePackage | crates/ginkgo-app-package/src/package.rs:153-277 | computes the specified result; an accepted package is valid and re-encodes to the same bytes |
| PackageCodec.Assets.constructor | crates/ginkgo-app-package/src/package.rs:287-294 | starts before the first asset |
| PackageCodec.Assets.Next | crates/ginkgo-app-package/src/package.rs:322-331 | yields the next asset, and stops only when none is left |
| PackageCodec.Assets.Drain | crates/ginkgo-app-package/src/package.rs:322-331 | yields all remaining assets in order |
| PackageCodec.AllAssets | crates/ginkgo-app-package/src/package.rs:287-331 | the iterator yields exactly the package's assets |
| PackageCodec.CheckAsset | crates/ginkgo-app-package/src/package.rs:441-537 | reports exactly the reason to refuse the next asset |
| PackageCodec.CheckAssets | crates/ginkgo-app-package/src/package.rs:441-537 | accepts exactly the valid asset lists and otherwise reports the first refused asset's reason |
| PackageCodec.CheckPackage | crates/ginkgo-app-package/src/package.rs:441-537 | accepts exactly the valid packages and otherwise reports the reason of the first failing check |
| PackageCodec.WritePackage | crates/ginkgo-app-package/src/package.rs:441-537 | writes exactly the specified bytes |
| PackageCodec.EncodePackage | crates/ginkgo-app-package/src/package.rs:441-537 | encodes exactly the valid packages, to bytes that parse back, and otherwise reports the first failing check; the final size check never fails |
| Registry.HexIsInjective | crates/ginkgo-app-package/src/registry.rs:392-408 | hexadecimal digests of equal length determine their bytes |
| Registry.FilenameIsInjective | crates/ginkgo-app-package/src/registry.rs:392-408 | a generation filename determines application, digest and format |
| Registry.EntryRoundTrip | crates/ginkgo-app-package/src/registry.rs:436-561 | an encoded entry parses back to itself, whatever follows |
| Registry.ParsedEntryIsEncoded | crates/ginkgo-app-package/src/registry.rs:436-561 | whatever parses as an entry is that entry's encoding |
| Registry.SameFilenameSameApp | crates/ginkgo-app-package/src/registry.rs:341-371 | two valid entries with the same filename are for the same application |
| Registry.EncodedFits | crates/ginkgo-app-package/src/registry.rs:235-265 | a valid registry always fits its snapshot limit |
| Registry.ParseEncoded | crates/ginkgo-app-package/src/registry.rs:179-265 | a valid registry parses back from its snapshot |
| Registry.ParsedIsEncoded | crates/ginkgo-app-package/src/registry.rs:179-233 | every accepted snapshot is the encoding of the one valid registry it parses to |
| Registry.DuplicateFilenameUnreachable | crates/ginkgo-app-package/src/registry.rs:179-233 | no snapshot is ever refused for a duplicate filename |
| RegistryStore.LookupFinds | crates/ginkgo-app-package/src/registry.rs:271-273 | in an ascending registry every entry is found by its id |
| RegistryStore.SameElsewhere | crates/ginkgo-app-package/src/registry.rs:275-319 | a change to one application leaves every other lookup alone |
| RegistryStore.InsertKeepsAscending | crates/ginkgo-app-package/src/registry.rs:275-293 | inserting where the search ended keeps the order |
| RegistryStore.EncodeEntries | crates/ginkgo-app-package/src/registry.rs:235-265 | the encoding loop writes the specified bytes |
| RegistryStore.ParseEntryAt | crates/ginkgo-app-package/src/registry.rs:436-561 | parsing at a cursor agrees with parsing the suffix |
| RegistryStore.CheckNext | crates/ginkgo-app-package/src/registry.rs:179-233 | reports exactly why an entry may not follow the ones before it |
| RegistryStore.NextEntryAt | crates/ginkgo-app-package/src/registry.rs:179-233 | the next entry is accepted exactly when it may follow |
| RegistryStore.ParseEntriesAt | crates/ginkgo-app-package/src/registry.rs:179-233 | the entry loop agrees with the recursive parser |
| RegistryStore.ParseSnapshot | crates/ginkgo-app-package/src/registry.rs:179-233 | computes the specified result; accepted snapshots are canonical |
| RegistryStore.InstalledRegistry.constructor | crates/ginkgo-app-package/src/registry.rs:173-177 | starts empty |
| RegistryStore.InstalledRegistry.Holding | crates/ginkgo-app-package/src/registry.rs:179-233 | holds exactly the given valid entries |
| RegistryStore.InstalledRegistry.FromSnapshot | crates/ginkgo-app-package/src/registry.rs:179-233 | restores a registry whose snapshot is those bytes, or reports exactly why the bytes hold none |
| RegistryStore.InstalledRegistry.Find | crates/ginkgo-app-package/src/registry.rs:336-339 | the binary search finds the id or the place it belongs |
| RegistryStore.InstalledRegistry.Get | crates/ginkgo-app-package/src/registry.rs:271-273 | agrees with searching from the front |
| RegistryStore.InstalledRegistry.CheckMutation | crates/ginkgo-app-package/src/registry.rs:341-371 | reports exactly the specified reason; its filename clash never happens |
| RegistryStore.InstalledRegistry.Install | crates/ginkgo-app-package/src/registry.rs:275-293 | succeeds if and only if the id may be changed, the generation is the package's own, the id is new and there is room; the entry then holds each field of package, generation and provenance, untrusted, and no other entry changes; a failure changes nothing |
| RegistryStore.InstalledRegistry.Update | crates/ginkgo-app-package/src/registry.rs:295-309 | succeeds if and only if the id may be changed, the generation is the package's own and the id is installed; the entry then holds each field anew, untrusted, and no other entry changes; a failure changes nothing |
| RegistryStore.InstalledRegistry.Remove | crates/ginkgo-app-package/src/registry.rs:311-319 | removes and returns exactly that entry if and only if the id may be changed and is installed; a failure changes nothing |
| RegistryStore.InstalledRegistry.SetWasmTrusted | crates/ginkgo-app-package/src/registry.rs:321-334 | changes exactly that flag if and only if the id may be changed and is installed as WebAssembly; a failure changes nothing |
| RegistryStore.InstalledRegistry.Snapshot | crates/ginkgo-app-package/src/registry.rs:235-265 | the snapshot of any state fits its limit and parses back to that state |
| Validation.SplitRejoins | crates/ginkgo-app-package/src/validation.rs:16-27 | splitting a name at its separator loses nothing and leaves no separator in a part |
| Validation.SplitIsUnique | crates/ginkgo-app-package/src/validation.rs:16-27 | and it is the only way to cut the name |
| Validation.AllParts | crates/ginkgo-app-package/src/validation.rs:16-27 | cutting and checking in one pass decides whether all parts are valid |
| Validation.CheckAppId | crates/ginkgo-app-package/src/validation.rs:16-27 | decides the rule for application ids |
| Validation.CheckVersion | crates/ginkgo-app-package/src/validation.rs:36-49 | the one-pass check with a flag for the previous byte decides the rule: alphanumeric runs joined by single separators |
| Validation.CheckAssetPath | crates/ginkgo-app-package/src/validation.rs:51-68 | decides the rule for asset paths |
| Validation.GenerationFilesAreComponents | crates/ginkgo-app-package/src/registry.rs:392-408 | the file of a valid application id is always one path component, whatever its digest |
| Validation.ParseStandard | crates/ginkgo-app-package/src/package.rs:153-277 | under the rules in force, whatever parses has a valid id, version and asset paths |
| Validation.EncodeStandard | crates/ginkgo-app-package/src/package.rs:441-537 | under the rules in force exactly the valid packages are encoded, and they parse back |
| Validation.InstalledFilesAreDistinctComponents | crates/ginkgo-app-package/src/registry.rs:341-371 | under the rules in force every installed application has one path component to itself |
| Colors.WideChannelIsExact | crates/ginkgo-graphics/src/lib.rs:860-882 | a channel of at least 8 bits loses nothing |
| Colors.WideChannelsExactly | crates/ginkgo-graphics/src/lib.rs:860-882 | a channel returns every 8-bit value exactly when it has at least 8 bits |
| Colors.NarrowChannelIsExact | crates/ginkgo-graphics/src/lib.rs:860-882 | a channel value of at most 8 bits comes back from its expansion |
| Colors.ShareIsOverlap | crates/ginkgo-graphics/src/lib.rs:884-894 | masks share a bit exactly when their channels overlap |
| Colors.ChannelOfPacked | crates/ginkgo-graphics/src/lib.rs:746-753 | each channel of a packed colour holds its own scaled value |
| Colors.PackedFits | crates/ginkgo-graphics/src/lib.rs:746-753 | a packed colour uses only bits of the pixel |
| Colors.WideColorsAreExact | crates/ginkgo-graphics/src/lib.rs:557-589 | with channels of at least 8 bits every colour reads back as written |
| Colors.NarrowPixelsAreExact | crates/ginkgo-graphics/src/lib.rs:557-589 | with channels of at most 8 bits, packing what was read gives the same pixel |
| Framebuffer.PaintRowIsOverlay | crates/ginkgo-graphics/src/lib.rs:703-740 | painting a row pixel by pixel equals replacing its bytes at once |
| Framebuffer.RunInside | crates/ginkgo-graphics/src/lib.rs:412-454 | a run of pixels inside a row stays inside that row's memory |
| Framebuffer.OutsideIsUntouched | crates/ginkgo-graphics/src/lib.rs:635-691 | nothing outside the painted rows changes |
| Framebuffer.RowsHold | crates/ginkgo-graphics/src/lib.rs:635-691 | every painted row is still there at the end |
| Framebuffer.RectangleFits | crates/ginkgo-graphics/src/lib.rs:635-691 | the rows of an on-screen rectangle lie apart, inside the memory |
| Framebuffer.StoredColorReadsBack | crates/ginkgo-graphics/src/lib.rs:557-607 | a stored colour reads back when channels are wide enough |
| NativePixels.NativeCell | crates/ginkgo-graphics/src/lib.rs:583-607 | for the native layout the pixel path stores blue, green, red and zero in the unused byte |
| NativePixels.NativePixelAgreesExactly | crates/ginkgo-graphics/src/lib.rs:583-740 | so for the native layout the wide path stores the same bytes as the pixel path exactly when the pixel's unused byte is zero |
| NativePixels.NativePixelShowsItsColor | crates/ginkgo-graphics/src/lib.rs:557-740 | whatever the unused byte holds, a natively stored pixel reads back as its colour |
| NativePixels.NativeRowAgreesExactly | crates/ginkgo-graphics/src/lib.rs:693-740 | a whole native row agrees with the pixel path exactly when no pixel carries anything in its unused byte |
| NativePixels.ConvertedRowAgrees | crates/ginkgo-graphics/src/lib.rs:635-691 | for every other layout the bytes of a row are those of the pixel path |
| NativePixels.SamePictureSameRows | crates/ginkgo-graphics/src/lib.rs:635-691 | rows painted apart leave the same memory exactly when they are the same rows |
| NativePixels.RegionAgreesExactly | crates/ginkgo-graphics/src/lib.rs:635-740 | a whole region of a scene is left in memory as the pixel path would leave it exactly when the layout converts or no pixel of the region carries anything in its unused byte |
| NativePixels.AndIsShare | crates/ginkgo-graphics/src/lib.rs:884-894 | testing the conjunction of two masks decides whether they overlap |
| NativePixels.LayoutIsSound | crates/ginkgo-graphics/src/lib.rs:412-454 | decides whether three channels fit the pixel and do not overlap |
| NativePixels.SizesAreSound | crates/ginkgo-graphics/src/lib.rs:412-454 | decides whether pitch, row and mapped length agree |
| NativePixels.FromRaw | crates/ginkgo-graphics/src/lib.rs:412-454 | claims a framebuffer exactly when the configuration is usable, with that address and geometry |
| Framebuffer.FramebufferWriter.constructor | crates/ginkgo-graphics/src/lib.rs:412-454 | holds a geometry that fits its memory; which configurations get this far is decided by NativePixels.FromRaw |
| Framebuffer.FramebufferWriter.WriteRawPixel | crates/ginkgo-graphics/src/lib.rs:591-607 | replaces exactly one pixel's bytes, or nothing outside the screen |
| Framebuffer.FramebufferWriter.ReadRawPixel | crates/ginkgo-graphics/src/lib.rs:537-551 | returns the little-endian pixel, exactly on the screen |
| Framebuffer.FramebufferWriter.ReadRgbPixel | crates/ginkgo-graphics/src/lib.rs:557-576 | returns the expanded colour, exactly on the screen |
| Framebuffer.FramebufferWriter.WriteRgbPixel | crates/ginkgo-graphics/src/lib.rs:583-589 | stores the packed colour, exactly on the screen |
| Framebuffer.FramebufferWriter.StoreToBoundary | crates/ginkgo-graphics/src/lib.rs:703-740 | single stores up to a 16-byte boundary |
| Framebuffer.FramebufferWriter.StoreGroups | crates/ginkgo-graphics/src/lib.rs:703-740 | aligned group stores equal the same bytes stored singly |
| Framebuffer.FramebufferWriter.WriteNativeRow | crates/ginkgo-graphics/src/lib.rs:703-740 | for every alignment, the mix of 4, 8 and 16-byte stores and byte stores writes exactly the row; every wide store is naturally aligned |
| Framebuffer.FramebufferWriter.WriteRow | crates/ginkgo-graphics/src/lib.rs:635-740 | one row, native or converted |
| Framebuffer.FramebufferWriter.WriteRows | crates/ginkgo-graphics/src/lib.rs:635-691 | all rows of a region |
| Framebuffer.FramebufferWriter.WriteSceneRegion | crates/ginkgo-graphics/src/lib.rs:635-691 | succeeds exactly for regions inside scene and screen and paints exactly those rows; otherwise writes nothing |
| Framebuffer.FramebufferWriter.FillRow | crates/ginkgo-graphics/src/lib.rs:755-800 | writes copies of one pixel, paired where aligned |
| Framebuffer.FramebufferWriter.FillRows | crates/ginkgo-graphics/src/lib.rs:755-800 | fills every row |
| Framebuffer.FramebufferWriter.FillPackedRect | crates/ginkgo-graphics/src/lib.rs:755-800 | fills exactly the rectangle |
| Transfers.TakenNames | crates/ginkgo-ipc/src/kernel.rs:2820-2891 | after a batch has left a table, exactly its moved handles name nothing; every other handle names what it did |
| Transfers.ReceivedNames | crates/ginkgo-ipc/src/kernel.rs:2793-2803 | received entries are named, in order, by distinct handles that named nothing before; every other handle names what it did |
| Transfers.GrownInstalls | crates/ginkgo-ipc/src/kernel.rs:2757-2791 | reserving before installing changes nothing about what any handle names |
| Authority.BatchErrorIsFirst | crates/ginkgo-ipc/src/kernel.rs:2820-2891 | a batch is refused for its first disposition that repeats a handle, names nothing, lacks TRANSFER or DUPLICATE, or asks for more rights than the handle carries, with that error; otherwise every disposition may be carried out |
| Authority.PreparedIsAsked | crates/ginkgo-ipc/src/kernel.rs:2853-2883 | what is prepared for disposition i is the object its handle named with exactly the rights it asks for |
| Authority.WriteIsAllowedExactly | crates/ginkgo-ipc/src/kernel.rs:2412-2528 | a write is accepted if and only if the entry its handle names carries WRITE and is an endpoint, the sizes are within limits, the batch may be disposed of, the peer is open with room, and no carried endpoint leads back; said of table entries and queues alone |
| Authority.ReadIsAllowedExactly | crates/ginkgo-ipc/src/kernel.rs:2535-2580 | a read is accepted if and only if the entry its handle names carries READ and is an endpoint, a message waits, and its bytes and handles fit the room given and the table |
| Authority.UnusableIsRefused | crates/ginkgo-ipc/src/kernel.rs:2736-2746 | a handle that names nothing, lacks the right or is no endpoint gets InvalidHandle, AccessDenied or WrongObjectType, and the world stays as it was |
| Authority.ReadRefusals | crates/ginkgo-ipc/src/kernel.rs:2535-2580 | with the right, ShouldWait and PeerClosed tell an open peer from a closed one on an empty queue; BufferTooSmall and HandleTableFull are exact |
| Authority.WriteRefusals | crates/ginkgo-ipc/src/kernel.rs:2412-2528 | with the right, each other refusal of a write is exact |
| Authority.SignalsAreTrue | crates/ginkgo-ipc/src/kernel.rs:982-994 | READABLE says exactly that a read finds a message, WRITABLE that a plain write succeeds, PEER_CLOSED that writing reports PeerClosed |
| Authority.TakenLeaves | crates/ginkgo-ipc/src/kernel.rs:2820-2891 | a batch takes exactly its moved handles out of the table |
| Authority.WriteNeedsTheRight | crates/ginkgo-ipc/src/kernel.rs:2412-2528 | a write that changes anything may be done, and then the peer of the endpoint its handle names gets exactly the bytes and, in order, the named objects with the named rights; no other queue and no other table changes |
| Authority.ReadNeedsTheRight | crates/ginkgo-ipc/src/kernel.rs:2535-2580 | a read that changes anything may be done, and then takes exactly the oldest message of the endpoint its handle names, installing its handles in order |
| Authority.TransferNeedsTheRights | crates/ginkgo-ipc/src/kernel.rs:2820-2891 | a transfer happens exactly when it may: new handle i in the destination names the object disposition i named, with exactly its rights, and the source loses exactly the moved handles; otherwise nothing changes |
| Authority.CopyNeedsTheRights | crates/ginkgo-ipc/src/kernel.rs:2595-2606 | duplicating adds one handle with the requested rights exactly when the original carries DUPLICATE and those rights; otherwise nothing changes |
| Authority.OnlyRightsMoveMessages | crates/ginkgo-ipc/src/kernel.rs:2299-2606 | whatever the operation, what a side was sent grows only by a write through an entry with WRITE on the other endpoint, what it received only by a read through an entry with READ on its own |
| Authority.OnlyRightsMoveMessagesMeanwhile | crates/ginkgo-ipc/src/kernel.rs:2412-2580 | the same for every event of interleaved runs, in which writes search and commit with other operations in between |
| Authority.SentStaysSent | crates/ginkgo-ipc/src/kernel.rs:2412-2580 | a message sent stays in its place among those sent, over every run |
| Authority.WrittenIsDelivered | crates/ginkgo-ipc/src/kernel.rs:2412-2580 | over every run: once the peer has read all that was sent before, its next successful read delivers exactly the bytes written and, in order, new handles for the objects the batch named with exactly the rights it named |
| Prdt.PlanErrorIsExact | crates/ginkgo-kernel/src/ahci.rs:1380-1427 | a segment list is taken exactly when it is not empty nor too long, every segment can be reached, the bytes add up and the pieces fit the table |
| AhciRequests.PlanPieces | crates/ginkgo-kernel/src/ahci.rs:1380-1427 | the table has as many entries as the segments have pieces of at most 4 MiB |
| AhciRequests.RequestIsWellFormed | crates/ginkgo-kernel/src/ahci.rs:785-845 | a request passes the checks if and only if the port is in asynchronous mode and the command is well formed, said of command and disk alone |
| AhciRequests.AcceptedExactly | crates/ginkgo-kernel/src/ahci.rs:785-895 | a command is accepted if and only if the port is in asynchronous mode, the command is well formed (data: a positive multiple of 512 bytes, at most 65536 sectors, inside the capacity, segments adding up to it; flush: supported, alone, without data), the lowest free slot is not busy and no access fails; it then occupies exactly that slot |
| AhciRequests.RequestRefusals | crates/ginkgo-kernel/src/ahci.rs:785-845 | each refusal names the first reason that applies |
| AhciRequests.AcceptedLiesOnDisk | crates/ginkgo-kernel/src/ahci.rs:1689-1709 | over every run, what is accepted for data lies on the disk and its segments hold exactly its bytes |
| AhciRequests.CancelIsExact | crates/ginkgo-kernel/src/ahci.rs:1076-1085 | cancelling starts a reset exactly when the token is in flight on a working port, and otherwise changes nothing |
| AhciRequests.PollReadyIsExact | crates/ginkgo-kernel/src/ahci.rs:1281-1293 | ready exactly when the port works, no flush is in flight, and everything in flight or delivered leaves room |
| AhciRequests.ReadyMeansAccepted | crates/ginkgo-kernel/src/ahci.rs:1281-1297 | a port that reports ready takes every well-formed read or write the hardware has room for |
| AhciRequests.PollFaultsAreExact | crates/ginkgo-kernel/src/ahci.rs:901-995 | a port fault, an error interrupt or a failed re-arm starts a reset and is reported; an unreadable register is reported and changes nothing |
| AhciRequests.PollResetIsExact | crates/ginkgo-kernel/src/ahci.rs:1098-1176 | a reset poll settles, waits or fails exactly as the reset is complete, under way or lost; both engines must be seen stopped, CR first; afterwards the port is unavailable and holds nothing |
| AhciRequests.RingIsDelivered | crates/ginkgo-kernel/src/ahci.rs:1023-1074 | a completion at place p of the ring is delivered by poll p at the latest |
| AhciRequests.FinishedIsDelivered | crates/ginkgo-kernel/src/ahci.rs:1035-1074 | a command that has finished is delivered although its interrupt is lost: within the countdown and one poll per slot |
| HidItems.InterpretAppliesItems | crates/ginkgo-hid/src/lib.rs:1063-1111 | interpreting a descriptor is reading its items and applying them in turn; a torn last item is reported only if no earlier one was refused |
| HidItems.ItemsReadBack | crates/ginkgo-hid/src/lib.rs:1063-1111 | a descriptor written down item by item is read back as exactly those items, long items skipped |
| HidItems.ApplyDecides | crates/ginkgo-hid/src/lib.rs:1063-1111 | applying items ends at the first refused one |
| Nesting.LastReturns | crates/ginkgo-hid/src/lib.rs:1139-1150 | closing brings back the mark that was in force at the matching opening |
| HidMeaning.Scope | crates/ginkgo-hid/src/lib.rs:1113-1122 | local items are in force from right behind the last Main item |
| HidMeaning.SignedIsTwosComplement | crates/ginkgo-hid/src/lib.rs:965-972 | a logical limit is the number its bytes spell in two's complement |
| HidExact.GlobalsStep | crates/ginkgo-hid/src/lib.rs:1124-1153 | the settings held, and every saved copy, are those of the last Global items not undone by a Pop |
| HidExact.LocalsStep | crates/ginkgo-hid/src/lib.rs:1155-1177 | the usages held are the Usage items behind the last Main item, in order; minimum and maximum the last such items there |
| HidExact.CollectionsStep | crates/ginkgo-hid/src/lib.rs:1257-1288 | the application held is the innermost open application collection |
| HidExact.DeclaredIsMeant | crates/ginkgo-hid/src/lib.rs:1179-1236 | what an Input item declares is what the list of items before it means |
| HidExact.ReportsAreIds | crates/ginkgo-hid/src/lib.rs:1238-1255 | there is exactly one report for each id declared |
| HidExact.RefusalIsExact | crates/ginkgo-hid/src/lib.rs:1113-1288 | an item is refused exactly when the nesting, limits and ids of the list before it say so, with that error |
| HidExact.ParseIsExact | crates/ginkgo-hid/src/lib.rs:1063-1288 | for every descriptor: the first refused item decides, then a torn item, an open collection, unnumbered data beside report ids; otherwise the layout has the declared applications and, for each id with bits, one report of exactly that id's Input items, each with the page, limits, size, count, usages and application in force where it stands |
| HidDecode.ElementUsageIsExact | crates/ginkgo-hid/src/lib.rs:183-199 | the usage of an element from its range or list |
| HidDecode.ArrayUsageIsExact | crates/ginkgo-hid/src/lib.rs:201-218 | a selector names the usage it spells if and only if the range admits it |
| HidDecode.RolloverIsExact | crates/ginkgo-hid/src/lib.rs:770-842 | a keyboard array reporting usage 1, 2 or 3 anywhere is passed over; every other array reading is remembered |
| HidDecoder.LocateIsExact | crates/ginkgo-hid/src/lib.rs:635-671 | which report a packet belongs to, and exactly when and why it is refused |
| HidAnalog.NormalizeAxisIsNearest | crates/ginkgo-hid/src/lib.rs:921-929 | an absolute axis is scaled to the nearest step between its limits |
| HidAnalog.EventShowsValue | crates/ginkgo-hid/src/lib.rs:844-919 | each event shows the value of its control: pressed or not, axis position or motion, hat direction, plain value |
| HidAnalog.RunKeepsInTune | crates/ginkgo-hid/src/lib.rs:738-768 | over any readings the last event about an absolute control shows the value held |
| HidAnalog.ControlIsKnown | crates/ginkgo-hid/src/lib.rs:635-768 | after any packets the last event about an absolute axis, hat or value shows what was last reported; an axis or hat is announced with its first report |
| HidAnalog.WordHoldsExactly | crates/ginkgo-hid/src/lib.rs:931-954 | no reading exceeds a signed word exactly for fields that are signed or narrower than 32 bits |
| HidAnalog.MotionIsConserved | crates/ginkgo-hid/src/lib.rs:635-768 | the relative events of any packets add up to all motion reported, cut to signed words for axes; for fields signed or narrower than 32 bits nothing is cut |
| Registry.LessIsLexicographic | crates/ginkgo-app-package/src/registry.rs:336-339 | ids are ordered byte by byte, a prefix first |
| Registry.FilenameIsSpelled | crates/ginkgo-app-package/src/registry.rs:392-408 | a generation filename is the id, a dash, the digest in lower-case hexadecimal, a dot and the extension |
| Package.HeaderIsLaidOut | crates/ginkgo-app-package/src/package.rs:166-190 | each number of a package header stands at its offset |
| Registry.EntryIsLaidOut | crates/ginkgo-app-package/src/registry.rs:447-496 | each number of a registry entry stands at its offset |
| RegistryRuns.OnlyTrustChanges | crates/ginkgo-app-package/src/registry.rs:321-334 | while nothing writes an entry, only its trust changes, and it is as last set |
| RegistryRuns.EntryIsLastWritten | crates/ginkgo-app-package/src/registry.rs:275-334 | after any run an entry holds what the last install, update or restore of its id recorded, field by field; trust is false unless set since |
| RegistryRuns.TrustedOnlyByConsent | crates/ginkgo-app-package/src/registry.rs:321-434 | an entry is trusted only if its id was trusted after the last install, update or untrusted restore of it, and not distrusted since |
| RegistryRuns.ReservedStays | crates/ginkgo-app-package/src/registry.rs:410-418 | over any run of changes a reserved or invalid id keeps its entry |
| Windows.ReadIsShownBeforeReleased | crates/ginkgo-ipc/src/kernel.rs:2042-2167 | over every run a buffer the compositor has begun to read is released only after it was displayed |
| Windows.DroppableExactly | crates/ginkgo-ipc/src/kernel.rs:2074-2167 | over every run the manager may discard or coalesce exactly the pending submission it has not read, while no release waits |
| Windows.FailedCompletionKeepsAll | crates/ginkgo-ipc/src/kernel.rs:2194-2249 | a completion reported as failed leaves the submission pending and everything else as it was |
| Windows.SignalsAreExact | crates/ginkgo-ipc/src/kernel.rs:946-980 | READABLE says exactly that a release or a submission can be read, PEER_CLOSED that the other end is gone |
| Windows.WindowState.WindowCopyPending | crates/ginkgo-ipc/src/kernel.rs:2042-2058 | marks exactly the pending submission as read |
| Wakeups.StepIsJustified | crates/ginkgo-ipc/src/kernel.rs:996-1171 | every step keeps that whoever is called back, or about to be, asked for a signal that has been up |
| Wakeups.NoSpuriousWakeup | crates/ginkgo-ipc/src/kernel.rs:996-1171 | over every interleaving a token is called back only if it asked to wait for a signal that has been up on that facet |
| Cancellation.HeadLeaves | crates/ginkgo-ipc/src/kernel.rs:1117-1190 | every task keeps that all retained for a cancelled token is about to be removed |
| Cancellation.CancelledIsSilent | crates/ginkgo-ipc/src/kernel.rs:1161-1190 | cancelling is final: once a cancelled registration has been taken back, its token is never called back again, whatever the other threads do, unless somebody waits with it anew |
| Cancellation.HeadAccounts | crates/ginkgo-ipc/src/kernel.rs:2654-2710 | every task keeps that all retained for a token is known to a registration or about to be removed |
| Cancellation.FailedIsSilent | crates/ginkgo-ipc/src/kernel.rs:2654-2710 | a registration that fails half-way takes back what it had retained: afterwards its token is never called back |

## Left out

- Locks: each critical section is one atomic step; lock ordering and deadlock are not modelled. What a write holds while it runs (its handle table, its channel and the graph lock) is modelled as what other operations may not touch until it commits.
- Interleaving: the clones an unfinished write keeps of the endpoints it carries are counted when it commits, because until then its table still holds the originals.
- Reclamation.LiveIsReachable: for objects other than endpoints it counts only handle tables and queues as holders; a window also keeps its shared memory alive, which the model does not count.
- Allocation failure: any allocation may fail, as a nondeterministic OutOfMemory; which allocation failed is not modelled.
- Object kinds other than channel endpoints and windows (processes, requests, shared memory, files, power, scheduling, random sources): they appear only as opaque objects in handle tables.
- handle_move_between and channel_create_between: steps of the world only, without a class form.
- Windows: the byte-range check of copying out of a buffer and the buffer contents; a refused copy changes nothing.
- Waits: window, request and process facets appear as signal levels; only the channel's raises are tied to its operations.
- Ahci: register-level access, MSI and PCI setup, polled bootstrap commands, command headers, the non-queued FIS and diagnostics counters other than the in-flight count; what the hardware answers is an argument.
- Prdt.BuildPrdt: takes the largest number of segments as an argument (the driver passes 32), so that the claim holds for every limit.
- HID: the bounded event buffer with its emitted and dropped counts (the sink accepts everything), error offsets in descriptors, the field_value query and the DragonRise layout quirk.
- Package: the display name's rule (UTF-8, trimming, control characters) is a parameter, as are all rules in `Package` and `Registry`; `Validation` puts in the ones for ids, versions and paths, and invalid UTF-8 is reported as the invalid field it is in; error payloads are dropped; digests are opaque bytes.
- Framebuffer: drawing, text and fonts, surfaces, and volatility.
- File system, desktop, scheduler, memory management, networking, WebAssembly runtime, C runtime and build scripts.
