# Verified model of the buffer backends

This project models the parts of the buffer backends whose correctness depends on
interleavings, ownership or machine arithmetic, and proves what they promise.

- **Pooled GPU blocks across processes.** `BlockProtocol` is a step relation: the
  publisher leases a block, writes it on a stream, stamps it with a uid and a
  publish time, sends descriptors, lets it go and may lease it again; importers
  count themselves in the shared refcount, check the uid, read asynchronously and
  count themselves out after their read events. Every atomic access is a step of
  its own. `BlockInvariant` proves an invariant of every step, `BlockSafety` the
  guarantees over all runs, `BlockLimits` where exactly they end.
- **The classes behind it.** `BlockPool` (buckets, scan, swap-and-pop, lookup),
  `CudaBuffers` (handle states, events, recycler, moves), `GpuCopies` and
  `BufferCopies` (what asynchronous copies deliver), `IpcImport` and
  `DescriptorCreation` (one import or descriptor through all of its exits).
  `ProtocolSteps` proves that the classes' operations are runs of the protocol.
- **Endpoints.** `EndpointTable` and `EndpointRegistry` (the slot table shared by
  processes, proved to refine a bounded map, and its local cache), `IpcDecision`
  (the memo of who can import).
- **Descriptors of the operating system.** `BrokerWindow` and `BrokerShutdown`
  (the rolling window of the descriptor broker and its shutdown handshake),
  `FdDispatcher` and `FdDispatcherOwners` (who closes server sockets and
  duplicates), on top of `Descriptors`, in which numbers are used again once
  closed.
- **Tensors.** `TensorLayout`, `TensorSizes`, `TensorMessages`, `TensorRoundTrip`,
  with `MachineIntegers` for 64-bit arithmetic: overflow guards, the view check in
  C++ and Python, and the round trip of a CPU tensor.

`dafny verify dfyconfig.toml` checks everything.

## Main results

- A block is never handed out under an import that counted itself in less than
  `grace - gap` after the first publish time of its lease, and that import reads
  the bytes published, none missing and none of another lease
  (`NeverRecycledUnderReader`, `ReaderSeesPublishedBytes`). `gap` is the time between the pool's refcount load
  and its clock reading. The bound is exact: `ProtectedIff`.
- The uid check alone does not protect a late import: between a new lease and its
  first publication the shared uid is still the old one, so the check accepts, and
  the import can read the next lease's bytes (`OvertakenReaderSeesNextLease`).
- The shared refcount is exactly the number of imports between increment and
  decrement (`RefcountConservation`). The one exit that loses a count is a socket
  name that does not fit a socket address (`IpcImport.Importer.FromDescriptor`).
- A recycled block is handed out with no unfinished write, and with no unfinished
  read of an import that counted in `c` after its stamp if and only if
  `c + gap < grace` (`HandOutFindsWorkFinished`, `UnfinishedReadIff`).
- Protected readers are sure to find exactly the published bytes if and only if
  the lease takes no write handle after publishing (`PublishedBytesIff`); the code
  grants one to a buffer that was published unwritten.
- If a buffer is moved while a write handle is open, its readers wait for the
  write if and only if the stream is usable and either one of them, or a
  publication, comes before the handle's release, or the place the handle came
  from still holds the buffer's event (`WriteAwaited`). A move construction or
  assignment empties or swaps that place (`MovedUnderWriter`,
  `AssignedUnderWriter`).
- The memory of a destroyed buffer is freed only in a turn of the recycler that
  finds its owned write event and all its recorded reads complete
  (`DestroyedMemoryWaits`).
- A scan passes a shared block over exactly when its readiness test, run on its
  own, stops at a positive count or is declined (`TestDecides`,
  `UnreadyIsRefused`, `RecycleTakesSteps`).
- `clone`, `resize` and `to_cpu` deliver the source's bytes in every execution,
  also from a source that is itself still being copied in (`CopyPromises`,
  `CloneThenFetch`).
- Overflow guards are exact in their own evaluation order; C++ and Python accept
  the same views except as `AcceptsVersusPython` says.

## Steps of the block protocol and where they come from

The actions of `BlockProtocol`, which the lemmas above quantify over:

- `LoadCount`, `LoadStamp`, `Decline`, `HandOut`:
  cuda_buffer_backend/cuda_buffer/src/cuda_memory_pool.cpp:144-194
- `StoreUid`, `StoreStamp`, `Republish`:
  cuda_buffer_backend/cuda_buffer/include/cuda_buffer/cuda_memory_pool.hpp:83-99
- `CloseForPublish`, `Emit`, `Abandon`:
  cuda_buffer_backend/cuda_buffer_backend/src/cuda_buffer_backend_plugin.cpp:218-245
- `BeginWrite`, `FinishWrite`, `OpenLocalRead`, `CloseLocalRead`, `ReapLocal`:
  cuda_buffer_backend/cuda_buffer/src/cuda_buffer.cpp:138-215
- `Retire`, `Return`: cuda_buffer_backend/cuda_buffer/src/cuda_buffer.cpp:77-136
- `CountIn`, `CheckUid`, `MapFails`, `GoLive`, `CountOutFailed`:
  cuda_buffer_backend/cuda_buffer/src/cuda_buffer_ipc_manager.cpp:454-575
- `OpenRead`, `CloseRead`, `RetireImport`, `CountOut`:
  cuda_buffer_backend/cuda_buffer_backend/src/cuda_buffer_backend_plugin.cpp:282-318
- `Exec`, `ForeignWork`, `Tick`: FIFO streams, event completion and a clock; these
  stand for the GPU.

## Assumptions

- Streams run their operations in order; an event is complete once its stream has
  passed the point where it was recorded; address ranges from the driver do not
  overlap ranges in use.
- Atomic accesses are sequentially consistent, and the clock, in microseconds, is
  positive and never goes back. Neither it nor uids, timestamps and the refcount
  wrap.
- In the protocol: streams are usable and event objects could be created; handles
  do not outlive their buffer, and nobody writes through one after it was
  finalised; one thread publishes a buffer; uids are fresh; metadata is mapped in
  both processes; an importer only reads; a write event can be opened by another
  process (in the same process the publisher waits for it first).
- For copies, an execution respects what is held: nobody enqueues a write to a
  buffer's memory besides its write handle, nor to the source of a queued copy
  before the read event behind the copy is complete. The handles and the recycler
  see to that (`GetWriteHandle`, `Destroy`, `FreedAfterCopy`).
- A lease is given back to the pool once.
- The kernel answers with descriptor numbers not in use.

Where the code and its own documentation differ, the code is followed. The flow in
cuda_buffer_backend/docs/cuda_buffer_backend_design.md:112-113 checks the uid
before incrementing the refcount; the code increments first, which is what makes
the check meaningful. The same document (lines 130-132) lets the uid comparison
stop any late subscriber; in the code it does so only once the next lease has
published.


## Model

| member | source | states |
|---|---|---|
| BlockInvariant.InitInv | cuda_buffer_backend/cuda_buffer/src/cuda_memory_pool.cpp:213-287 | A newly created block, leased for the first time, satisfies the protocol invariant |
| BlockInvariant.WritesLanded | cuda_buffer_backend/cuda_buffer/include/cuda_buffer/cuda_buffer_handle.hpp:224-235 | Once the write event (if any) is complete and no write is open, every patch ever issued for the block has reached its memory, in issue order |
| BlockInvariant.ExecWrites | cuda_buffer_backend/cuda_buffer/include/cuda_buffer/cuda_buffer_handle.hpp:224-235 | Whatever stream runs next, writes of the block reach memory in the order in which they were issued, across leases |
| BlockInvariant.ReadFindsPublished | cuda_buffer_backend/cuda_buffer/include/cuda_buffer/cuda_buffer_handle.hpp:143-155 | When a read of a timely import comes up on any stream, its import still holds the block and memory is what was published, and exactly that unless the lease has taken a write handle since |
| BlockInvariant.EmitSent | cuda_buffer_backend/cuda_buffer_backend/src/cuda_buffer_backend_plugin.cpp:189-245 | A descriptor that leaves the publisher agrees with the shared metadata and with the number of writes issued so far |
| BlockInvariant.OpenReadInv | cuda_buffer_backend/cuda_buffer/include/cuda_buffer/cuda_buffer_handle.hpp:143-155 | An importer that opens a read first waits for the write event of its descriptor; this keeps the invariant |
| BlockInvariant.CountInInv | cuda_buffer_backend/cuda_buffer/src/cuda_buffer_ipc_manager.cpp:459-490 | Counting in before the uid check keeps the invariant in every state, also while the pool is testing the block |
| BlockInvariant.CountOutInv | cuda_buffer_backend/cuda_buffer_backend/src/cuda_buffer_backend_plugin.cpp:282-290 | The deleter runs only after all recorded read events; giving the count back keeps the invariant |
| BlockInvariant.HandOutInv | cuda_buffer_backend/cuda_buffer/src/cuda_memory_pool.cpp:144-156 | Handing the block out after the readiness test keeps the invariant, with the shared uid left as it was; on a zero stamp no clock is read |
| BlockInvariant.StepInv | cuda_buffer_backend/cuda_buffer/src/cuda_memory_pool.cpp:131-194 | Every step of publisher, pool, importers and GPU keeps the invariant, publications that fail half way included |
| BlockInvariant.RunInv | cuda_buffer_backend/cuda_buffer/src/cuda_memory_pool.cpp:131-194 | The invariant holds in every state of every interleaving |
| BlockSafety.RefcountConservation | cuda_buffer_backend/cuda_buffer/src/cuda_buffer_ipc_manager.cpp:454-518 | In every reachable state the shared refcount equals the number of imports between their increment and their decrement, so it is never negative |
| BlockSafety.CheckPassesIff | cuda_buffer_backend/cuda_buffer/src/cuda_buffer_ipc_manager.cpp:43-57 | A uid load passes exactly when no later lease has stored its uid, and fails exactly when one has |
| BlockSafety.HistoryGrows | cuda_buffer_backend/cuda_buffer/include/cuda_buffer/cuda_memory_pool.hpp:83-99 | Over every run, neither the lease of the stored uid nor the sequence of writes issued ever goes back |
| BlockSafety.LateImportRejected | cuda_buffer_backend/cuda_buffer/src/cuda_buffer_ipc_manager.cpp:454-518 | Once a later lease has stored its uid, every uid load for an earlier descriptor fails and its clean-up leaves the set of holders and the count as without it |
| BlockSafety.TimelyImportAccepted | cuda_buffer_backend/cuda_buffer/src/cuda_buffer_ipc_manager.cpp:510-518 | An import counted in less than the grace period, less the readiness gap, after the first publish time of its lease passes the uid check |
| BlockSafety.NeverRecycledUnderReader | cuda_buffer_backend/cuda_buffer/src/cuda_memory_pool.cpp:131-194 | While such an import holds its count the block stays in the lease it was sent from and `allocate` cannot return it, in every interleaving |
| BlockSafety.SentWasEmitted | cuda_buffer_backend/cuda_buffer_backend/src/cuda_buffer_backend_plugin.cpp:189-245 | Every descriptor ever received was sent in some earlier step, with the lease, uid and content of that moment |
| BlockSafety.ReaderSeesPublishedBytes | cuda_buffer_backend/cuda_buffer_backend/src/cuda_buffer_backend_plugin.cpp:282-318 | Whatever a timely import reads starts with the writes issued when its descriptor was sent, and is exactly those unless the lease was published unwritten and has taken a write handle since |
| BlockSafety.HandOutFindsWorkFinished | cuda_buffer_backend/cuda_buffer/src/cuda_memory_pool.cpp:144-194 | When a recycled block is handed out, all writes are finished and so is every read except of an import that counted in after the refcount load and too late to be timely |
| BlockSafety.CountsOutBehindWrite | cuda_buffer_backend/cuda_buffer_backend/src/cuda_buffer_backend_plugin.cpp:282-318 | In every reachable state, an import that has counted itself out has waited for the write event it opened from its descriptor |
| BlockSafety.WriteBeginsBehindReads | cuda_buffer_backend/cuda_buffer/src/cuda_buffer.cpp:153-176 | In every interleaving, when a lease is given a write handle, each read of the publisher still to come belongs to a read handle that is open on its stream |
| BlockLimits.UnfinishedReadIff | cuda_buffer_backend/cuda_buffer/src/cuda_memory_pool.cpp:170-194 | No hand-out, in any run, finds an unfinished read of an import that counted in `c` after its stamp, if and only if `c + gap < grace` |
| BlockLimits.ReachesReading | cuda_buffer_backend/cuda_buffer/src/cuda_memory_pool.cpp:170-194 | For every count-in at or past the margin there is a run in which the readiness test is about to pass while that import's read is still queued |
| BlockLimits.PublishedBytesIff | cuda_buffer_backend/cuda_buffer/src/cuda_buffer.cpp:153-176 | Protected readers are sure to find exactly the published bytes if and only if the lease takes no write handle after publishing |
| BlockLimits.ReachesLateWrite | cuda_buffer_backend/cuda_buffer/src/cuda_buffer.cpp:153-176 | A lease published unwritten can still take its one write handle, and a protected reader can then read that write |
| BlockSafety.AtomicHandOutFindsBlockIdle | cuda_buffer_backend/cuda_buffer/src/cuda_memory_pool.cpp:170-194 | If nobody counted in during the readiness test, the refcount is zero, all writes have landed, and no stream has work of the block left |
| BlockLimits.ReachesOvertaken | cuda_buffer_backend/cuda_buffer/src/cuda_memory_pool.cpp:144-187 | For every count-in at or past the margin there is a run in which the block is handed out under the import and the uid check still accepts it |
| BlockLimits.OvertakenReaderSeesNextLease | cuda_buffer_backend/cuda_buffer/src/cuda_memory_pool.cpp:152-156 | Such an import can read bytes of the next lease, since a new lease clears the timestamp but not the shared uid |
| BlockLimits.ProtectedIff | cuda_buffer_backend/cuda_buffer/src/cuda_memory_pool.cpp:176-187 | An import counting in `c` after its stamp is protected in every run if and only if `c + gap < grace` |
| ProtocolSteps.RecycleTakesSteps | cuda_buffer_backend/cuda_buffer/src/cuda_memory_pool.cpp:137-159 | Recycling a shared block in the pool class is a run of the protocol: a passed readiness test and the hand-out, ending with the same metadata; every block passed over is refused by its own test |
| ProtocolSteps.TestDecides | cuda_buffer_backend/cuda_buffer/src/cuda_memory_pool.cpp:170-194 | A readiness test that nothing races hands the block out if and only if the count is not positive and the stamp is zero or old enough, declines it if and only if the count is not positive and the stamp is younger, and has no other end |
| ProtocolSteps.UnreadyIsRefused | cuda_buffer_backend/cuda_buffer/src/cuda_memory_pool.cpp:170-194 | A shared block is passed over exactly if its test stops at a positive count, or loads count, stamp and clock and is declined without any change |
| ProtocolSteps.AssignUidTakesSteps | cuda_buffer_backend/cuda_buffer/include/cuda_buffer/cuda_memory_pool.hpp:83-99 | Assigning a uid in the pool class is the protocol's two stores, or no store on a lease that has one, ending with the same metadata |
| ProtocolSteps.ImportPath | cuda_buffer_backend/cuda_buffer/src/cuda_buffer_ipc_manager.cpp:447-576 | For each outcome of an import there is a run of the protocol with that outcome; one that escapes the clean-up stays counted in for good |
| ProtocolSteps.ImportTakesSteps | cuda_buffer_backend/cuda_buffer/src/cuda_buffer_ipc_manager.cpp:447-576 | Every exit of an import is such a run and ends with the same shared count and uid: live, rejected with the count given back, or stuck after the uid check |
| BlockPool.SwapPopRemovesOne | cuda_buffer_backend/cuda_buffer/src/cuda_memory_pool.cpp:146-148 | Swap-and-pop removes exactly the chosen element of a bucket (as multisets) |
| BlockPool.SwapPopDistinct | cuda_buffer_backend/cuda_buffer/src/cuda_memory_pool.cpp:146-148 | Swap-and-pop keeps a bucket free of duplicates and keeps exactly the other elements |
| BlockPool.LowerBoundExists | cuda_buffer_backend/cuda_buffer/src/cuda_memory_pool.cpp:137 | If some bucket is large enough there is a smallest one that is |
| BlockPool.CudaMemoryPool.FirstReady | cuda_buffer_backend/cuda_buffer/src/cuda_memory_pool.cpp:144-145 | The scan stops at the first block that has no metadata, or a count of zero or less and a stamp that is zero or at least the grace period old; every block passed over has metadata and a positive count or a younger stamp |
| BlockPool.CudaMemoryPool.Take | cuda_buffer_backend/cuda_buffer/src/cuda_memory_pool.cpp:146-156 | The found block leaves its bucket, an emptied bucket goes, the lease starts with uid and timestamp cleared and the shared uid and refcount kept; the partition holds |
| BlockPool.CudaMemoryPool.Recycle | cuda_buffer_backend/cuda_buffer/src/cuda_memory_pool.cpp:137-159 | A block is recycled if and only if the smallest bucket that is large enough holds a ready one; it is then the first ready one, and a result of none means that every block there has a positive count or a stamp younger than the grace period |
| BlockPool.CudaMemoryPool.Allocate | cuda_buffer_backend/cuda_buffer/src/cuda_memory_pool.cpp:131-162 | A request gets the first ready block of the smallest sufficient bucket, and a new block only when each block there has a positive count or a young stamp; the block is at least the rounded size, and at least the request unless rounding wraps; nothing else changes |
| BlockPool.CudaMemoryPool.CreateBlock | cuda_buffer_backend/cuda_buffer/src/cuda_memory_pool.cpp:213-287 | A new block of the rounded size is leased; an id is spent also when the driver refuses, which changes nothing else |
| BlockPool.CudaMemoryPool.Free | cuda_buffer_backend/cuda_buffer/src/cuda_memory_pool.cpp:164-168 | A lease given back once ends up once in the bucket of its size; the partition into leased and bucketed blocks holds |
| BlockPool.CudaMemoryPool.AssignUid | cuda_buffer_backend/cuda_buffer/include/cuda_buffer/cuda_memory_pool.hpp:83-99 | The first publication of a lease stores uid and time; every later one returns the same uid and changes nothing |
| BlockPool.CudaMemoryPool.AddressNamesOneBlock | cuda_buffer_backend/cuda_buffer/include/cuda_buffer/cuda_memory_pool.hpp:117-126 | With ranges disjoint as the driver hands them out, an address lies in at most one block of the pool |
| BlockPool.CudaMemoryPool.FindBlockForVa | cuda_buffer_backend/cuda_buffer/include/cuda_buffer/cuda_memory_pool.hpp:117-126 | The block found is the one block that contains the address, and none is reported only if no block does |
| BlockPool.CudaMemoryPool.OnePlaceEach | cuda_buffer_backend/cuda_buffer/src/cuda_memory_pool.cpp:131-168 | A block is not leased if and only if it has a place in a bucket, and it never has two |
| BlockPool.CudaMemoryPool.IdsRepeatAfterLimit | cuda_buffer_backend/cuda_buffer/src/cuda_memory_pool.cpp:217 | Block ids are distinct below 2^32 creations, and two ids agree exactly when the creations are a multiple of 2^32 apart |
| Granularity.RoundsUp | cuda_buffer_backend/cuda_buffer/include/cuda_buffer/cuda_memory_pool.hpp:136-139 | Without wrap-around, rounding gives the least multiple of the granularity that is at least the request |
| Granularity.RoundingExact | cuda_buffer_backend/cuda_buffer/include/cuda_buffer/cuda_memory_pool.hpp:136-139 | Rounding gives that least multiple if and only if the addition does not wrap, and zero when it does |
| DescriptorCreation.DescribeBuffer | cuda_buffer_backend/cuda_buffer_backend/src/cuda_buffer_backend_plugin.cpp:184-216 | A descriptor exists exactly when an exported, registered block of a sharing pool contains the address, and names that one block with its id, size and uid; an empty buffer's address gives none |
| DescriptorCreation.ImportDescribed | cuda_buffer_backend/cuda_buffer_backend/src/cuda_buffer_backend_plugin.cpp:248-290 | An import of a leased, described buffer maps at least the buffer's bytes, at the cached address or, the first time, at the reserved one |
| CudaBuffers.EraseCompleted | cuda_buffer_backend/cuda_buffer/src/cuda_buffer.cpp:178-196 | Erasing one completed event leaves the list of unfinished events as it is |
| CudaBuffers.BufferRecycler.RunOnce | cuda_buffer_backend/cuda_buffer/src/cuda_buffer.cpp:77-98 | Memory is freed in the order it came, once each, and only when every event of its entry has synchronised; what was accepted is conserved |
| CudaBuffers.CudaBuffer.Reap | cuda_buffer_backend/cuda_buffer/src/cuda_buffer.cpp:178-196 | The in-place erase loop leaves exactly the unfinished read events, in order |
| CudaBuffers.CudaBuffer.FinalizeLocked | cuda_buffer_backend/cuda_buffer/src/cuda_buffer.cpp:205-215 | Only a handle in use is finalised; the write event then marks everything queued on the write stream, and is recorded for the first time |
| CudaBuffers.CudaBuffer.FinalizeWriteHandle | cuda_buffer_backend/cuda_buffer/src/cuda_buffer.cpp:198-203 | Afterwards no handle is in use and readers wait for exactly the mark that a reader would have recorded; without a handle in use nothing changes |
| CudaBuffers.CudaBuffer.GetReadHandle | cuda_buffer_backend/cuda_buffer/src/cuda_buffer.cpp:138-151 | A write in progress is finalised first, a non-null stream waits for the recorded write event before anything later on it, and completed reads are dropped |
| CudaBuffers.CudaBuffer.GetWriteHandle | cuda_buffer_backend/cuda_buffer/src/cuda_buffer.cpp:153-176 | Granted if and only if none was ever issued and no recorded read is unfinished; each refusal names the handle state that caused it |
| CudaBuffers.CudaBuffer.Destroy | cuda_buffer_backend/cuda_buffer/src/cuda_buffer.cpp:118-136 | Memory is freed at once only without an owned write event and without recorded reads; otherwise it is queued once, last, with the write event and every recorded read to wait for; either way the buffer is empty |
| CudaBuffers.DestroyedMemoryWaits | cuda_buffer_backend/cuda_buffer/src/cuda_buffer.cpp:77-136 | Whatever the device does between the turns of the recycler, the memory of a destroyed buffer is freed only in a turn that finds its owned write event and all its recorded reads complete |
| CudaBuffers.CudaBuffer.Move | cuda_buffer_backend/cuda_buffer/include/cuda_buffer/cuda_buffer.hpp:45-59 | Move construction takes every field and leaves the source with nothing to record or free |
| CudaBuffers.ReadHandle.Release | cuda_buffer_backend/cuda_buffer/include/cuda_buffer/cuda_buffer_handle.hpp:123-139 | On a usable stream one read event is added that marks everything enqueued so far; otherwise none |
| CudaBuffers.MovedReadRecordsOnce | cuda_buffer_backend/cuda_buffer/include/cuda_buffer/cuda_buffer_handle.hpp:74-100 | A read handle that was moved on records its read once, from the handle it ended up in |
| CudaBuffers.WriteHandle.Release | cuda_buffer_backend/cuda_buffer/include/cuda_buffer/cuda_buffer_handle.hpp:224-235 | Records and finalises unless that has happened already, with the event looked up in the place the handle came from; an unmoved buffer stays valid |
| CudaBuffers.WriteAwaited | cuda_buffer_backend/cuda_buffer/include/cuda_buffer/cuda_buffer_handle.hpp:224-235 | After whatever moves, readers of the buffer that holds the handle's state wait for the write if and only if its stream is usable and either a reader or publisher finalises it before the release or the place the handle came from still holds that buffer's event |
| CudaBuffers.MovedUnderWriter | cuda_buffer_backend/cuda_buffer/include/cuda_buffer/cuda_buffer.hpp:45-59 | Move construction under an open write handle: the write is awaited exactly if a reader comes before the release |
| CudaBuffers.AssignedUnderWriter | cuda_buffer_backend/cuda_buffer/include/cuda_buffer/cuda_buffer.hpp:64-77 | Move assignment under an open write handle: the same, and otherwise the mark goes to the event that was swapped into the handle's place |
| CudaBuffers.RunUnmoved | cuda_buffer_backend/cuda_buffer/src/cuda_buffer.cpp:138-215 | Over every sequence of operations on an unmoved buffer the handle state only moves Unset, InUse, Finalized, at most one write handle is issued and the write event is recorded at most once |
| CudaBuffers.ReadBehindWrites | cuda_buffer_backend/cuda_buffer/src/cuda_buffer.cpp:138-151 | Opening a read orders everything enqueued on its stream from then on, in every execution, behind everything queued on the write stream before the finalisation |
| GpuCopies.BehindWaitIsAfter | cuda_buffer_backend/cuda_buffer/include/cuda_buffer/cuda_buffer_handle.hpp:143-155 | In every execution, whatever ran behind a wait ran after everything queued before the awaited mark |
| GpuCopies.ConsumerAfterProducer | cuda_buffer_backend/cuda_buffer/include/cuda_buffer/cuda_buffer_handle.hpp:143-155 | A stream that was just made to wait for an event runs everything enqueued from then on behind all that was queued before the event's mark |
| GpuCopies.StoresPromise | cuda_buffer_backend/cuda_buffer/include/cuda_buffer/cuda_buffer_handle.hpp:224-235 | What was queued on the write stream before the mark is what the memory will hold in every execution: all of it, in order, and nothing else |
| GpuCopies.SettleLast | cuda_buffer_backend/cuda_buffer/include/cuda_buffer/cuda_buffer_handle.hpp:224-235 | Of two stores to the same bytes the one enqueued later is the one that stays |
| GpuCopies.PromiseStays | cuda_buffer_backend/cuda_buffer/include/cuda_buffer/cuda_buffer_impl.hpp:88-153 | What a location is promised to hold outlives every step that respects what is held |
| GpuCopies.CopyPromises | cuda_buffer_backend/cuda_buffer/include/cuda_buffer/cuda_buffer_impl.hpp:139-153 | A copy queued behind a wait for the source's event turns the source's promise, however it came about, into the destination's, due at the mark behind the copy |
| BufferCopies.WrittenIsPromised | cuda_buffer_backend/cuda_buffer/include/cuda_buffer/cuda_buffer_handle.hpp:224-235 | A buffer written through its handle promises its readers everything queued so far |
| BufferCopies.CudaBufferImpl.CopyPromised | cuda_buffer_backend/cuda_buffer/include/cuda_buffer/cuda_buffer_impl.hpp:88-114 | One copy is enqueued behind the wait for the source's write event, both buffers' new events lie behind it, readers of the target find the copied bytes, and readers of the source still find theirs |
| BufferCopies.CudaBufferImpl.Clone | cuda_buffer_backend/cuda_buffer/include/cuda_buffer/cuda_buffer_impl.hpp:139-153 | The clone has the same size and its own memory, and its readers find all bytes of the source, in every execution; also if the source itself is still being copied in |
| BufferCopies.CudaBufferImpl.ToCpu | cuda_buffer_backend/cuda_buffer/include/cuda_buffer/cuda_buffer_impl.hpp:122-137 | Once the stream has passed the copy, in every execution, the result holds all bytes of the source |
| BufferCopies.CudaBufferImpl.Clear | cuda_buffer_backend/cuda_buffer/include/cuda_buffer/cuda_buffer_impl.hpp:116-120 | The buffer is empty afterwards; its memory is freed at once only without an owned write event and recorded reads, and otherwise waits in the recycler for all of them |
| BufferCopies.CudaBufferImpl.Resize | cuda_buffer_backend/cuda_buffer/include/cuda_buffer/cuda_buffer_impl.hpp:88-114 | Readers of the resized buffer find the first min(n, old) elements, and the old memory waits in the recycler behind that copy's read event; the same size changes nothing |
| BufferCopies.CloneThenFetch | cuda_buffer_backend/cuda_buffer/include/cuda_buffer/cuda_buffer_impl.hpp:122-153 | Fetching a clone at once, with both copies still queued, gives the host the bytes of the original |
| BufferCopies.FreedAfterCopy | cuda_buffer_backend/cuda_buffer/src/cuda_buffer.cpp:77-98 | Memory that the recycler frees no longer has the copy to run |
| IpcImport.Importer.ImportBlock | cuda_buffer_backend/cuda_buffer/src/cuda_buffer_ipc_manager.cpp:447-576 | A hit gives the cached address and a miss the reserved one; success if and only if the uid is accepted and the block is cached or every step of the mapping succeeds, and each fault names the step that failed; a success counts in once, and the first maps the stated size for all later ones; each failure leaves count and cache as found, except a socket name of 0 or more than 107 bytes, which throws past the clean-up |
| IpcImport.Importer.FromDescriptor | cuda_buffer_backend/cuda_buffer_backend/src/cuda_buffer_backend_plugin.cpp:248-333 | Each success adds one import, at the cached or the reserved address, to the books, each failure none, and the shared count always agrees with the books; a count is lost exactly for a descriptor with a socket name over 107 bytes whose uncached import gets to the socket |
| IpcImport.Importer.Delete | cuda_buffer_backend/cuda_buffer_backend/src/cuda_buffer_backend_plugin.cpp:282-290 | The deleter gives back exactly the one count its import took |
| EndpointTable.RegistrationFailsIff | cuda_buffer_backend/cuda_buffer/src/host_endpoint_manager.cpp:332-403 | With the semaphore held, registration fails if and only if the gid is absent and all of the maximum slots are active |
| EndpointTable.RegistrationSucceeds | cuda_buffer_backend/cuda_buffer/src/host_endpoint_manager.cpp:332-403 | A success keeps the table well formed, enters the endpoint, and touches no slot but one of the same gid or an inactive one |
| EndpointTable.EveryRunKeepsTable | cuda_buffer_backend/cuda_buffer/src/host_endpoint_manager.cpp:107-121 | Over every interleaving of registrations, purges and exits, gids of the used slots are distinct and the used count stays within the maximum |
| EndpointTable.HeldSize | cuda_buffer_backend/cuda_buffer/src/host_endpoint_manager.cpp:332-403 | The map of active endpoints is as large as the table exactly when every used slot is active |
| EndpointTable.RegistrationRefines | cuda_buffer_backend/cuda_buffer/src/host_endpoint_manager.cpp:332-403 | On the map of active endpoints, registration is an update that fails exactly when the map is full of others: slot reuse loses no room |
| EndpointTable.SectionRefines | cuda_buffer_backend/cuda_buffer/src/host_endpoint_manager.cpp:275-316 | Registration, purge and exit on slots do to the active endpoints what the plain map operations do |
| EndpointTable.EveryRunRefines | cuda_buffer_backend/cuda_buffer/src/host_endpoint_manager.cpp:332-403 | Over every run the slot table holds the same active endpoints as a plain bounded map |
| EndpointTable.PidOfInstance | cuda_buffer_backend/cuda_buffer/src/host_endpoint_manager.cpp:113 | The process id put into the upper half of an instance id comes out of it as the signed number that is probed |
| EndpointTable.DeadIff | cuda_buffer_backend/cuda_buffer/src/host_endpoint_manager.cpp:113-117 | An entry is dead if and only if it is active and its process id is positive and gone |
| EndpointTable.PurgeCounts | cuda_buffer_backend/cuda_buffer/src/host_endpoint_manager.cpp:107-121 | The number returned by a purge is the size of the set of slots that it switched off, and what is left is a table |
| EndpointRegistry.SharedRegistry.PurgeDeadEntries | cuda_buffer_backend/cuda_buffer/src/host_endpoint_manager.cpp:107-121 | An entry whose process is alive, or cannot be probed, keeps its slot as it was; one of a dead process loses it, and the number returned counts exactly the entries switched off |
| EndpointRegistry.SharedRegistry.Leave | cuda_buffer_backend/cuda_buffer/src/host_endpoint_manager.cpp:291-297 | The loop deactivates exactly the active entries of the own instance |
| EndpointRegistry.HostEndpointManager.Close | cuda_buffer_backend/cuda_buffer/src/host_endpoint_manager.cpp:275-316 | The destructor gives up the own entries and those of dead processes and keeps every other, and unlinks the registry exactly if no active entry is left; without the semaphore nothing happens |
| EndpointRegistry.SharedRegistry.Register | cuda_buffer_backend/cuda_buffer/src/host_endpoint_manager.cpp:332-403 | The slot search in place: same gid, else first inactive, else a new slot, else failure without change |
| EndpointRegistry.HostEndpointManager.RegisterEndpoint | cuda_buffer_backend/cuda_buffer/src/host_endpoint_manager.cpp:332-403 | Fails exactly without the semaphore or with the table full of other active endpoints, and then changes nothing; otherwise enters the own endpoint in table and cache |
| EndpointRegistry.HostEndpointManager.RefreshFromRemote | cuda_buffer_backend/cuda_buffer/src/host_endpoint_manager.cpp:433-474 | Afterwards every active entry is answered as it stands, as intra-process if and only if its instance is this one, and every other answer is what it was |
| IpcDecision.CudaBufferBackend.ClassifyPeer | cuda_buffer_backend/cuda_buffer_backend/src/cuda_buffer_backend_plugin.cpp:165-171 | The memo equals the outcome of the latest classification that found the peer; a miss never enters it |
| IpcDecision.CudaBufferBackend.OnDiscovering | cuda_buffer_backend/cuda_buffer_backend/src/cuda_buffer_backend_plugin.cpp:98-134 | A positive answer rests on a current classification that allows importing; decisions about other peers are untouched |
| IpcDecision.CudaBufferBackend.DecideDescriptor | cuda_buffer_backend/cuda_buffer_backend/src/cuda_buffer_backend_plugin.cpp:136-187 | A descriptor is emitted if and only if the buffer can be exported and the latest found classification is IPC-capable and in-process, or same-host with equal device and uid |
| FdDispatcher.FDDispatcher.AddSocket | cuda_buffer_backend/cuda_buffer/src/cuda_buffer_ipc_manager.cpp:264-284 | The socket enters the table with a duplicate of its own only if both duplicate and poll registration succeed; a failed poll registration closes the duplicate again |
| FdDispatcher.FDDispatcher.RemoveSocket | cuda_buffer_backend/cuda_buffer/src/cuda_buffer_ipc_manager.cpp:286-304 | The socket and its duplicate, if any, are closed, each once, and nothing else |
| FdDispatcher.FDDispatcher.HandleClient | cuda_buffer_backend/cuda_buffer/src/cuda_buffer_ipc_manager.cpp:321-383 | A client of a block's socket receives the file that was exported for that block, whatever was added and removed since |
| FdDispatcher.FDDispatcher.Stop | cuda_buffer_backend/cuda_buffer/src/cuda_buffer_ipc_manager.cpp:229-262 | The sockets still in the table are closed but not their duplicates; with an empty table nothing is left behind |
| FdDispatcher.CudaVmmIPCManager.RegisterBlock | cuda_buffer_backend/cuda_buffer/src/cuda_buffer_ipc_manager.cpp:419-445 | A registered block keeps its socket; a new one gets one unless the server socket fails, which changes nothing; what is then served there is a duplicate of the block's exported descriptor, or nothing if the duplicate or the poll registration fails |
| FdDispatcher.CudaVmmIPCManager.Destroy | cuda_buffer_backend/cuda_buffer/src/cuda_buffer_ipc_manager.cpp:408-417 | Exactly the manager's own server sockets are removed, with their duplicates |
| FdDispatcherOwners.DispatcherCache.GetDispatcher | cuda_buffer_backend/cuda_buffer/src/cuda_buffer_ipc_manager.cpp:385-401 | The live dispatcher is handed out again; a new one is made only when none is alive |
| FdDispatcherOwners.DispatcherCache.CreateManager | cuda_buffer_backend/cuda_buffer/src/cuda_buffer_ipc_manager.cpp:403-406 | All live managers share one dispatcher, and a new manager owns no socket |
| FdDispatcherOwners.DispatcherCache.RegisterBlock | cuda_buffer_backend/cuda_buffer/src/cuda_buffer_ipc_manager.cpp:419-445 | Registration through any manager keeps the ownership invariant, each open server socket owned by exactly one block of one live manager, and serves a duplicate of the block's exported descriptor there |
| FdDispatcherOwners.DispatcherCache.DestroyManager | cuda_buffer_backend/cuda_buffer/src/cuda_buffer_ipc_manager.cpp:408-417 | When the last manager goes, the socket table is empty, nothing opened for the managers is still open, and no other descriptor was closed |
| BrokerWindow.WindowAfter | qc_buffer_backend/qc_buffer/src/fd_broker.cpp:189-217 | One more request changes the window by at most one insertion at its end and one eviction at its front, and not at all if it is not admitted |
| BrokerWindow.RepeatsAreFarApart | qc_buffer_backend/qc_buffer/src/fd_broker.cpp:194-217 | A uid is accepted again only after more than `capacity` insertions since its last one: a repeat inside the window neither adds nor refreshes |
| BrokerWindow.WindowDistinct | qc_buffer_backend/qc_buffer/src/fd_broker.cpp:194-217 | The last `capacity` accepted insertions never hold a uid twice, over every sequence of requests |
| BrokerWindow.ServedUntilPushedOut | qc_buffer_backend/qc_buffer/src/fd_broker.cpp:189-217 | An admitted uid stands for its file until `capacity` later insertions are in |
| BrokerWindow.ShownFile | qc_buffer_backend/qc_buffer/src/fd_broker.cpp:138-149 | A lookup finds a uid exactly when it is in the window, with an open duplicate of the file it was registered for |
| BrokerWindow.ShownCounts | qc_buffer_backend/qc_buffer/src/fd_broker.cpp:206-216 | The queue has no duplicates, its set is the table's keys, and the open duplicates number exactly the entries, one each |
| BrokerWindow.ShowsElsewhere | qc_buffer_backend/qc_buffer/src/fd_broker.cpp:189-217 | What the rest of the process does with other descriptors does not affect the window |
| BrokerWindow.FdBroker.RegisterBuffer | qc_buffer_backend/qc_buffer/src/fd_broker.cpp:189-217 | For any capacity, queue and table are the last accepted insertions: a new valid uid is taken in also when the window is full, with a duplicate of its descriptor's file, and pushes out the oldest, whose descriptor is closed; rejected requests change nothing |
| BrokerWindow.FdBroker.EvictOldest | qc_buffer_backend/qc_buffer/src/fd_broker.cpp:208-216 | The eviction loop leaves the last `capacity` insertions and closes the descriptors of the others |
| BrokerWindow.FdBroker.HandleConnection | qc_buffer_backend/qc_buffer/src/fd_broker.cpp:136-187 | The peer receives the file registered for the uid exactly if the table has it and it can be sent; the process's descriptors are as before |
| BrokerWindow.FdBroker.CloseEntries | qc_buffer_backend/qc_buffer/src/fd_broker.cpp:60-64 | The destructor closes every held descriptor, each once, and no other |
| BrokerShutdown.StepInv | qc_buffer_backend/qc_buffer/src/fd_broker.cpp:42-65 | Every step of destructor, worker, handlers and callers keeps the shutdown invariant |
| BrokerShutdown.CounterIsExact | qc_buffer_backend/qc_buffer/src/fd_broker.cpp:103-187 | In every interleaving the counter is the number of connections between counting in and counting out |
| BrokerShutdown.ClosingFindsNoHandler | qc_buffer_backend/qc_buffer/src/fd_broker.cpp:42-65 | In every interleaving, once the destructor closes entries, every handler ever started has finished and none can start |
| BrokerShutdown.InsideIff | qc_buffer_backend/qc_buffer/src/fd_broker.cpp:136-149 | In every interleaving a handler is inside exactly while a handler has the lock; with the counter at zero it is one that missed |
| BrokerShutdown.ZeroWithHandlerInside | qc_buffer_backend/qc_buffer/src/fd_broker.cpp:141-147 | The counter alone does not keep handlers out: zero can be seen while a handler that missed still holds the lock |
| BrokerShutdown.NeverStuck | qc_buffer_backend/qc_buffer/src/fd_broker.cpp:42-65 | Until the destructor is through, somebody can move |
| TensorLayout.RowMajorAt | torch_conversions/torch_conversions/src/torch_conversions.cpp:199-218 | Each row-major stride is the product of the dimensions to its right |
| TensorLayout.RowMajorSpan | torch_conversions/torch_conversions/src/torch_conversions.cpp:199-218 | For positive dimensions one plus the sum of (d-1)·s is the product of the shape |
| TensorLayout.OffsetInRange | torch_conversions/torch_conversions/src/torch_conversions.cpp:199-218 | Row-major offsets of index tuples lie in [0, product) |
| TensorLayout.OffsetOfUnravel | torch_conversions/torch_conversions/src/torch_conversions.cpp:199-218 | Every number below the product is the offset of its index tuple |
| TensorLayout.UnravelOfOffset | torch_conversions/torch_conversions/src/torch_conversions.cpp:199-218 | Every index tuple is recovered from its offset |
| TensorLayout.RowMajorBijection | torch_conversions/torch_conversions/src/torch_conversions.cpp:199-218 | The index-to-offset map is a bijection onto [0, product), for every nonnegative shape |
| TensorLayout.OffsetBelowSpan | torch_conversions/torch_conversions/src/torch_conversions.cpp:236-259 | Every index tuple of a view with nonnegative strides has its offset below the view's span |
| TensorLayout.SpanIsLastOffset | torch_conversions/torch_conversions/src/torch_conversions.cpp:236-259 | For any strides the span is one more than the offset of the last index tuple |
| TensorSizes.ElementCount | torch_conversions/torch_conversions/src/torch_conversions.cpp:181-197 | Returns the true product if and only if no dimension is negative and every running product from the left fits; an error is the first guard that fires |
| TensorSizes.ContiguousStrides | torch_conversions/torch_conversions/src/torch_conversions.cpp:199-218 | Returns the suffix products if and only if no dimension is negative and every running product from the right fits; an error is the first guard that fires |
| TensorSizes.ContiguousStridesPy | torch_conversions/torch_conversions_py/torch_conversions/_core.py:48-54 | The Python loop returns the suffix products on all shapes |
| TensorSizes.ByteCount | torch_conversions/torch_conversions/src/torch_conversions.cpp:220-231 | Returns product times element size if and only if that and every running product fit |
| TensorSizes.GuardsExact | torch_conversions/torch_conversions/src/torch_conversions.cpp:181-231 | For positive shapes the guards fire exactly when the whole product is too large |
| TensorSizes.ZeroDimensionRefused | torch_conversions/torch_conversions/src/torch_conversions.cpp:181-197 | With a zero dimension a product of zero can be refused, because earlier dimensions are multiplied first |
| TensorMessages.NormalizedStrides | torch_conversions/torch_conversions/src/torch_conversions.cpp:357-368 | Empty strides become the row-major ones, others are taken as they are if the rank agrees |
| TensorMessages.ViewSpan | torch_conversions/torch_conversions/src/torch_conversions.cpp:236-259 | The loop computes the span exactly, without wrap-around, up to the first zero dimension, and fails exactly when a number there is negative or a running span does not fit |
| TensorMessages.ValidateView | torch_conversions/torch_conversions/src/torch_conversions.cpp:233-275 | Returns if and only if the view is acceptable, with the storage bytes it requires; no intermediate wraps |
| TensorMessages.AcceptedViewIsSafe | torch_conversions/torch_conversions/src/torch_conversions.cpp:233-275 | For an accepted view, the bytes of the element at every index tuple lie inside the storage |
| TensorMessages.AcceptsVersusPython | torch_conversions/torch_conversions_py/torch_conversions/_core.py:57-75 | On every view, C++ and Python differ only by negative numbers behind a zero dimension and by overflow in C++; what Python computes for an accepted view are its strides, its span and its element size |
| TensorMessages.AgreesWithPython | torch_conversions/torch_conversions_py/torch_conversions/_core.py:57-75 | On positive shapes and storage below 2^63 bytes C++ and Python accept the same views |
| TensorMessages.ZeroDimensionDisagreement | torch_conversions/torch_conversions_py/torch_conversions/_core.py:57-75 | With a zero dimension each side rejects a view that the other accepts |
| TensorRoundTrip.RowMajorViewAccepted | torch_conversions/torch_conversions/src/torch_conversions.cpp:233-275 | A row-major view from the start of sufficient storage passes the check and requires exactly its elements' bytes |
| TensorRoundTrip.JoinAt | torch_conversions/torch_conversions_cpu/src/cpu_conversion_plugin.cpp:80-89 | In the contiguous form of a tensor each element's bytes stand right after those of the elements before it |
| TensorRoundTrip.WrittenViewReadsBack | torch_conversions/torch_conversions_cpu/src/cpu_conversion_plugin.cpp:92-105 | Reading any index through the view of a message returns the source tensor's element there, whatever the storage holds beyond it |
| TensorRoundTrip.TensorMsg.SetMetadata | torch_conversions/torch_conversions/src/torch_conversions.cpp:277-286 | The message describes the tensor at the start of its storage, unless the strides do not fit; then only the shape has been set |
| TensorRoundTrip.TensorMsg.ToTensorMsg | torch_conversions/torch_conversions/src/torch_conversions.cpp:420-438 | Succeeds exactly when the tensor is empty, or fits the storage and its strides fit; then every index reads back as in the tensor, also when the storage is larger |
| TensorRoundTrip.AllocateTensorMsg | torch_conversions/torch_conversions/src/torch_conversions.cpp:370-397 | Succeeds exactly when strides and byte count fit and the dtype is supported; the message passes the view check with required bytes equal to its storage size |
| TensorRoundTrip.NewTensorMsg | torch_conversions/torch_conversions/src/torch_conversions.cpp:440-451 | By value: an empty message for an empty tensor, otherwise a message that reads back as the tensor at every index |

## Left out

- The CUDA driver and runtime beyond the axioms above: allocation, export, mapping calls, error strings.
- Socket, epoll, `SCM_RIGHTS`, mmap, shared memory and semaphore mechanics: descriptors are owned tokens, critical sections are atomic, and failures are answers of the environment.
- The dispatcher's own event and poll descriptors.
- Serving a block's socket at the same time as removing it: the dispatcher reads the descriptor under its lock but sends it after unlocking, and nothing is claimed about that overlap.
- The pool destructor's bounded wait for readers, and the unlinking of its shared segments.
- Unique names of endpoints' shared segments, reuse of process ids, and the probability that two drawn uids collide.
- Failures of event creation, recording and synchronisation on usable streams.
- Overflow of the 32-bit refcount.
- Weak memory: the orderings that the code requests are taken to be enough for the interleavings of single accesses.
- Termination of the broker's destructor: it is proved that somebody can always move, not that the scheduler lets them.
- The Python `to_tensor_msg` copy and its plugin registry; the Python stride and view checks are modelled.
- Torch's own tensor representation: a tensor is its shape, dtype and the bytes of each element, and `contiguous()` is their row-major sequence.
- CUDA tensors in messages, DLPack capsules, plugin loading and priorities, dtype names.
- `QcBuffer`, `RpcMemLoader`, the client side of the broker, tutorials, launch files, environment overrides, logging.
- IpcImport.Importer.ImportBlock: follows one call without interference; the interleavings are those of `BlockProtocol`, tied to it by `ProtocolSteps`.
- BlockPool.CudaMemoryPool.Allocate: the clock readings of one scan may be any function of the position; that they do not decrease is not used.
- BufferCopies.CudaBufferImpl.ToCpu: ends where the caller starts to wait for the stream; the result is stated for the moment the stream has passed the copy.
- BlockSafety.HandOutFindsWorkFinished: reads of imports that raced the readiness test are excluded, because for them the property is false; `BlockLimits.UnfinishedReadIff` says exactly for which.
- BlockSafety.ReaderSeesPublishedBytes: exact bytes are not promised to readers of a lease that takes a write handle after publishing, because the code lets it; `BlockLimits.PublishedBytesIff`.
