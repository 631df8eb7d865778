/**
  Buffers of elements: `resize`, `clone` and `to_cpu` enqueue one asynchronous
  copy behind the source's write event.
 */
module BufferCopies {
  import opened Outcomes
  import opened Queues
  import opened GpuCopies
  import opened CudaBuffers

  /** Whoever waits as a reader of `b` would wait now finds `x` in its memory, in
      every execution that respects what is held. */
  ghost predicate Promised(dev: Device, b: CudaBuffer, holds: set<Hold>, x: Bytes)
    reads dev, b, b.handleState, b.writeEvent
  {
    && b.Valid() && b.memory.Some? && b.memory.value in dev.gpu.memory
    && WaitsHonoured(dev.gpu.streams)
    && Promise(dev.gpu, holds, b.memory.value, b.WouldAwait(dev), x)
  }

  /** A buffer written through its handle promises everything queued so far. */
  lemma WrittenIsPromised(dev: Device, b: CudaBuffer, holds: set<Hold>)
    requires b.Valid() && b.memory.Some? && WaitsHonoured(dev.gpu.streams)
    requires StoresAhead(dev.gpu, b.memory.value, b.WouldAwait(dev)) && Hold(b.memory.value, None) in holds
    ensures Promised(dev, b, holds, FinalContent(dev.gpu, b.memory.value, b.WouldAwait(dev)))
  {
    StoresPromise(dev.gpu, holds, b.memory.value, b.WouldAwait(dev));
  }

  /** `loc` is free to be copied to: nothing queued writes it and nobody holds it. */
  ghost predicate Vacant(g: Gpu, holds: set<Hold>, loc: nat, count: nat) {
    Untouched(g, loc) && count <= |g.memory[loc]| && forall h | h in holds :: h.loc != loc
  }

  /** The copied bytes are the source's, the others what they were. */
  lemma CopiedBytes(content: Bytes, x: Bytes, count: nat)
    requires count <= |content| && count <= |x|
    ensures |Copied(content, x, count)| == |content|
    ensures Copied(content, x, count)[..count] == x[..count] && Copied(content, x, count)[count..] == content[count..]
  {
  }

  /** After a copy from `b` on stream `s`, enqueued when the device was `before`:
      readers of `target` find the first `count` bytes of `x`, and readers of `b`
      still find `x`. */
  ghost predicate CopyArrives(dev: Device, target: CudaBuffer, b: CudaBuffer, before: Gpu, holds: set<Hold>, s: nat, count: nat, x: Bytes)
    reads dev, b, b.handleState, b.writeEvent, target, target.handleState, target.writeEvent
  {
    && s < |dev.gpu.streams| && b.memory.Some? && target.memory.Some? && target.memory.value in before.memory
    && var held := HeldForCopy(holds, b.memory.value, target.memory.value, Mark(dev.gpu.streams, s));
       var y := Copied(before.memory[target.memory.value], x, count);
       && Promised(dev, target, held, y) && count <= |x| && count <= |y| && y[..count] == x[..count]
       && Promised(dev, b, held + holds, x)
  }

  /** Once `mark` is complete, in every execution that respects what is held, `loc`
      starts with the first `count` bytes of `x`. */
  ghost predicate Delivers(g: Gpu, holds: set<Hold>, loc: nat, mark: Event, count: nat, x: Bytes) {
    count <= |x| && exists y :: Promise(g, holds, loc, Some(mark), y) && count <= |y| && y[..count] == x[..count]
  }

  /** After a copy from `b` to host memory on stream `s`, enqueued when the device
      was `before`. */
  ghost predicate FetchArrives(dev: Device, host: nat, b: CudaBuffer, holds: set<Hold>, s: nat, count: nat, x: Bytes)
    reads dev, b, b.handleState, b.writeEvent
  {
    && s < |dev.gpu.streams| && b.memory.Some?
    && var held := HeldForCopy(holds, b.memory.value, host, Mark(dev.gpu.streams, s));
       Delivers(dev.gpu, held, host, Mark(dev.gpu.streams, s), count, x) && Promised(dev, b, held + holds, x)
  }

  /** One entry was added, for `memory`, and it waits for `mark` among others. */
  ghost predicate QueuedBehind(before: seq<PendingWork>, after: seq<PendingWork>, memory: nat, mark: Event) {
    && |after| == |before| + 1 && after[..|before|] == before
    && after[|before|].memory == memory && Some(mark) in after[|before|].events
  }

  function Minimum(a: nat, b: nat): (r: nat)
    ensures r <= a && r <= b && r in {a, b}
  {
    if a <= b then a else b
  }

  /** The bytes of `n` elements, counted one by one. */
  function ByteSize(n: nat, itemSize: nat): nat {
    if n == 0 then 0 else ByteSize(n - 1, itemSize) + itemSize
  }

  lemma {:induction false} ByteSizeIsProduct(n: nat, itemSize: nat)
    ensures ByteSize(n, itemSize) == n * itemSize
  {
    if n > 0 {
      ByteSizeIsProduct(n - 1, itemSize);
    }
  }

  lemma {:induction false} SmallerFits(m: nat, n: nat, itemSize: nat)
    requires m <= n
    ensures ByteSize(m, itemSize) <= ByteSize(n, itemSize)
    decreases n
  {
    if m < n {
      SmallerFits(m, n - 1, itemSize);
    }
  }

  class CudaBufferImpl {
    const buffer: CudaBuffer
    var size: nat
    var stream: Option<nat>
    const itemSize: nat
    const internalStream: nat

    constructor (buffer: CudaBuffer, size: nat, itemSize: nat, internalStream: nat)
      ensures this.buffer == buffer && this.size == size && stream == None
      ensures this.itemSize == itemSize && this.internalStream == internalStream
    {
      this.buffer, this.size, stream := buffer, size, None;
      this.itemSize, this.internalStream := itemSize, internalStream;
    }

    function CopyStream(): (s: nat)
      reads this
    {
      if stream.Some? then stream.value else internalStream
    }

    /** Read handle, write handle on the destination, copy, and release of both, as
        `clone` and `resize` do it. */
    method CopyInto(dev: Device, target: CudaBuffer, count: nat)
      requires buffer.Valid() && buffer.memory.Some? && dev.Usable(Some(CopyStream()))
      requires target != buffer && target.Valid() && target.issued == 0 && target.readEvents == [] && target.memory.Some?
      requires target.writeEvent != null && target.writeEvent != buffer.writeEvent
      modifies dev`gpu, buffer`readEvents, buffer.handleState, buffer.writeEvent
      modifies target`readEvents, target`handleState, target`issued, target.writeEvent
      ensures buffer.Valid() && target.Valid() && target.issued == 1 && target.readEvents == []
      ensures target.handleState != null && fresh(target.handleState) && target.handleState.state == Finalized
      ensures var s := CopyStream();
              && dev.gpu == CopyEnqueued(old(dev.gpu), s, old(buffer.WouldAwait(dev)), buffer.memory.value, target.memory.value, count)
              // both events lie behind the copy
              && target.Awaited() == target.WouldAwait(dev) == Some(Mark(dev.gpu.streams, s))
              && buffer.WouldAwait(dev) == old(buffer.WouldAwait(dev))
              && buffer.readEvents == Unfinished(old(buffer.readEvents), old(dev.gpu.streams)) + [Mark(dev.gpu.streams, s)]
    {
      var s := CopyStream();
      ghost var before := dev.gpu;
      ghost var e := buffer.WouldAwait(dev);
      var reader := buffer.GetReadHandle(dev, Some(s));
      var granted := target.GetWriteHandle(dev, Some(s));
      var writer := granted.value;
      dev.Enqueue(s, Copy(reader.data.value, writer.data.value, count));
      assert dev.gpu == CopyEnqueued(before, s, e, reader.data.value, writer.data.value, count);
      writer.Release(dev);
      reader.Release(dev);
    }

    /** The same copy, with the promise of the source that passes to the target. */
    method CopyPromised(dev: Device, target: CudaBuffer, count: nat, ghost holds: set<Hold>, ghost x: Bytes)
      requires Promised(dev, buffer, holds, x) && dev.Usable(Some(CopyStream()))
      requires target != buffer && target.Valid() && target.issued == 0 && target.readEvents == [] && target.memory.Some?
      requires target.memory != buffer.memory && Vacant(dev.gpu, holds, target.memory.value, count) && count <= |x|
      requires target.writeEvent != null && target.writeEvent != buffer.writeEvent
      modifies dev`gpu, buffer`readEvents, buffer.handleState, buffer.writeEvent
      modifies target`readEvents, target`handleState, target`issued, target.writeEvent
      ensures target.memory == old(target.memory) && target.size == old(target.size)
      ensures target.recycler == old(target.recycler) && target.writeEvent == old(target.writeEvent)
      ensures target.issued == 1 && target.readEvents == []
      ensures target.handleState != null && fresh(target.handleState) && target.handleState.state == Finalized
      ensures dev.gpu == CopyEnqueued(old(dev.gpu), CopyStream(), old(buffer.WouldAwait(dev)), buffer.memory.value, target.memory.value, count)
      ensures target.Awaited() == Some(Mark(dev.gpu.streams, CopyStream()))
      ensures buffer.readEvents == Unfinished(old(buffer.readEvents), old(dev.gpu.streams)) + [Mark(dev.gpu.streams, CopyStream())]
      ensures CopyArrives(dev, target, buffer, old(dev.gpu), holds, CopyStream(), count, x)
    {
      ghost var before := dev.gpu;
      ghost var e := buffer.WouldAwait(dev);
      CopyInto(dev, target, count);
      CopyMovesPromise(before, holds, CopyStream(), e, buffer.memory.value, target.memory.value, count, x);
      CopiedBytes(before.memory[target.memory.value], x, count);
    }

    /** Every requirement of a copy of this buffer's elements to `newMemory`. */
    ghost predicate Ready(dev: Device, newMemory: nat, count: nat, holds: set<Hold>, x: Bytes)
      reads this, dev, buffer, buffer.handleState, buffer.writeEvent
    {
      && dev.Usable(Some(CopyStream()))
      && 0 < itemSize && buffer.size == ByteSize(size, itemSize)
      && (buffer.PendingEvents() != [] ==> buffer.memory.Some? && buffer.recycler != null)
      && (0 < size ==> Promised(dev, buffer, holds, x) && ByteSize(size, itemSize) <= |x|
                       && buffer.recycler != null && buffer.memory != Some(newMemory))
      && Vacant(dev.gpu, holds, newMemory, ByteSize(count, itemSize))
    }

    /** `clone`: its readers find the source's elements. */
    method Clone(dev: Device, newMemory: nat, newEvent: CudaEvent, recycler: BufferRecycler, ghost holds: set<Hold>, ghost x: Bytes)
      returns (copy: CudaBufferImpl)
      requires Ready(dev, newMemory, size, holds, x)
      requires newEvent.records == 0 && newEvent != buffer.writeEvent
      modifies dev`gpu, buffer`readEvents, buffer.handleState, buffer.writeEvent, newEvent
      ensures fresh(copy) && fresh(copy.buffer) && copy.size == size && copy.itemSize == itemSize
      ensures copy.stream == None && copy.internalStream == internalStream
      ensures size == 0 ==> copy.buffer.memory == None && dev.gpu == old(dev.gpu)
      ensures size > 0 ==>
                && copy.buffer.memory == Some(newMemory) && copy.buffer.size == ByteSize(size, itemSize) && copy.buffer.recycler == recycler
                && copy.buffer.handleState != null && fresh(copy.buffer.handleState) && copy.buffer.writeEvent == newEvent
                && dev.gpu == CopyEnqueued(old(dev.gpu), CopyStream(), old(buffer.WouldAwait(dev)), buffer.memory.value, newMemory, ByteSize(size, itemSize))
                && CopyArrives(dev, copy.buffer, buffer, old(dev.gpu), holds, CopyStream(), ByteSize(size, itemSize), x)
    {
      if size == 0 {
        var empty := new CudaBuffer.Empty();
        copy := new CudaBufferImpl(empty, size, itemSize, internalStream);
      } else {
        copy := CloneElements(dev, newMemory, newEvent, recycler, holds, x);
      }
    }

    method CloneElements(dev: Device, newMemory: nat, newEvent: CudaEvent, recycler: BufferRecycler, ghost holds: set<Hold>, ghost x: Bytes)
      returns (copy: CudaBufferImpl)
      requires dev.Usable(Some(CopyStream())) && Promised(dev, buffer, holds, x) && ByteSize(size, itemSize) <= |x|
      requires buffer.memory != Some(newMemory) && Vacant(dev.gpu, holds, newMemory, ByteSize(size, itemSize))
      requires newEvent.records == 0 && newEvent != buffer.writeEvent
      modifies dev`gpu, buffer`readEvents, buffer.handleState, buffer.writeEvent, newEvent
      ensures fresh(copy) && fresh(copy.buffer) && copy.size == size && copy.itemSize == itemSize
      ensures copy.stream == None && copy.internalStream == internalStream
      ensures copy.buffer.memory == Some(newMemory) && copy.buffer.size == ByteSize(size, itemSize) && copy.buffer.recycler == recycler
      ensures copy.buffer.handleState != null && fresh(copy.buffer.handleState) && copy.buffer.writeEvent == newEvent
      ensures dev.gpu == CopyEnqueued(old(dev.gpu), CopyStream(), old(buffer.WouldAwait(dev)), buffer.memory.value, newMemory, ByteSize(size, itemSize))
      ensures CopyArrives(dev, copy.buffer, buffer, old(dev.gpu), holds, CopyStream(), ByteSize(size, itemSize), x)
    {
      var target := new CudaBuffer(newMemory, ByteSize(size, itemSize), newEvent, recycler);
      copy := new CudaBufferImpl(target, size, itemSize, internalStream);
      CopyPromised(dev, target, ByteSize(size, itemSize), holds, x);
    }

    /** `to_cpu`, up to the synchronisation of the stream that its caller waits for:
        once that is over, `host`, the storage of the result, holds the elements. */
    method ToCpu(dev: Device, host: nat, ghost holds: set<Hold>, ghost x: Bytes)
      requires Ready(dev, host, size, holds, x)
      modifies dev`gpu, buffer`readEvents, buffer.handleState, buffer.writeEvent
      ensures size == 0 ==> dev.gpu == old(dev.gpu)
      ensures size > 0 ==>
                && dev.gpu == CopyEnqueued(old(dev.gpu), if stream.Some? then stream.value else internalStream, old(buffer.WouldAwait(dev)), buffer.memory.value, host, ByteSize(size, itemSize))
                && buffer.readEvents == Unfinished(old(buffer.readEvents), old(dev.gpu.streams)) + [Mark(dev.gpu.streams, CopyStream())]
                && FetchArrives(dev, host, buffer, holds, CopyStream(), ByteSize(size, itemSize), x)
    {
      if size > 0 && buffer.size > 0 {
        ghost var before := dev.gpu;
        ghost var e := buffer.WouldAwait(dev);
        Fetch(dev, host);
        CopyMovesPromise(before, holds, CopyStream(), e, buffer.memory.value, host, ByteSize(size, itemSize), x);
        CopyDelivers(dev.gpu, HeldForCopy(holds, buffer.memory.value, host, Mark(dev.gpu.streams, CopyStream())), host,
                     Mark(dev.gpu.streams, CopyStream()), ByteSize(size, itemSize), before.memory[host], x);
      }
    }

    /** The read handle and the copy of `to_cpu`. */
    method Fetch(dev: Device, host: nat)
      requires buffer.Valid() && buffer.memory.Some? && dev.Usable(Some(CopyStream()))
      modifies dev`gpu, buffer`readEvents, buffer.handleState, buffer.writeEvent
      ensures buffer.Valid() && buffer.WouldAwait(dev) == old(buffer.WouldAwait(dev))
      ensures dev.gpu == CopyEnqueued(old(dev.gpu), CopyStream(), old(buffer.WouldAwait(dev)), buffer.memory.value, host, ByteSize(size, itemSize))
      ensures buffer.readEvents == Unfinished(old(buffer.readEvents), old(dev.gpu.streams)) + [Mark(dev.gpu.streams, CopyStream())]
    {
      var s := CopyStream();
      ghost var before := dev.gpu;
      ghost var e := buffer.WouldAwait(dev);
      var reader := buffer.GetReadHandle(dev, Some(s));
      dev.Enqueue(s, Copy(reader.data.value, host, ByteSize(size, itemSize)));
      assert dev.gpu == CopyEnqueued(before, s, e, reader.data.value, host, ByteSize(size, itemSize));
      reader.Release(dev);
    }

    /** `clear`. */
    method Clear() returns (freedNow: Option<nat>)
      requires buffer.PendingEvents() != [] ==> buffer.memory.Some? && buffer.recycler != null
      modifies this`size, buffer, buffer.recycler
      ensures size == 0 && buffer.memory == None && buffer.size == 0 && buffer.handleState == null
      ensures freedNow.Some? ==> !old(buffer.ownsWriteEvent && buffer.writeEvent != null) && old(buffer.readEvents) == []
      ensures !old(buffer.ownsWriteEvent && buffer.writeEvent != null) && old(buffer.readEvents) == [] ==> freedNow == old(buffer.memory)
      ensures old(buffer.ownsWriteEvent && buffer.writeEvent != null) || old(buffer.readEvents) != [] ==>
                var before, after := old(buffer.recycler.queue), old(buffer.recycler).queue;
                && |after| == |before| + 1 && after[..|before|] == before && after[|before|].memory == old(buffer.memory).value
                && (old(buffer.ownsWriteEvent && buffer.writeEvent != null) ==> old(buffer.writeEvent.mark) in after[|before|].events)
                && (forall e | e in old(buffer.readEvents) :: Some(e) in after[|before|].events)
    {
      var temporary := new CudaBuffer.Empty();
      buffer.MoveAssign(temporary);
      size := 0;
      freedNow := temporary.Destroy();
    }

    /** Moves `target` into this buffer's place; the previous content of the place
        is destroyed with the moved-from object. */
    method Adopt(target: CudaBuffer, n: nat)
      requires target != buffer && (buffer.PendingEvents() != [] ==> buffer.memory.Some? && buffer.recycler != null)
      modifies this`size, buffer, target, buffer.recycler
      ensures size == n && buffer.memory == old(target.memory) && buffer.size == old(target.size)
      ensures buffer.writeEvent == old(target.writeEvent) && buffer.handleState == old(target.handleState)
      ensures buffer.Awaited() == old(target.Awaited()) && (old(target.Valid()) ==> buffer.Valid())
      ensures old(buffer.PendingEvents()) != [] ==>
                && old(buffer.recycler).freed == old(buffer.recycler.freed)
                && old(buffer.recycler).queue == old(buffer.recycler.queue) + [PendingWork(old(buffer.PendingEvents()), old(buffer.memory).value)]
    {
      buffer.MoveAssign(target);
      size := n;
      var freedNow := target.Destroy();
    }

    /** The copy of `resize` and the move that follows it. */
    method AdoptCopy(dev: Device, target: CudaBuffer, n: nat, count: nat, ghost holds: set<Hold>, ghost x: Bytes)
      requires Promised(dev, buffer, holds, x) && dev.Usable(Some(CopyStream())) && buffer.recycler != null
      requires target != buffer && target.Valid() && target.issued == 0 && target.readEvents == [] && target.memory.Some?
      requires target.memory != buffer.memory && Vacant(dev.gpu, holds, target.memory.value, count) && count <= |x|
      requires target.writeEvent != null && target.writeEvent != buffer.writeEvent
      modifies this`size, dev`gpu, buffer, buffer.handleState, buffer.writeEvent, buffer.recycler, target, target.writeEvent
      ensures size == n && buffer.memory == old(target.memory) && buffer.size == old(target.size)
      ensures dev.gpu == CopyEnqueued(old(dev.gpu), CopyStream(), old(buffer.WouldAwait(dev)), old(buffer.memory.value), old(target.memory.value), count)
      ensures ResizedHolds(dev, buffer, old(buffer.memory.value), old(dev.gpu), holds, CopyStream(), count, x)
      ensures old(buffer.recycler).freed == old(buffer.recycler.freed)
      ensures QueuedBehind(old(buffer.recycler.queue), old(buffer.recycler).queue, old(buffer.memory.value), Mark(dev.gpu.streams, CopyStream()))
    {
      CopyPromised(dev, target, count, holds, x);
      LastIsPending(buffer);
      Adopt(target, n);
    }

    /** `resize`: readers of the new memory find the first elements of the old one,
        which waits in the recycler behind the copy's read event. */
    method Resize(dev: Device, n: nat, newMemory: nat, newEvent: CudaEvent, recycler: BufferRecycler, ghost holds: set<Hold>, ghost x: Bytes)
      requires n != 0 && Ready(dev, newMemory, n, holds, x)
      requires newEvent.records == 0 && newEvent != buffer.writeEvent
      modifies this`size, dev`gpu, buffer, buffer.handleState, buffer.writeEvent, buffer.recycler, newEvent
      ensures size == n
      ensures n == old(size) ==> dev.gpu == old(dev.gpu) && unchanged(buffer)
      ensures n != old(size) ==> buffer.memory == Some(newMemory) && buffer.size == ByteSize(n, itemSize)
      ensures n != old(size) && old(size) == 0 ==> dev.gpu == old(dev.gpu)
      ensures n != old(size) && old(size) > 0 ==>
                && dev.gpu == CopyEnqueued(old(dev.gpu), if stream.Some? then stream.value else internalStream, old(buffer.WouldAwait(dev)), old(buffer.memory.value), newMemory, ByteSize(Minimum(n, old(size)), itemSize))
                && ResizedHolds(dev, buffer, old(buffer.memory.value), old(dev.gpu), holds, CopyStream(), ByteSize(Minimum(n, old(size)), itemSize), x)
                && old(buffer.recycler).freed == old(buffer.recycler.freed)
                && QueuedBehind(old(buffer.recycler.queue), old(buffer.recycler).queue, old(buffer.memory.value), Mark(dev.gpu.streams, CopyStream()))
    {
      if n == size {
        return;
      }
      if size > 0 && buffer.size > 0 {
        SmallerFits(Minimum(n, size), n, itemSize);
        SmallerFits(Minimum(n, size), size, itemSize);
        ResizeElements(dev, n, ByteSize(n, itemSize), ByteSize(Minimum(n, size), itemSize), newMemory, newEvent, recycler, holds, x);
      } else {
        ResizeEmpty(n, ByteSize(n, itemSize), newMemory, newEvent, recycler);
      }
    }

    method ResizeEmpty(n: nat, byteSize: nat, newMemory: nat, newEvent: CudaEvent, recycler: BufferRecycler)
      requires buffer.PendingEvents() != [] ==> buffer.memory.Some? && buffer.recycler != null
      modifies this`size, buffer, buffer.recycler
      ensures size == n && buffer.memory == Some(newMemory) && buffer.size == byteSize
    {
      var target := new CudaBuffer(newMemory, byteSize, newEvent, recycler);
      Adopt(target, n);
    }

    method ResizeElements(dev: Device, n: nat, byteSize: nat, count: nat, newMemory: nat, newEvent: CudaEvent, recycler: BufferRecycler,
                          ghost holds: set<Hold>, ghost x: Bytes)
      requires Promised(dev, buffer, holds, x) && dev.Usable(Some(CopyStream())) && buffer.recycler != null
      requires buffer.memory != Some(newMemory) && Vacant(dev.gpu, holds, newMemory, byteSize) && count <= byteSize && count <= |x|
      requires newEvent.records == 0 && newEvent != buffer.writeEvent
      modifies this`size, dev`gpu, buffer, buffer.handleState, buffer.writeEvent, buffer.recycler, newEvent
      ensures size == n && buffer.memory == Some(newMemory) && buffer.size == byteSize
      ensures dev.gpu == CopyEnqueued(old(dev.gpu), CopyStream(), old(buffer.WouldAwait(dev)), old(buffer.memory.value), newMemory, count)
      ensures ResizedHolds(dev, buffer, old(buffer.memory.value), old(dev.gpu), holds, CopyStream(), count, x)
      ensures old(buffer.recycler).freed == old(buffer.recycler.freed)
      ensures QueuedBehind(old(buffer.recycler.queue), old(buffer.recycler).queue, old(buffer.memory.value), Mark(dev.gpu.streams, CopyStream()))
    {
      var target := new CudaBuffer(newMemory, byteSize, newEvent, recycler);
      AdoptCopy(dev, target, n, count, holds, x);
    }
  }

  /** Readers of the resized buffer find the first `count` bytes of `x`. */
  ghost predicate ResizedHolds(dev: Device, b: CudaBuffer, src: nat, before: Gpu, holds: set<Hold>, s: nat, count: nat, x: Bytes)
    reads dev, b, b.handleState, b.writeEvent
  {
    && s < |dev.gpu.streams| && b.memory.Some? && b.memory.value in before.memory
    && b.Awaited() == Some(Mark(dev.gpu.streams, s))
    && var y := Copied(before.memory[b.memory.value], x, count);
       && Promised(dev, b, HeldForCopy(holds, src, b.memory.value, Mark(dev.gpu.streams, s)), y)
       && count <= |x| && count <= |y| && y[..count] == x[..count]
  }

  lemma CopyMovesPromise(g: Gpu, holds: set<Hold>, s: nat, e: Option<Event>, src: nat, dst: nat, count: nat, x: Bytes)
    requires s < |g.streams| && src in g.memory && WaitsHonoured(g.streams) && Vacant(g, holds, dst, 0)
    requires Promise(g, holds, src, e, x)
    ensures var g' := CopyEnqueued(g, s, e, src, dst, count);
            var held := HeldForCopy(holds, src, dst, Mark(g'.streams, s));
            && WaitsHonoured(g'.streams)
            && Promise(g', held, dst, Some(Mark(g'.streams, s)), Copied(g.memory[dst], x, count))
            && Promise(g', held + holds, src, e, x)
  {
    CopyIsAhead(g, s, e, src, dst, count);
    CopyPromises(g, holds, s, e, src, dst, count, x);
    var g' := CopyEnqueued(g, s, e, src, dst, count);
    PromiseOutlivesCopy(g, holds, HeldForCopy(holds, src, dst, Mark(g'.streams, s)) + holds, s, e, src, dst, count, src, e, x);
  }

  lemma LastIsPending(b: CudaBuffer)
    requires b.readEvents != []
    ensures Some(b.readEvents[|b.readEvents| - 1]) in b.PendingEvents()
  {
    assert AsPending(b.readEvents)[|b.readEvents| - 1] == Some(b.readEvents[|b.readEvents| - 1]);
  }

  /** Memory that the recycler frees no longer has a copy to run: the copy's read
      event is among those it synchronised with. */
  lemma FreedAfterCopy(streams: seq<Stream<Op>>, events: seq<Option<Event>>, s: nat, pos: nat)
    requires Synchronised(streams, events) && Some(Event(s, pos)) in events && 0 < pos
    ensures s < |streams| && pos - 1 < streams[s].done
  {
  }

  /** Copies of copies: fetching a clone at once, with both copies still queued,
      gives the host the elements of the original. */
  method CloneThenFetch(dev: Device, impl: CudaBufferImpl, newMemory: nat, newEvent: CudaEvent, recycler: BufferRecycler, host: nat,
                        ghost holds: set<Hold>, ghost x: Bytes)
    returns (copy: CudaBufferImpl, ghost finalHolds: set<Hold>)
    requires impl.size > 0 && impl.Ready(dev, newMemory, impl.size, holds, x) && dev.Usable(Some(impl.internalStream))
    requires newEvent.records == 0 && newEvent != impl.buffer.writeEvent
    requires host != newMemory && impl.buffer.memory != Some(host) && Vacant(dev.gpu, holds, host, ByteSize(impl.size, impl.itemSize))
    modifies dev`gpu, impl.buffer`readEvents, impl.buffer.handleState, impl.buffer.writeEvent, newEvent
    ensures impl.internalStream < |dev.gpu.streams|
    ensures Delivers(dev.gpu, finalHolds, host, Mark(dev.gpu.streams, impl.internalStream), ByteSize(impl.size, impl.itemSize), x)
  {
    ghost var before := dev.gpu;
    ghost var s, n := impl.CopyStream(), ByteSize(impl.size, impl.itemSize);
    ghost var e, src := impl.buffer.WouldAwait(dev), impl.buffer.memory.value;
    copy := impl.Clone(dev, newMemory, newEvent, recycler, holds, x);
    ghost var held, z := HeldForCopy(holds, src, newMemory, Mark(dev.gpu.streams, s)), Copied(before.memory[newMemory], x, n);
    OthersStayVacant(before, holds, s, e, src, newMemory, n, host, n);
    finalHolds := FetchAll(dev, copy, host, held, z, n, x);
  }

  method FetchAll(dev: Device, impl: CudaBufferImpl, host: nat, ghost holds: set<Hold>, ghost z: Bytes, ghost n: nat, ghost x: Bytes)
    returns (ghost finalHolds: set<Hold>)
    requires impl.size > 0 && impl.Ready(dev, host, impl.size, holds, z) && n == ByteSize(impl.size, impl.itemSize)
    requires n <= |x| && n <= |z| && z[..n] == x[..n]
    modifies dev`gpu, impl.buffer`readEvents, impl.buffer.handleState, impl.buffer.writeEvent
    ensures impl.CopyStream() < |dev.gpu.streams|
    ensures Delivers(dev.gpu, finalHolds, host, Mark(dev.gpu.streams, impl.CopyStream()), n, x)
  {
    impl.ToCpu(dev, host, holds, z);
    finalHolds := HeldForCopy(holds, impl.buffer.memory.value, host, Mark(dev.gpu.streams, impl.CopyStream()));
    SamePrefixDelivers(dev.gpu, finalHolds, host, Mark(dev.gpu.streams, impl.CopyStream()), n, z, x);
  }

  lemma SamePrefixDelivers(g: Gpu, holds: set<Hold>, loc: nat, mark: Event, count: nat, z: Bytes, x: Bytes)
    requires Delivers(g, holds, loc, mark, count, z) && count <= |x| && z[..count] == x[..count]
    ensures Delivers(g, holds, loc, mark, count, x)
  {
    var y :| Promise(g, holds, loc, Some(mark), y) && count <= |y| && y[..count] == z[..count];
    assert y[..count] == x[..count];
  }

  lemma CopyDelivers(g: Gpu, holds: set<Hold>, loc: nat, mark: Event, count: nat, content: Bytes, x: Bytes)
    requires Promise(g, holds, loc, Some(mark), Copied(content, x, count)) && count <= |content| && count <= |x|
    ensures Delivers(g, holds, loc, mark, count, x)
  {
    CopiedBytes(content, x, count);
    var y := Copied(content, x, count);
    assert Promise(g, holds, loc, Some(mark), y) && count <= |y| && y[..count] == x[..count];
  }

  lemma OthersStayVacant(g: Gpu, holds: set<Hold>, s: nat, e: Option<Event>, src: nat, dst: nat, count: nat, loc: nat, room: nat)
    requires s < |g.streams| && Vacant(g, holds, loc, room) && loc != dst && loc != src
    ensures var g' := CopyEnqueued(g, s, e, src, dst, count); Vacant(g', HeldForCopy(holds, src, dst, Mark(g'.streams, s)), loc, room)
  {
    var g' := CopyEnqueued(g, s, e, src, dst, count);
    forall k: nat, q: nat | Ahead(g'.streams, k, q) ensures !WritesTo(g'.streams[k].ops[q], loc) {
      if k != s || q < |g.streams[s].ops| {
        assert Ahead(g.streams, k, q);
      }
    }
  }
}
