/**
  GPU buffers with scoped read and write handles, and the recycler that frees
  their memory once recorded events have completed.

  A null or unusable stream records no event and is not waited on, as in the
  source; `Device.usable` is the set of streams that still answer a query.
 */
module CudaBuffers {
  import opened Outcomes
  import opened Queues
  import opened GpuCopies

  class Device {
    var gpu: Gpu
    var usable: set<nat>

    constructor (gpu: Gpu, usable: set<nat>)
      ensures this.gpu == gpu && this.usable == usable
    {
      this.gpu, this.usable := gpu, usable;
    }

    /** `cuda_is_stream_usable`. */
    predicate Usable(stream: Option<nat>): (u: bool)
      reads this
      ensures u ==> stream.Some? && stream.value < |gpu.streams|
      ensures forall k: nat | k in usable && k < |gpu.streams| && stream == Some(k) :: u
      ensures forall k: nat | k !in usable && stream == Some(k) :: !u
    {
      stream.Some? && stream.value in usable && stream.value < |gpu.streams|
    }

    method Enqueue(k: nat, op: Op)
      requires k < |gpu.streams|
      modifies this`gpu
      ensures gpu == old(gpu).(streams := Append(old(gpu).streams, k, op))
    {
      gpu := gpu.(streams := Append(gpu.streams, k, op));
    }
  }

  /** An event object; `mark` is where it was last recorded, if ever. */
  class CudaEvent {
    var mark: Option<Event>
    ghost var records: nat

    constructor ()
      ensures mark == None && records == 0
    {
      mark, records := None, 0;
    }

    method Record(dev: Device, k: nat)
      requires k < |dev.gpu.streams|
      modifies this
      ensures mark == Some(Mark(dev.gpu.streams, k)) && records == old(records) + 1
    {
      mark := Some(Mark(dev.gpu.streams, k));
      records := records + 1;
    }
  }

  datatype WriteState = Unset | InUse | Finalized

  class HandleState {
    var state: WriteState
    var writeStream: Option<nat>

    constructor ()
      ensures state == Unset && writeStream == None
    {
      state, writeStream := Unset, None;
    }
  }

  datatype HandleFault = AlreadyInUse | AlreadyFinalized | ReadEventsExist

  /** The events that are not complete yet, in their order. */
  function Unfinished(events: seq<Event>, streams: seq<Stream<Op>>): seq<Event> {
    if events == [] then []
    else if Complete(streams, events[0]) then Unfinished(events[1..], streams)
    else [events[0]] + Unfinished(events[1..], streams)
  }

  lemma {:induction false} UnfinishedIff(events: seq<Event>, streams: seq<Stream<Op>>)
    ensures forall e :: e in Unfinished(events, streams) <==> e in events && !Complete(streams, e)
    ensures Unfinished(events, streams) == [] <==> forall e | e in events :: Complete(streams, e)
  {
    if events != [] {
      UnfinishedIff(events[1..], streams);
      assert events == [events[0]] + events[1..];
    }
  }

  /** Dropping one completed event does not change what is unfinished. */
  lemma {:induction false} EraseCompleted(events: seq<Event>, streams: seq<Stream<Op>>, i: nat)
    requires i < |events| && Complete(streams, events[i])
    ensures Unfinished(events[..i] + events[i + 1..], streams) == Unfinished(events, streams)
  {
    var erased := events[..i] + events[i + 1..];
    if i == 0 {
      assert erased == events[1..];
    } else {
      EraseCompleted(events[1..], streams, i - 1);
      assert erased[0] == events[0] && erased[1..] == events[1..][..i - 1] + events[1..][i..];
    }
  }

  lemma {:induction false} NothingToErase(events: seq<Event>, streams: seq<Stream<Op>>)
    requires forall i | 0 <= i < |events| :: !Complete(streams, events[i])
    ensures Unfinished(events, streams) == events
  {
    if events != [] {
      NothingToErase(events[1..], streams);
    }
  }

  /** Memory handed to the recycler; `None` stands for an event never recorded,
      which synchronises at once. */
  datatype PendingWork = PendingWork(events: seq<Option<Event>>, memory: nat)

  function AsPending(events: seq<Event>): seq<Option<Event>> {
    seq(|events|, i requires 0 <= i < |events| => Some(events[i]))
  }

  lemma AsPendingHasAll(events: seq<Event>)
    ensures forall e | e in events :: Some(e) in AsPending(events)
    ensures forall o | o in AsPending(events) :: exists e :: e in events && o == Some(e)
  {
    var pending := AsPending(events);
    forall e | e in events ensures Some(e) in pending {
      var i :| 0 <= i < |events| && events[i] == e;
      assert pending[i] == Some(e);
    }
  }

  predicate Synchronised(streams: seq<Stream<Op>>, events: seq<Option<Event>>) {
    forall i | 0 <= i < |events| :: events[i].Some? ==> Complete(streams, events[i].value)
  }

  class BufferRecycler {
    var queue: seq<PendingWork>
    var freed: seq<nat>

    constructor ()
      ensures queue == [] && freed == []
    {
      queue, freed := [], [];
    }

    method Enqueue(events: seq<Option<Event>>, memory: nat)
      modifies this`queue
      ensures queue == old(queue) + [PendingWork(events, memory)]
      ensures Accepted() == old(Accepted()) + [memory]
    {
      queue := queue + [PendingWork(events, memory)];
    }

    /** Memory freed so far followed by memory waiting: what was ever enqueued. */
    function Accepted(): seq<nat>
      reads this
    {
      freed + seq(|queue|, i requires 0 <= i < |queue| reads this => queue[i].memory)
    }

    /** One turn of the worker: nothing happens while it is blocked on an event of
        the front entry, and memory is freed in the order it came, once each. */
    method RunOnce(dev: Device) returns (released: Option<nat>)
      modifies this
      ensures released.Some? <==> old(queue) != [] && Synchronised(dev.gpu.streams, old(queue)[0].events)
      ensures released.Some? ==> released.value == old(queue)[0].memory && queue == old(queue)[1..] && freed == old(freed) + [released.value]
      ensures released.None? ==> queue == old(queue) && freed == old(freed)
      // free exactly when nothing the entry waits for is still to come
      ensures released.Some? ==> forall e | Some(e) in old(queue)[0].events :: Complete(dev.gpu.streams, e)
      ensures released.None? && queue != [] ==> exists e :: Some(e) in queue[0].events && !Complete(dev.gpu.streams, e)
      ensures Accepted() == old(Accepted())
    {
      if queue == [] {
        return None;
      }
      var work := queue[0];
      for i := 0 to |work.events|
        invariant queue == old(queue) && freed == old(freed)
        invariant Synchronised(dev.gpu.streams, work.events[..i])
      {
        if work.events[i].Some? && !Complete(dev.gpu.streams, work.events[i].value) {
          assert Some(work.events[i].value) in queue[0].events;
          return None;
        }
      }
      assert work.events[..|work.events|] == work.events;
      queue := queue[1..];
      freed := freed + [work.memory];
      released := Some(work.memory);
    }
  }

  class CudaBuffer {
    var memory: Option<nat>
    var size: nat
    var writeEvent: CudaEvent?
    var ownsWriteEvent: bool
    var readEvents: seq<Event>
    var handleState: HandleState?
    var recycler: BufferRecycler?
    ghost var issued: nat

    constructor Empty()
      ensures memory == None && size == 0 && writeEvent == null && !ownsWriteEvent
      ensures readEvents == [] && handleState == null && recycler == null && issued == 0
    {
      memory, size, writeEvent, ownsWriteEvent, readEvents, handleState, recycler, issued := None, 0, null, false, [], null, null, 0;
    }

    constructor (memory: nat, size: nat, writeEvent: CudaEvent?, recycler: BufferRecycler)
      ensures this.memory == Some(memory) && this.size == size && this.writeEvent == writeEvent
      ensures ownsWriteEvent == (writeEvent != null) && readEvents == [] && handleState == null
      ensures this.recycler == recycler && issued == 0
    {
      this.memory, this.size, this.writeEvent, ownsWriteEvent := Some(memory), size, writeEvent, writeEvent != null;
      readEvents, handleState, this.recycler, issued := [], null, recycler, 0;
    }

    /** At most one write handle was issued, and the write event was recorded at
        most once through this object, when that handle was finalised. */
    ghost predicate Valid()
      reads this, handleState, writeEvent
    {
      && issued <= 1 && (issued == 0 <==> handleState == null)
      && (handleState == null && writeEvent != null ==> writeEvent.records == 0)
      && (handleState != null ==>
            && handleState.state != Unset
            && (handleState.state == InUse && writeEvent != null ==> writeEvent.records == 0)
            && (handleState.state == Finalized && writeEvent != null ==> writeEvent.records <= 1))
    }

    /** `set_write_event`, as an importer does it with an event opened here. */
    method SetWriteEvent(event: CudaEvent, owns: bool)
      requires Valid() && handleState == null && event.records == 0
      modifies this`writeEvent, this`ownsWriteEvent
      ensures Valid() && writeEvent == event && ownsWriteEvent == owns && Awaited() == event.mark
    {
      writeEvent, ownsWriteEvent := event, owns;
    }

    /** `reap_completed_read_events`. */
    method Reap(dev: Device)
      modifies this`readEvents
      ensures readEvents == Unfinished(old(readEvents), dev.gpu.streams)
    {
      var i := 0;
      while i < |readEvents|
        invariant i <= |readEvents|
        invariant forall j | 0 <= j < i :: !Complete(dev.gpu.streams, readEvents[j])
        invariant Unfinished(readEvents, dev.gpu.streams) == Unfinished(old(readEvents), dev.gpu.streams)
        decreases |readEvents| - i
      {
        if Complete(dev.gpu.streams, readEvents[i]) {
          EraseCompleted(readEvents, dev.gpu.streams, i);
          readEvents := readEvents[..i] + readEvents[i + 1..];
        } else {
          i := i + 1;
        }
      }
      NothingToErase(readEvents, dev.gpu.streams);
    }

    /** `finalize_write_handle_locked`: only a handle in use is finalised, and the
        write event then marks everything queued on the write stream so far. */
    method FinalizeLocked(dev: Device)
      requires Valid() && handleState != null
      modifies handleState, writeEvent
      ensures Valid()
      ensures old(handleState.state) != InUse ==> unchanged(handleState) && (writeEvent != null ==> unchanged(writeEvent))
      ensures old(handleState.state) == InUse ==>
                && handleState.state == Finalized && handleState.writeStream == None
                && (writeEvent != null ==>
                      if old(dev.Usable(handleState.writeStream))
                      then writeEvent.mark == Some(Mark(dev.gpu.streams, old(handleState.writeStream).value)) && writeEvent.records == 1
                      else unchanged(writeEvent))
    {
      if handleState.state != InUse {
        return;
      }
      if dev.Usable(handleState.writeStream) && writeEvent != null {
        writeEvent.Record(dev, handleState.writeStream.value);
      }
      handleState.state := Finalized;
      handleState.writeStream := None;
    }

    /** `finalize_write_handle`. */
    method FinalizeWriteHandle(dev: Device)
      requires Valid()
      modifies handleState, writeEvent
      ensures Valid() && (handleState != null ==> handleState.state == Finalized)
      ensures Awaited() == old(WouldAwait(dev))
      ensures handleState == null || old(handleState.state) == Finalized ==>
                (handleState != null ==> unchanged(handleState)) && (writeEvent != null ==> unchanged(writeEvent))
    {
      if handleState == null {
        return;
      }
      FinalizeLocked(dev);
    }

    /** The event a reader opened now would wait for. */
    function Awaited(): Option<Event>
      reads this, writeEvent
    {
      if writeEvent == null then None else writeEvent.mark
    }

    /** `get_read_handle`: a write in progress is finalised first, and a non-null
        stream is made to wait for the recorded write event before anything else
        is enqueued on it. */
    method GetReadHandle(dev: Device, stream: Option<nat>) returns (handle: ReadHandle)
      requires Valid() && (stream.Some? ==> stream.value < |dev.gpu.streams|)
      modifies this`readEvents, dev`gpu, handleState, writeEvent
      ensures Valid() && fresh(handle)
      ensures handle.data == memory && handle.owner == this && handle.stream == stream
      ensures readEvents == Unfinished(old(readEvents), old(dev.gpu.streams))
      ensures handleState != null ==> handleState.state == (if old(handleState.state) == InUse then Finalized else old(handleState.state))
      ensures writeEvent != null ==>
                if handleState != null && old(handleState.state) == InUse && old(dev.Usable(handleState.writeStream))
                then writeEvent.mark == Some(Mark(old(dev.gpu.streams), old(handleState.writeStream).value)) && writeEvent.records == 1
                else unchanged(writeEvent)
      ensures dev.gpu == old(dev.gpu).(streams :=
                if stream.Some? && Awaited().Some?
                then Append(old(dev.gpu.streams), stream.value, Wait(Awaited().value))
                else old(dev.gpu.streams))
    {
      Reap(dev);
      if handleState != null && handleState.state == InUse {
        FinalizeLocked(dev);
      }
      handle := new ReadHandle(memory, this, stream);
      if writeEvent != null && stream.Some? && writeEvent.mark.Some? {
        dev.Enqueue(stream.value, Wait(writeEvent.mark.value));
      }
    }

    /** `get_write_handle`: granted exactly once, and only while no recorded read
        is unfinished; an open read handle does not stand in the way. */
    method GetWriteHandle(dev: Device, stream: Option<nat>) returns (r: Result<WriteHandle, HandleFault>)
      requires Valid()
      modifies this`readEvents, this`handleState, this`issued, handleState
      ensures Valid() && readEvents == Unfinished(old(readEvents), dev.gpu.streams)
      ensures r.Ok? <==> old(issued) == 0 && readEvents == []
      ensures readEvents == [] <==> forall e | e in old(readEvents) :: Complete(dev.gpu.streams, e)
      ensures r.Ok? ==>
                && issued == 1 && handleState != null && fresh(handleState)
                && handleState.state == InUse && handleState.writeStream == stream
                && fresh(r.value) && r.value.data == memory && r.value.owner == this && r.value.stream == stream && r.value.state == handleState
      ensures r.Err? ==> handleState == old(handleState) && issued == old(issued) && (handleState != null ==> unchanged(handleState))
      ensures r == Err(AlreadyInUse) <==> old(handleState != null && handleState.state == InUse)
      ensures r == Err(AlreadyFinalized) <==> old(handleState != null && handleState.state == Finalized)
    {
      UnfinishedIff(readEvents, dev.gpu.streams);
      Reap(dev);
      if handleState != null {
        if handleState.state == InUse {
          return Err(AlreadyInUse);
        }
        if handleState.state == Finalized {
          return Err(AlreadyFinalized);
        }
      }
      if readEvents != [] {
        return Err(ReadEventsExist);
      }
      if handleState == null {
        handleState := new HandleState();
      }
      handleState.state := InUse;
      handleState.writeStream := stream;
      issued := issued + 1;
      var handle := new WriteHandle(memory, this, stream, handleState);
      return Ok(handle);
    }

    /** The event a reader would wait for if it opened a handle now. */
    function WouldAwait(dev: Device): Option<Event>
      reads this, writeEvent, handleState, dev
    {
      if writeEvent != null && handleState != null && handleState.state == InUse && dev.Usable(handleState.writeStream)
      then Some(Mark(dev.gpu.streams, handleState.writeStream.value))
      else Awaited()
    }

    /** What the recycler has to synchronise with before freeing the memory. */
    function PendingEvents(): (pending: seq<Option<Event>>)
      reads this, writeEvent
      ensures ownsWriteEvent && writeEvent != null ==> writeEvent.mark in pending
      ensures forall e | e in readEvents :: Some(e) in pending
      ensures forall o | o in pending :: (ownsWriteEvent && writeEvent != null && o == writeEvent.mark) || exists e :: e in readEvents && o == Some(e)
      ensures pending == [] <==> !(ownsWriteEvent && writeEvent != null) && readEvents == []
    {
      AsPendingHasAll(readEvents);
      (if ownsWriteEvent && writeEvent != null then [writeEvent.mark] else []) + AsPending(readEvents)
    }

    /** The destructor: the owned write event and the recorded reads go to the
        recycler together with the memory; without any, the memory is freed at
        once and returned here. */
    method Destroy() returns (freedNow: Option<nat>)
      requires (ownsWriteEvent && writeEvent != null) || readEvents != [] ==> memory.Some? && recycler != null
      modifies this, recycler
      ensures freedNow.Some? ==> !old(ownsWriteEvent && writeEvent != null) && old(readEvents) == []
      ensures !old(ownsWriteEvent && writeEvent != null) && old(readEvents) == [] ==> freedNow == old(memory)
      ensures old(ownsWriteEvent && writeEvent != null) || old(readEvents) != [] ==>
                var before, after := old(recycler.queue), old(recycler).queue;
                && |after| == |before| + 1 && after[..|before|] == before && after[|before|].memory == old(memory).value
                && (old(ownsWriteEvent && writeEvent != null) ==> old(writeEvent.mark) in after[|before|].events)
                && (forall e | e in old(readEvents) :: Some(e) in after[|before|].events)
      ensures memory == None && PendingEvents() == [] && handleState == null
      ensures old(PendingEvents()) == [] ==> freedNow == old(memory) && (old(recycler) != null ==> unchanged(old(recycler)))
      ensures old(PendingEvents()) != [] ==>
                && freedNow == None && old(recycler).freed == old(recycler.freed)
                && old(recycler).queue == old(recycler.queue) + [PendingWork(old(PendingEvents()), old(memory).value)]
    {
      var events: seq<Option<Event>> := [];
      if ownsWriteEvent && writeEvent != null {
        events := [writeEvent.mark];
      }
      AsPendingHasAll(readEvents);
      events := events + AsPending(readEvents);
      freedNow := None;
      if events != [] {
        recycler.Enqueue(events, memory.value);
      } else {
        freedNow := memory;
      }
      memory, writeEvent, readEvents, handleState, recycler := None, null, [], null, null;
    }

    /** Move construction: the source keeps nothing. */
    constructor Move(other: CudaBuffer)
      requires other.Valid()
      modifies other
      ensures memory == old(other.memory) && size == old(other.size) && writeEvent == old(other.writeEvent)
      ensures ownsWriteEvent == old(other.ownsWriteEvent) && readEvents == old(other.readEvents)
      ensures handleState == old(other.handleState) && recycler == old(other.recycler) && issued == old(other.issued)
      ensures Valid()
      ensures other.memory == None && other.size == 0 && other.writeEvent == null && !other.ownsWriteEvent
      ensures other.readEvents == [] && other.handleState == null && other.recycler == null && other.issued == 0
    {
      memory, size, writeEvent, ownsWriteEvent := other.memory, other.size, other.writeEvent, other.ownsWriteEvent;
      readEvents, handleState, recycler, issued := other.readEvents, other.handleState, other.recycler, other.issued;
      new;
      other.memory, other.size, other.writeEvent, other.ownsWriteEvent := None, 0, null, false;
      other.readEvents, other.handleState, other.recycler, other.issued := [], null, null, 0;
    }

    /** Move assignment swaps everything, so nothing is lost. */
    method MoveAssign(other: CudaBuffer)
      modifies this, other
      ensures memory == old(other.memory) && other.memory == old(memory)
      ensures size == old(other.size) && other.size == old(size)
      ensures writeEvent == old(other.writeEvent) && other.writeEvent == old(writeEvent)
      ensures ownsWriteEvent == old(other.ownsWriteEvent) && other.ownsWriteEvent == old(ownsWriteEvent)
      ensures readEvents == old(other.readEvents) && other.readEvents == old(readEvents)
      ensures handleState == old(other.handleState) && other.handleState == old(handleState)
      ensures recycler == old(other.recycler) && other.recycler == old(recycler)
      ensures issued == old(other.issued) && other.issued == old(issued)
      // what waits for completion, and what a reader waits for, goes with the memory
      ensures PendingEvents() == old(other.PendingEvents()) && other.PendingEvents() == old(PendingEvents())
      ensures Awaited() == old(other.Awaited()) && other.Awaited() == old(Awaited())
      ensures old(other.Valid()) ==> Valid()
      ensures old(Valid()) ==> other.Valid()
    {
      if this != other {
        memory, other.memory := other.memory, memory;
        size, other.size := other.size, size;
        writeEvent, other.writeEvent := other.writeEvent, writeEvent;
        ownsWriteEvent, other.ownsWriteEvent := other.ownsWriteEvent, ownsWriteEvent;
        readEvents, other.readEvents := other.readEvents, readEvents;
        handleState, other.handleState := other.handleState, handleState;
        recycler, other.recycler := other.recycler, recycler;
        issued, other.issued := other.issued, issued;
      }
    }
  }

  class ReadHandle {
    var data: Option<nat>
    var owner: CudaBuffer?
    var stream: Option<nat>

    constructor (data: Option<nat>, owner: CudaBuffer?, stream: Option<nat>)
      ensures this.data == data && this.owner == owner && this.stream == stream
    {
      this.data, this.owner, this.stream := data, owner, stream;
    }

    /** `release`: leaves a read event behind everything enqueued on the stream. */
    method Release(dev: Device)
      modifies (if owner != null then {owner} else {})`readEvents
      ensures owner != null ==>
                owner.readEvents == old(owner.readEvents) + (if dev.Usable(stream) then [Mark(dev.gpu.streams, stream.value)] else [])
    {
      if owner == null || !dev.Usable(stream) {
        return;
      }
      owner.readEvents := owner.readEvents + [Mark(dev.gpu.streams, stream.value)];
    }

    /** Move assignment: releases first, and leaves the source with nothing to
        record. */
    method MoveFrom(dev: Device, other: ReadHandle)
      modifies this, other, (if owner != null then {owner} else {})`readEvents
      ensures data == old(other.data) && owner == old(other.owner) && stream == old(other.stream)
      ensures this != other ==> other.data == None && other.owner == null && other.stream == None
      ensures old(owner) != null ==>
                old(owner).readEvents == old(owner.readEvents) +
                  (if this != other && old(dev.Usable(stream)) then [Mark(dev.gpu.streams, old(stream.value))] else [])
    {
      if this != other {
        Release(dev);
        data, owner, stream := other.data, other.owner, other.stream;
        other.data, other.owner, other.stream := None, null, None;
      }
    }
  }

  /** However often a read handle is moved on, the read is recorded once, by the
      handle it ended up in. */
  method MovedReadRecordsOnce(dev: Device, first: ReadHandle, second: ReadHandle)
    requires first != second && first.owner != null && second.owner == null
    modifies first, second, first.owner`readEvents
    ensures old(first.owner).readEvents
         == old(first.owner.readEvents) + (if old(dev.Usable(first.stream)) then [Mark(dev.gpu.streams, old(first.stream.value))] else [])
  {
    second.MoveFrom(dev, first);
    first.Release(dev);
    second.Release(dev);
  }

  class WriteHandle {
    var data: Option<nat>
    var owner: CudaBuffer?     // where the write event is looked up
    var stream: Option<nat>
    var state: HandleState?

    constructor (data: Option<nat>, owner: CudaBuffer?, stream: Option<nat>, state: HandleState?)
      ensures this.data == data && this.owner == owner && this.stream == stream && this.state == state
    {
      this.data, this.owner, this.stream, this.state := data, owner, stream, state;
    }

    /** `release`: finalises the write unless a reader or publisher already did.
        The event recorded is the one found in the buffer the handle came from. */
    method Release(dev: Device)
      modifies state, if owner != null then {owner.writeEvent} else {}
      ensures state != null ==> state.state == Finalized
      ensures owner != null && owner.writeEvent != null ==>
                var ws := if state != null && old(state.writeStream).Some? then old(state.writeStream) else stream;
                if state != null && old(state.state) != Finalized && dev.Usable(ws)
                then owner.writeEvent.mark == Some(Mark(dev.gpu.streams, ws.value)) && owner.writeEvent.records == old(owner.writeEvent.records) + 1
                else unchanged(owner.writeEvent)
      ensures state != null && old(state.state) != Finalized ==> state.writeStream == None
      ensures state != null && old(state.state) == Finalized ==> unchanged(state)
      ensures owner != null && state != null && owner.handleState == state && old(owner.Valid()) ==> owner.Valid()
    {
      if state == null || state.state == Finalized {
        return;
      }
      var ws := if state.writeStream.Some? then state.writeStream else stream;
      if dev.Usable(ws) && owner != null && owner.writeEvent != null {
        owner.writeEvent.Record(dev, ws.value);
      }
      state.state := Finalized;
      state.writeStream := None;
    }
  }

  /** A destroyed buffer's memory through any number of turns of the recycler, with
      the device in whatever state at each: it is freed only in a turn that finds
      the owned write event and all recorded reads complete. */
  method DestroyedMemoryWaits(dev: Device, b: CudaBuffer, turns: seq<Gpu>) returns (freedAt: Option<Gpu>)
    requires (b.ownsWriteEvent && b.writeEvent != null) || b.readEvents != []
    requires b.memory.Some? && b.recycler != null
    modifies b, b.recycler, dev`gpu
    ensures freedAt.Some? <==> |old(b.recycler).freed| > |old(b.recycler.freed)| + |old(b.recycler.queue)|
    ensures freedAt.Some? ==>
              && old(b.recycler).freed[|old(b.recycler.freed)| + |old(b.recycler.queue)|] == old(b.memory).value
              && (forall e | e in old(b.readEvents) :: Complete(freedAt.value.streams, e))
              && (forall e | old(b.ownsWriteEvent && b.writeEvent != null && b.writeEvent.mark == Some(e)) :: Complete(freedAt.value.streams, e))
  {
    var recycler := b.recycler;
    ghost var first, freedBefore := |recycler.queue|, recycler.freed;
    var freedNow := b.Destroy();
    ghost var full := recycler.queue;
    ghost var gone: nat := 0;
    var ahead := |recycler.queue| - 1;
    freedAt := None;
    for i := 0 to |turns|
      invariant gone <= |full| && recycler.queue == full[gone..] && |recycler.freed| == |freedBefore| + gone
      invariant ahead == first - gone
      invariant freedAt.Some? <==> gone > first
      invariant freedAt.Some? ==>
                  && recycler.freed[|freedBefore| + first] == full[first].memory
                  && forall e | Some(e) in full[first].events :: Complete(freedAt.value.streams, e)
    {
      dev.gpu := turns[i];
      var released := recycler.RunOnce(dev);
      if released.Some? {
        if ahead == 0 {
          freedAt := Some(dev.gpu);
        }
        ahead := ahead - 1;
        gone := gone + 1;
      }
    }
  }

  // ------------------------------------------- moves under an open write handle

  /** After whatever moves, `b` is the buffer that now holds the handle's state.
      Its readers wait for the write exactly if its stream is usable and either a
      reader or publisher of `b` finalises the handle before its release, or the
      place the handle was taken from still holds `b`'s write event. */
  method WriteAwaited(dev: Device, handle: WriteHandle, b: CudaBuffer, finalisedFirst: bool)
    requires b.Valid() && b.writeEvent != null && b.handleState != null
    requires handle.state == b.handleState && b.handleState.state == InUse && handle.stream == b.handleState.writeStream
    modifies b.handleState, b.writeEvent, if handle.owner != null then {handle.owner.writeEvent} else {}
    ensures b.handleState.state == Finalized
    ensures b.Awaited()
         == if old(dev.Usable(handle.stream)) && (finalisedFirst || (handle.owner != null && handle.owner.writeEvent == b.writeEvent))
            then Some(Mark(dev.gpu.streams, handle.stream.value)) else old(b.Awaited())
  {
    if finalisedFirst {
      b.FinalizeWriteHandle(dev);
    }
    handle.Release(dev);
  }

  /** Move construction: the place the handle was taken from is emptied, so the
      write is awaited exactly if a reader comes before the release. */
  method MovedUnderWriter(dev: Device, source: CudaBuffer, stream: Option<nat>, readStream: nat, readFirst: bool)
    returns (moved: CudaBuffer)
    requires source.Valid() && source.issued == 0 && source.writeEvent != null && source.readEvents == []
    requires readStream < |dev.gpu.streams|
    modifies source, source.writeEvent, dev`gpu
    ensures fresh(moved) && moved.Valid() && moved.writeEvent == old(source.writeEvent)
    ensures moved.handleState != null && moved.handleState.state == Finalized
    ensures moved.Awaited()
         == if readFirst && old(dev.Usable(stream)) then Some(Mark(old(dev.gpu.streams), stream.value)) else old(source.Awaited())
  {
    var granted := source.GetWriteHandle(dev, stream);
    var handle := granted.value;
    moved := new CudaBuffer.Move(source);
    if readFirst {
      var reader := moved.GetReadHandle(dev, Some(readStream));
    }
    handle.Release(dev);
  }

  /** Move assignment: the place now holds the other buffer's event, so without a
      reader before the release the mark of the write goes to that event. */
  method AssignedUnderWriter(dev: Device, source: CudaBuffer, target: CudaBuffer, stream: Option<nat>, readStream: nat, readFirst: bool)
    requires source != target && source.Valid() && target.Valid() && source.issued == 0 && target.issued == 0 && source.readEvents == []
    requires source.writeEvent != null && target.writeEvent != source.writeEvent
    requires readStream < |dev.gpu.streams|
    modifies source, target, source.writeEvent, target.writeEvent, dev`gpu
    ensures target.Valid() && target.writeEvent == old(source.writeEvent) && source.writeEvent == old(target.writeEvent)
    ensures target.handleState != null && target.handleState.state == Finalized
    ensures target.Awaited()
         == if readFirst && old(dev.Usable(stream)) then Some(Mark(old(dev.gpu.streams), stream.value)) else old(source.Awaited())
    ensures source.writeEvent != null ==>
              source.Awaited() == if !readFirst && old(dev.Usable(stream)) then Some(Mark(old(dev.gpu.streams), stream.value)) else old(target.Awaited())
  {
    var granted := source.GetWriteHandle(dev, stream);
    var handle := granted.value;
    target.MoveAssign(source);
    if readFirst {
      var reader := target.GetReadHandle(dev, Some(readStream));
    }
    handle.Release(dev);
  }

  // --------------------------------------------------- runs of one buffer

  /** What can happen to a buffer that stays in its place.  `Elsewhere` is anything
      that happens to the device. */
  datatype Operation =
    | OpenRead(stream: Option<nat>)
    | CloseRead(index: nat)
    | OpenWrite(stream: Option<nat>)
    | CloseWrite
    | Publish
    | Elsewhere(gpu: Gpu, usable: set<nat>)

  function StateOf(b: CudaBuffer): (state: WriteState)
    reads b, b.handleState
    ensures b.handleState == null ==> state == Unset
    ensures b.handleState != null ==> state == b.handleState.state
  {
    if b.handleState == null then Unset else b.handleState.state
  }

  /** The handles taken from `b` that are still around. */
  ghost predicate HandlesOf(b: CudaBuffer, readers: seq<ReadHandle>, writer: WriteHandle?)
    reads b, readers, writer
  {
    && (writer == null <==> b.handleState == null)
    && (writer != null ==> writer.state == b.handleState && writer.owner == b)
    && (forall reader | reader in readers :: reader.owner == b)
  }

  method Perform(dev: Device, b: CudaBuffer, op: Operation, readers: seq<ReadHandle>, writer: WriteHandle?)
    returns (r: seq<ReadHandle>, w: WriteHandle?)
    requires b.Valid() && HandlesOf(b, readers, writer)
    modifies dev, b`readEvents, b`handleState, b`issued, b.handleState, b.writeEvent
    ensures b.Valid() && HandlesOf(b, r, w)
    ensures b.handleState != old(b.handleState) ==> fresh(b.handleState)
    ensures old(StateOf(b)) == Finalized ==> StateOf(b) == Finalized
    ensures old(StateOf(b)) == InUse ==> StateOf(b) != Unset
    ensures StateOf(b) == InUse && old(StateOf(b)) != InUse ==> op.OpenWrite? && old(StateOf(b)) == Unset
  {
    r, w := readers, writer;
    match op {
      case OpenRead(stream) =>
        if stream.None? || stream.value < |dev.gpu.streams| {
          var reader := b.GetReadHandle(dev, stream);
          r := r + [reader];
        }
      case CloseRead(i) =>
        if i < |r| {
          r[i].Release(dev);
          r := r[..i] + r[i + 1..];
        }
      case OpenWrite(stream) =>
        var granted := b.GetWriteHandle(dev, stream);
        if granted.Ok? {
          w := granted.value;
        }
      case CloseWrite =>
        if w != null {
          w.Release(dev);
        }
      case Publish =>
        b.FinalizeWriteHandle(dev);
      case Elsewhere(gpu, usable) =>
        dev.gpu, dev.usable := gpu, usable;
    }
  }

  /** Over every sequence of operations on an unmoved buffer the handle state only
      moves forward, at most one write handle is issued, and the write event is
      recorded at most once. */
  method RunUnmoved(dev: Device, b: CudaBuffer, ops: seq<Operation>) returns (states: seq<WriteState>)
    requires b.Valid() && b.issued == 0
    modifies dev, b`readEvents, b`handleState, b`issued, b.writeEvent
    ensures b.Valid() && b.issued <= 1 && (b.writeEvent != null ==> b.writeEvent.records <= 1)
    ensures |states| == |ops| + 1 && states[0] == Unset && states[|ops|] == StateOf(b)
    ensures forall i, j | 0 <= i < j < |states| && states[i] == Finalized :: states[j] == Finalized
    ensures forall i, j | 0 <= i < j < |states| && states[i] == InUse :: states[j] != Unset
    ensures forall i | 0 <= i < |ops| && states[i] != InUse && states[i + 1] == InUse :: ops[i].OpenWrite? && states[i] == Unset
  {
    var writer: WriteHandle? := null;
    var readers: seq<ReadHandle> := [];
    states := [StateOf(b)];
    for n := 0 to |ops|
      invariant b.Valid() && HandlesOf(b, readers, writer) && (b.handleState != null ==> fresh(b.handleState))
      invariant |states| == n + 1 && states[0] == Unset && states[n] == StateOf(b)
      invariant forall i, j | 0 <= i < j < |states| && states[i] == Finalized :: states[j] == Finalized
      invariant forall i, j | 0 <= i < j < |states| && states[i] == InUse :: states[j] != Unset
      invariant forall i | 0 <= i < n && states[i] != InUse && states[i + 1] == InUse :: ops[i].OpenWrite? && states[i] == Unset
    {
      readers, writer := Perform(dev, b, ops[n], readers, writer);
      states := states + [StateOf(b)];
    }
  }

  /** Opening a read on a stream orders everything that is enqueued there later
      behind everything queued on the write stream before the handle was
      finalised. */
  method ReadBehindWrites(dev: Device, b: CudaBuffer, k: nat) returns (handle: ReadHandle)
    requires b.Valid() && k < |dev.gpu.streams| && WaitsHonoured(dev.gpu.streams)
    modifies b`readEvents, dev`gpu, b.handleState, b.writeEvent
    ensures b.Valid() && fresh(handle) && b.Awaited() == old(b.WouldAwait(dev))
    ensures b.Awaited().Some? ==> OrderedBehind(dev.gpu, k, b.Awaited().value)
  {
    ghost var before := dev.gpu;
    handle := b.GetReadHandle(dev, Some(k));
    if b.Awaited().Some? {
      var e := b.Awaited().value;
      assert Enqueue(before, dev.gpu, k, Wait(e), {});
      WaitsHonouredByEnqueue(before, dev.gpu, k, Wait(e), {});
      ConsumerAfterProducer(dev.gpu, k, e);
    }
  }
}
