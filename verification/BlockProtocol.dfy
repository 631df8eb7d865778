/**
  The life cycle of one pooled GPU block across processes, as a step relation.

  One publisher process leases the block, writes it on a stream, stamps it with a
  uid and a publish time, sends descriptors, lets go of it and may lease it
  again.  Any number of importers count themselves in the shared reference count,
  check the uid, read the block asynchronously and count themselves out once
  their read events have completed.  Every atomic access is a step of its own:
  the pool's readiness test is three steps (load the count, load the stamp, read
  the clock), an import counts itself in before it loads the uid.

  Work on other blocks appears as `Foreign` operations on the shared streams; no
  variable of this state is written on behalf of another block.
 */
module BlockProtocol {
  import opened Outcomes
  import opened Queues

  /** `grace` is the pool's grace period.  `gap` bounds the time between the
      pool's load of the reference count and its reading of the clock. */
  datatype Params = Params(grace: nat, gap: nat)

  /** One write into the block's memory. */
  datatype Patch = Patch(offset: nat, bytes: seq<bv8>)

  datatype Owner = Publisher | Importer(id: nat)

  /** `Write(i)` performs the i-th patch ever issued for the block. */
  datatype Op = Write(index: nat) | Read(owner: Owner) | Wait(event: Event) | Foreign

  /** What a subscriber receives.  `life`, `stamp` and `length` are bookkeeping:
      the lease it was published in, that lease's publish time, and the number
      of patches issued when it was published. */
  datatype Descriptor = Descriptor(
    life: nat, uid: nat, stamp: nat, event: Option<Event>, synced: bool, length: nat)

  datatype Stage =
    | Requested            // descriptor received, nothing touched yet
    | Counted              // shared count incremented
    | Checked              // uid matched
    | Failing              // error path, count not yet given back
    | Live                 // imported buffer in use
    | Retiring             // buffer destroyed, events handed to the recycler
    | Released | Rejected  // count given back

  datatype Import = Import(
    desc: Descriptor, stage: Stage, countedAt: nat, timely: bool,
    open: multiset<nat>, events: set<Event>)

  datatype Phase = Leased | Pending(events: set<Event>) | Free

  datatype Handle = Unset | InUse | Finalized

  /** Progress of descriptor creation. */
  datatype Publishing = Quiet | UidStored | Stamped | Closed

  /** Progress of the pool's readiness test once the loaded count was zero.
      `raced` collects the imports that counted themselves in since that load. */
  datatype Test = Idle | GotCount(at: nat, raced: set<nat>) | GotStamp(at: nat, raced: set<nat>, stamp: nat)

  /** `late`: by then the lease had taken a write handle after publishing. */
  datatype Observation = Observation(desc: Descriptor, timely: bool, late: bool, contents: seq<Patch>)

  datatype State = State(
    now: nat,
    streams: seq<Stream<Op>>,
    // metadata shared between the processes
    refcount: int, uid: nat, stamp: nat,
    // publisher
    life: nat, phase: Phase, currentUid: nat, publishing: Publishing,
    handle: Handle, writeStream: nat, writeEvent: Option<Event>,
    open: multiset<nat>, events: set<Event>,
    test: Test,
    // importers
    imports: map<nat, Import>,
    // history
    usedUids: set<nat>, uidLife: nat, sent: set<Descriptor>,
    issued: seq<Patch>, issuedAt: seq<Event>, lifeStart: nat,
    memory: seq<Patch>, seen: seq<Observation>)

  predicate Holding(im: Import) {
    im.stage in {Counted, Checked, Failing, Live, Retiring}
  }

  function Holders(imports: map<nat, Import>): set<nat> {
    set i | i in imports && Holding(imports[i])
  }

  /** A freshly created block, leased for the first time at a positive clock. */
  ghost predicate Init(s: State) {
    && 0 < s.now
    && (forall k | 0 <= k < |s.streams| :: s.streams[k] == Stream([], 0))
    && s.refcount == 0 && s.uid == 0 && s.stamp == 0
    && s.life == 1 && s.phase == Leased && s.currentUid == 0 && s.publishing == Quiet
    && s.handle == Unset && s.writeEvent == None
    && s.open == multiset{} && s.events == {} && s.test == Idle
    && s.imports == map[] && s.usedUids == {} && s.uidLife == 0 && s.sent == {}
    && s.issued == [] && s.issuedAt == [] && s.lifeStart == 0
    && s.memory == [] && s.seen == []
  }

  // ---------------------------------------------------------------- streams

  ghost predicate Tick(s: State, s': State, d: nat) {
    s' == s.(now := s.now + d)
  }

  /** The lease of `d` was published before it had a write handle, and has taken
      one since. */
  predicate Late(d: Descriptor, life: nat, handle: Handle) {
    d.life == life && d.event.None? && handle != Unset
  }

  function Observe(s: State, im: Import): Observation {
    Observation(im.desc, im.timely, Late(im.desc, s.life, s.handle), s.memory)
  }

  /** The GPU finishes the next operation of stream `k`. */
  ghost predicate Exec(s: State, s': State, k: nat) {
    && k < |s.streams|
    && s.streams[k].done < |s.streams[k].ops|
    && var op := s.streams[k].ops[s.streams[k].done];
    && (op.Wait? ==> Complete(s.streams, op.event))
    && s' == s.(
         streams := Advance(s.streams, k),
         memory := if op.Write? && op.index < |s.issued| then s.memory + [s.issued[op.index]] else s.memory,
         seen := if op.Read? && op.owner.Importer? && op.owner.id in s.imports
                 then s.seen + [Observe(s, s.imports[op.owner.id])]
                 else s.seen)
  }

  /** Work that does not touch this block. */
  ghost predicate ForeignWork(s: State, s': State, k: nat, op: Op) {
    && k < |s.streams| && (op.Foreign? || op.Wait?)
    && s' == s.(streams := Append(s.streams, k, op))
  }

  // -------------------------------------------------------- publisher buffer

  /** `get_write_handle`: one handle for each lease, also when it has already been
      published without one. */
  ghost predicate BeginWrite(s: State, s': State, k: nat) {
    && k < |s.streams| && s.phase == Leased && s.publishing == Quiet
    && s.handle == Unset && s.events == {}
    && s' == s.(handle := InUse, writeStream := k)
  }

  ghost predicate EnqueueWrite(s: State, s': State, patch: Patch) {
    && s.handle == InUse && s.writeStream < |s.streams|
    && s' == s.(
         streams := Append(s.streams, s.writeStream, Write(|s.issued|)),
         issued := s.issued + [patch],
         issuedAt := s.issuedAt + [Event(s.writeStream, |s.streams[s.writeStream].ops| + 1)])
  }

  /** Records the write event if the handle is still in use; used by the handle's
      own release, by a reader and by descriptor creation. */
  function Finalize(s: State): State {
    if s.handle == InUse && s.writeStream < |s.streams|
    then s.(handle := Finalized, writeEvent := Some(Mark(s.streams, s.writeStream)))
    else s
  }

  ghost predicate FinishWrite(s: State, s': State) {
    s' == Finalize(s)
  }

  function WaitFor(streams: seq<Stream<Op>>, k: nat, e: Option<Event>): seq<Stream<Op>>
    requires k < |streams|
  {
    if e.Some? then Append(streams, k, Wait(e.value)) else streams
  }

  ghost predicate OpenLocalRead(s: State, s': State, k: nat) {
    && k < |s.streams| && s.phase == Leased
    && var t := Finalize(s);
    && s' == t.(streams := WaitFor(t.streams, k, t.writeEvent), open := t.open + multiset{k})
  }

  ghost predicate EnqueueLocalRead(s: State, s': State, k: nat) {
    && k < |s.streams| && s.phase == Leased && k in s.open
    && s' == s.(streams := Append(s.streams, k, Read(Publisher)))
  }

  ghost predicate CloseLocalRead(s: State, s': State, k: nat) {
    && k < |s.streams| && s.phase == Leased && k in s.open
    && s' == s.(open := s.open - multiset{k}, events := s.events + {Mark(s.streams, k)})
  }

  ghost predicate ReapLocal(s: State, s': State, e: Event) {
    && s.phase == Leased && Complete(s.streams, e)
    && s' == s.(events := s.events - {e})
  }

  /** The publisher's buffer is destroyed: no handle outlives it, and its events
      go to the recycler. */
  ghost predicate Retire(s: State, s': State) {
    && s.phase == Leased && s.publishing == Quiet
    && s.handle != InUse && s.open == multiset{}
    && s' == s.(
         phase := Pending(s.events + (if s.writeEvent.Some? then {s.writeEvent.value} else {})),
         events := {})
  }

  /** The recycler has synchronised with every event and frees the block. */
  ghost predicate Return(s: State, s': State) {
    && s.phase.Pending?
    && (forall e | e in s.phase.events :: Complete(s.streams, e))
    && s' == s.(phase := Free)
  }

  // ------------------------------------------------------------- publication

  /** First half of `assign_uid`; the uid is assumed never to have been used. */
  ghost predicate StoreUid(s: State, s': State, u: nat) {
    && s.phase == Leased && s.publishing == Quiet && s.currentUid == 0
    && u != 0 && u !in s.usedUids
    && s' == s.(currentUid := u, uid := u, uidLife := s.life,
                usedUids := s.usedUids + {u}, publishing := UidStored)
  }

  ghost predicate StoreStamp(s: State, s': State) {
    && s.publishing == UidStored
    && s' == s.(stamp := s.now, publishing := Stamped)
  }

  /** `assign_uid` on a lease that already has its uid: nothing is stored. */
  ghost predicate Republish(s: State, s': State) {
    && s.phase == Leased && s.publishing == Quiet && s.currentUid != 0
    && s' == s.(publishing := Stamped)
  }

  ghost predicate CloseForPublish(s: State, s': State) {
    && s.publishing == Stamped
    && s' == Finalize(s).(publishing := Closed)
  }

  /** A descriptor leaves the publisher.  A same-process one first waits for the
      write event, because the importer cannot open it. */
  ghost predicate Emit(s: State, s': State, synced: bool) {
    && s.publishing == Closed
    && (synced && s.writeEvent.Some? ==> Complete(s.streams, s.writeEvent.value))
    && s' == s.(
         publishing := Quiet,
         sent := s.sent + {Descriptor(s.life, s.currentUid, s.stamp, s.writeEvent, synced, |s.issued|)})
  }

  /** The publication fails after the write was finalised; what it stored stays. */
  ghost predicate Abandon(s: State, s': State) {
    && s.publishing == Closed
    && s' == s.(publishing := Quiet)
  }

  // -------------------------------------------------------------------- pool

  /** The refcount load of `is_block_ready`; a positive count ends the test. */
  ghost predicate LoadCount(s: State, s': State) {
    && s.phase == Free && s.test == Idle && s.refcount <= 0
    && s' == s.(test := GotCount(s.now, {}))
  }

  ghost predicate LoadStamp(s: State, s': State) {
    && s.test.GotCount?
    && s' == s.(test := GotStamp(s.test.at, s.test.raced, s.stamp))
  }

  /** The clock is read at most `gap` after the count was loaded, and not at all on
      a stamp of zero. */
  predicate ClockRead(p: Params, s: State) {
    s.test.GotStamp? && (s.test.stamp == 0 || s.now <= s.test.at + p.gap)
  }

  predicate Ready(p: Params, stamp: nat, now: nat) {
    stamp == 0 || (now >= stamp && now - stamp >= p.grace)
  }

  ghost predicate Decline(p: Params, s: State, s': State) {
    && ClockRead(p, s) && !Ready(p, s.test.stamp, s.now)
    && s' == s.(test := Idle)
  }

  /** `allocate` hands the block out: a new lease begins.  The shared uid is left
      as it was. */
  ghost predicate HandOut(p: Params, s: State, s': State) {
    && ClockRead(p, s) && Ready(p, s.test.stamp, s.now)
    && s' == s.(
         test := Idle, phase := Leased, life := s.life + 1, currentUid := 0, stamp := 0,
         handle := Unset, writeEvent := None, open := multiset{}, events := {},
         lifeStart := |s.issued|)
  }

  // --------------------------------------------------------------- importers

  ghost predicate Receive(s: State, s': State, i: nat, d: Descriptor) {
    && d in s.sent && i !in s.imports
    && s' == s.(imports := s.imports[i := Import(d, Requested, 0, false, multiset{}, {})])
  }

  /** Counted in while the readiness margin of its lease has not run out. */
  predicate Timely(p: Params, d: Descriptor, now: nat) {
    now + p.gap < d.stamp + p.grace
  }

  ghost predicate CountIn(p: Params, s: State, s': State, i: nat) {
    && i in s.imports && s.imports[i].stage == Requested
    && s' == s.(
         refcount := s.refcount + 1,
         imports := s.imports[i := s.imports[i].(
           stage := Counted, countedAt := s.now, timely := Timely(p, s.imports[i].desc, s.now))],
         test := match s.test
                 case Idle => Idle
                 case GotCount(at, raced) => GotCount(at, raced + {i})
                 case GotStamp(at, raced, stamp) => GotStamp(at, raced + {i}, stamp))
  }

  /** `check_uid_staleness`: the uid load decides between the two branches. */
  ghost predicate CheckUid(s: State, s': State, i: nat) {
    && i in s.imports && s.imports[i].stage == Counted
    && s' == s.(imports := s.imports[i := s.imports[i].(
         stage := if s.uid == s.imports[i].desc.uid then Checked else Failing)])
  }

  /** The descriptor could not be received or mapped. */
  ghost predicate MapFails(s: State, s': State, i: nat) {
    && i in s.imports && s.imports[i].stage == Checked
    && s' == s.(imports := s.imports[i := s.imports[i].(stage := Failing)])
  }

  ghost predicate GoLive(s: State, s': State, i: nat) {
    && i in s.imports && s.imports[i].stage == Checked
    && s' == s.(imports := s.imports[i := s.imports[i].(stage := Live)])
  }

  ghost predicate CountOutFailed(s: State, s': State, i: nat) {
    && i in s.imports && s.imports[i].stage == Failing
    && s' == s.(refcount := s.refcount - 1,
                imports := s.imports[i := s.imports[i].(stage := Rejected)])
  }

  ghost predicate OpenRead(s: State, s': State, i: nat, k: nat) {
    && i in s.imports && s.imports[i].stage == Live && k < |s.streams|
    && var im := s.imports[i];
    && s' == s.(
         streams := if im.desc.synced then s.streams else WaitFor(s.streams, k, im.desc.event),
         imports := s.imports[i := im.(open := im.open + multiset{k})])
  }

  ghost predicate EnqueueRead(s: State, s': State, i: nat, k: nat) {
    && i in s.imports && s.imports[i].stage == Live && k < |s.streams| && k in s.imports[i].open
    && s' == s.(streams := Append(s.streams, k, Read(Importer(i))))
  }

  ghost predicate CloseRead(s: State, s': State, i: nat, k: nat) {
    && i in s.imports && s.imports[i].stage == Live && k < |s.streams| && k in s.imports[i].open
    && s' == s.(imports := s.imports[i := s.imports[i].(
         open := s.imports[i].open - multiset{k},
         events := s.imports[i].events + {Mark(s.streams, k)})])
  }

  ghost predicate ReapRead(s: State, s': State, i: nat, e: Event) {
    && i in s.imports && s.imports[i].stage == Live && Complete(s.streams, e)
    && s' == s.(imports := s.imports[i := s.imports[i].(events := s.imports[i].events - {e})])
  }

  ghost predicate RetireImport(s: State, s': State, i: nat) {
    && i in s.imports && s.imports[i].stage == Live && s.imports[i].open == multiset{}
    && var im := s.imports[i];
    && s' == s.(imports := s.imports[i := im.(
         stage := Retiring,
         events := im.events + (if im.desc.event.Some? && !im.desc.synced then {im.desc.event.value} else {}))])
  }

  /** The recycler runs the import's deleter. */
  ghost predicate CountOut(s: State, s': State, i: nat) {
    && i in s.imports && s.imports[i].stage == Retiring
    && (forall e | e in s.imports[i].events :: Complete(s.streams, e))
    && s' == s.(refcount := s.refcount - 1,
                imports := s.imports[i := s.imports[i].(stage := Released)])
  }

  // -------------------------------------------------------------------- runs

  datatype QueueStep =
    | TickStep(d: nat)
    | ExecStep(k: nat)
    | ForeignWorkStep(k: nat, op: Op)

  datatype WriterStep =
    | BeginWriteStep(k: nat)
    | EnqueueWriteStep(patch: Patch)
    | FinishWriteStep

  datatype LocalReadStep =
    | OpenLocalReadStep(k: nat)
    | EnqueueLocalReadStep(k: nat)
    | CloseLocalReadStep(k: nat)
    | ReapLocalStep(e: Event)

  datatype PublishStep =
    | StoreUidStep(u: nat)
    | StoreStampStep
    | RepublishStep
    | CloseForPublishStep
    | EmitStep(synced: bool)
    | AbandonStep

  datatype PoolStep =
    | RetireStep
    | ReturnStep
    | LoadCountStep
    | LoadStampStep
    | DeclineStep
    | HandOutStep

  datatype ImportStep =
    | ReceiveStep(i: nat, d: Descriptor)
    | CountInStep(i: nat)
    | CheckUidStep(i: nat)
    | MapFailsStep(i: nat)
    | GoLiveStep(i: nat)
    | CountOutFailedStep(i: nat)

  datatype ReaderStep =
    | OpenReadStep(i: nat, k: nat)
    | EnqueueReadStep(i: nat, k: nat)
    | CloseReadStep(i: nat, k: nat)
    | ReapReadStep(i: nat, e: Event)
    | RetireImportStep(i: nat)
    | CountOutStep(i: nat)

  datatype Step =
    | OnQueue(QueueStep)
    | ByWriter(WriterStep)
    | ByLocalReader(LocalReadStep)
    | ByPublisher(PublishStep)
    | ByPool(PoolStep)
    | ByImporter(ImportStep)
    | ByReader(ReaderStep)

  ghost predicate TakesQueue(p: Params, s: State, s': State, step: QueueStep) {
    match step
    case TickStep(d) => Tick(s, s', d)
    case ExecStep(k) => Exec(s, s', k)
    case ForeignWorkStep(k, op) => ForeignWork(s, s', k, op)
  }

  ghost predicate TakesWriter(p: Params, s: State, s': State, step: WriterStep) {
    match step
    case BeginWriteStep(k) => BeginWrite(s, s', k)
    case EnqueueWriteStep(patch) => EnqueueWrite(s, s', patch)
    case FinishWriteStep => FinishWrite(s, s')
  }

  ghost predicate TakesLocalRead(p: Params, s: State, s': State, step: LocalReadStep) {
    match step
    case OpenLocalReadStep(k) => OpenLocalRead(s, s', k)
    case EnqueueLocalReadStep(k) => EnqueueLocalRead(s, s', k)
    case CloseLocalReadStep(k) => CloseLocalRead(s, s', k)
    case ReapLocalStep(e) => ReapLocal(s, s', e)
  }

  ghost predicate TakesPublish(p: Params, s: State, s': State, step: PublishStep) {
    match step
    case StoreUidStep(u) => StoreUid(s, s', u)
    case StoreStampStep => StoreStamp(s, s')
    case RepublishStep => Republish(s, s')
    case CloseForPublishStep => CloseForPublish(s, s')
    case EmitStep(synced) => Emit(s, s', synced)
    case AbandonStep => Abandon(s, s')
  }

  ghost predicate TakesPool(p: Params, s: State, s': State, step: PoolStep) {
    match step
    case RetireStep => Retire(s, s')
    case ReturnStep => Return(s, s')
    case LoadCountStep => LoadCount(s, s')
    case LoadStampStep => LoadStamp(s, s')
    case DeclineStep => Decline(p, s, s')
    case HandOutStep => HandOut(p, s, s')
  }

  ghost predicate TakesImport(p: Params, s: State, s': State, step: ImportStep) {
    match step
    case ReceiveStep(i, d) => Receive(s, s', i, d)
    case CountInStep(i) => CountIn(p, s, s', i)
    case CheckUidStep(i) => CheckUid(s, s', i)
    case MapFailsStep(i) => MapFails(s, s', i)
    case GoLiveStep(i) => GoLive(s, s', i)
    case CountOutFailedStep(i) => CountOutFailed(s, s', i)
  }

  ghost predicate TakesReader(p: Params, s: State, s': State, step: ReaderStep) {
    match step
    case OpenReadStep(i, k) => OpenRead(s, s', i, k)
    case EnqueueReadStep(i, k) => EnqueueRead(s, s', i, k)
    case CloseReadStep(i, k) => CloseRead(s, s', i, k)
    case ReapReadStep(i, e) => ReapRead(s, s', i, e)
    case RetireImportStep(i) => RetireImport(s, s', i)
    case CountOutStep(i) => CountOut(s, s', i)
  }

  ghost predicate Takes(p: Params, s: State, s': State, step: Step) {
    match step
    case OnQueue(q) => TakesQueue(p, s, s', q)
    case ByWriter(q) => TakesWriter(p, s, s', q)
    case ByLocalReader(q) => TakesLocalRead(p, s, s', q)
    case ByPublisher(q) => TakesPublish(p, s, s', q)
    case ByPool(q) => TakesPool(p, s, s', q)
    case ByImporter(q) => TakesImport(p, s, s', q)
    case ByReader(q) => TakesReader(p, s, s', q)
  }

  ghost predicate Run(p: Params, states: seq<State>, steps: seq<Step>) {
    && |states| == |steps| + 1
    && Init(states[0])
    && forall n {:trigger steps[n]} | 0 <= n < |steps| :: Takes(p, states[n], states[n + 1], steps[n])
  }
}
