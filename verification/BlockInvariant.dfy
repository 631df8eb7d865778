/**
  What every step of the block protocol keeps.

  The invariant is a conjunction of seven groups; each group is shown to survive
  each step, using the others where it needs them.
 */
module BlockInvariant {
  import opened Outcomes
  import opened Queues
  import opened BlockProtocol

  type Streams = seq<Stream<Op>>

  // ------------------------------------------------------------- the groups

  ghost predicate StreamsOk(streams: Streams) {
    forall k | 0 <= k < |streams| :: streams[k].done <= |streams[k].ops|
  }

  /** `e` marks the position just after the enqueued operation `Write(i)`. */
  ghost predicate MarksWrite(streams: Streams, e: Event, i: nat) {
    && e.stream < |streams| && 1 <= e.pos <= |streams[e.stream].ops|
    && streams[e.stream].ops[e.pos - 1] == Write(i)
  }

  /** Patches reach memory in the order in which they were issued, and those of
      earlier leases have all done so. */
  ghost predicate WritesOk(streams: Streams, issued: seq<Patch>, issuedAt: seq<Event>, memory: seq<Patch>, lifeStart: nat) {
    && |issuedAt| == |issued|
    && (forall i | 0 <= i < |issued| :: MarksWrite(streams, issuedAt[i], i))
    && (forall k, q | 0 <= k < |streams| && 0 <= q < |streams[k].ops| && streams[k].ops[q].Write? ::
          streams[k].ops[q].index < |issued| && issuedAt[streams[k].ops[q].index] == Event(k, q + 1))
    && lifeStart <= |memory| <= |issued|
    && memory == issued[..|memory|]
    && (forall i | 0 <= i < |issued| :: i < |memory| <==> Complete(streams, issuedAt[i]))
  }

  /** The writes of this lease sit on one stream, before its write event. */
  ghost predicate HandleOk(streams: Streams, phase: Phase, handle: Handle, writeStream: nat, writeEvent: Option<Event>,
                           issuedAt: seq<Event>, lifeStart: nat) {
    && (handle == Unset ==> |issuedAt| == lifeStart)
    && (handle != Unset ==> writeStream < |streams|)
    && (forall i | lifeStart <= i < |issuedAt| :: issuedAt[i].stream == writeStream)
    && (forall i, j | lifeStart <= i < j < |issuedAt| :: issuedAt[i].pos < issuedAt[j].pos)
    && (writeEvent.Some? <==> handle == Finalized)
    && (writeEvent.Some? ==>
          && writeEvent.value.stream == writeStream
          && writeEvent.value.pos <= |streams[writeStream].ops|
          && forall i | lifeStart <= i < |issuedAt| :: issuedAt[i].pos <= writeEvent.value.pos)
    && (!phase.Leased? ==> handle != InUse)
    && (phase.Pending? && writeEvent.Some? ==> writeEvent.value in phase.events)
    && (phase.Free? && writeEvent.Some? ==> Complete(streams, writeEvent.value))
  }

  /** Some event of `events` on stream `k` lies after position `q`. */
  ghost predicate Marked(events: set<Event>, k: nat, q: nat) {
    exists e :: e in events && e.stream == k && q < e.pos
  }

  ghost predicate LocalAnswers(phase: Phase, open: multiset<nat>, events: set<Event>, k: nat, q: nat) {
    match phase
    case Leased => k in open || Marked(events, k, q)
    case Pending(pending) => Marked(pending, k, q)
    case Free => false
  }

  ghost predicate ImportAnswers(im: Import, k: nat, q: nat) {
    match im.stage
    case Live => k in im.open || Marked(im.events, k, q)
    case Retiring => Marked(im.events, k, q)
    case _ => false
  }

  /** An unfinished read is still answered for by its buffer. */
  ghost predicate Answered(phase: Phase, open: multiset<nat>, events: set<Event>, imports: map<nat, Import>,
                           owner: Owner, k: nat, q: nat) {
    match owner
    case Publisher => LocalAnswers(phase, open, events, k, q)
    case Importer(i) => i in imports && ImportAnswers(imports[i], k, q)
  }

  ghost predicate ReadsOk(streams: Streams, phase: Phase, open: multiset<nat>, events: set<Event>, imports: map<nat, Import>) {
    forall k, q | 0 <= k < |streams| && streams[k].done <= q < |streams[k].ops| && streams[k].ops[q].Read? ::
      Answered(phase, open, events, imports, streams[k].ops[q].owner, k, q)
  }

  /** Operation `Wait(e)` stands on stream `k` before position `q`. */
  ghost predicate WaitStands(ops: seq<Op>, e: Event, q: nat) {
    exists w :: 0 <= w < q && w < |ops| && ops[w] == Wait(e)
  }

  ghost predicate WaitsBefore(streams: Streams, d: Descriptor, k: nat, q: nat) {
    k < |streams| && (d.event.Some? && !d.synced ==> WaitStands(streams[k].ops, d.event.value, q))
  }

  /** Anything enqueued on stream `k` now stands behind the descriptor's wait. */
  ghost predicate Behind(streams: Streams, d: Descriptor, k: nat) {
    k < |streams| && WaitsBefore(streams, d, k, |streams[k].ops|)
  }

  /** Every read of an importer stands behind its descriptor's wait. */
  ghost predicate OrderOk(streams: Streams, imports: map<nat, Import>) {
    && (forall k, q | 0 <= k < |streams| && 0 <= q < |streams[k].ops| && streams[k].ops[q].Read? && streams[k].ops[q].owner.Importer? ::
          && streams[k].ops[q].owner.id in imports
          && WaitsBefore(streams, imports[streams[k].ops[q].owner.id].desc, k, q))
    && (forall i, k: nat | i in imports && k in imports[i].open :: Behind(streams, imports[i].desc, k))
  }

  /** A wait that was passed had its event complete. */
  ghost predicate WaitedOk(streams: Streams, sent: set<Descriptor>) {
    && (forall k, q | 0 <= k < |streams| && 0 <= q < streams[k].done && q < |streams[k].ops| && streams[k].ops[q].Wait? ::
          Complete(streams, streams[k].ops[q].event))
    && (forall d | d in sent && d.synced && d.event.Some? :: Complete(streams, d.event.value))
  }

  ghost predicate PublishOk(s: State) {
    && 0 < s.now && s.stamp <= s.now
    && s.uidLife <= s.life
    && (s.currentUid != 0 ==> s.uidLife == s.life && s.uid == s.currentUid && s.currentUid in s.usedUids)
    && (s.currentUid == 0 ==> s.uidLife < s.life && s.stamp == 0)
    && (s.currentUid != 0 && s.publishing != UidStored ==> s.stamp != 0)
    && (s.publishing != Quiet ==> s.phase == Leased && s.currentUid != 0)
    && (s.publishing == Closed ==> s.handle != InUse)
  }

  /** Every descriptor ever sent, against the metadata now in shared memory. */
  ghost predicate SentOk(p: Params, s: State) {
    forall d | d in s.sent ::
      && d.uid != 0 && d.uid in s.usedUids
      && d.life <= s.life && d.life <= s.uidLife
      && (d.life == s.uidLife <==> d.uid == s.uid)
      && (d.life == s.life ==>
            && s.currentUid != 0 && s.publishing != UidStored && d.stamp == s.stamp
            && (d.event.Some? ==> s.handle == Finalized && d.event == s.writeEvent && d.length == |s.issued|)
            && (d.event.None? ==> d.length == s.lifeStart))
      && (d.life < s.life ==> d.stamp + p.grace <= s.now)
      && d.length <= |s.issued|
  }

  /** One import: its descriptor is genuine, and while it is timely and counted
      its lease is still the current one. */
  ghost predicate ImportOk(p: Params, im: Import, sent: set<Descriptor>, now: nat, life: nat) {
    && im.desc in sent
    && im.countedAt <= now
    && (im.timely <==> im.stage != Requested && Timely(p, im.desc, im.countedAt))
    && (im.timely ==> p.gap < p.grace)
    && (im.timely && Holding(im) ==> im.desc.life == life)
  }

  ghost predicate CountOk(p: Params, refcount: int, imports: map<nat, Import>, sent: set<Descriptor>, now: nat, life: nat) {
    && refcount == |Holders(imports)|
    && forall i | i in imports :: ImportOk(p, imports[i], sent, now, life)
  }

  /** While a readiness test runs, whoever holds the block came after its load. */
  ghost predicate TestOk(test: Test, phase: Phase, stamp: nat, now: nat, imports: map<nat, Import>) {
    test != Idle ==>
      && phase == Free && test.at <= now
      && (test.GotStamp? ==> test.stamp == stamp)
      && forall i | i in imports && Holding(imports[i]) :: i in test.raced && test.at <= imports[i].countedAt
  }

  /** Every observation of a timely import is at least what was published, in order,
      and no more unless it is late. */
  ghost predicate SeenOk(p: Params, seen: seq<Observation>, sent: set<Descriptor>, issued: seq<Patch>) {
    forall n | 0 <= n < |seen| ::
      && seen[n].desc in sent
      && (seen[n].timely ==>
            && p.gap < p.grace
            && seen[n].contents <= issued && seen[n].desc.length <= |seen[n].contents|
            && (!seen[n].late ==> |seen[n].contents| == seen[n].desc.length))
  }

  ghost predicate MemoryInv(s: State) {
    && StreamsOk(s.streams)
    && WritesOk(s.streams, s.issued, s.issuedAt, s.memory, s.lifeStart)
    && HandleOk(s.streams, s.phase, s.handle, s.writeStream, s.writeEvent, s.issuedAt, s.lifeStart)
  }

  ghost predicate ReaderInv(s: State) {
    && ReadsOk(s.streams, s.phase, s.open, s.events, s.imports)
    && OrderOk(s.streams, s.imports)
    && WaitedOk(s.streams, s.sent)
  }

  ghost predicate SharedInv(p: Params, s: State) {
    && PublishOk(s) && SentOk(p, s)
    && CountOk(p, s.refcount, s.imports, s.sent, s.now, s.life)
    && TestOk(s.test, s.phase, s.stamp, s.now, s.imports)
  }

  ghost predicate Inv(p: Params, s: State) {
    MemoryInv(s) && ReaderInv(s) && SharedInv(p, s) && SeenOk(p, s.seen, s.sent, s.issued)
  }

  // ---------------------------------------------------------------- basics

  lemma InitInv(p: Params, s: State)
    requires Init(s)
    ensures Inv(p, s)
  {
  }

  /** With the write event behind it (or no write at all), a lease has no write
      left in any queue. */
  lemma WritesLanded(s: State)
    requires MemoryInv(s) && s.handle != InUse
    requires s.writeEvent.Some? ==> Complete(s.streams, s.writeEvent.value)
    ensures s.memory == s.issued
  {
    var i := |s.issued| - 1;
    assert s.lifeStart <= i ==> Complete(s.streams, s.issuedAt[i]);
  }

  // -------------------------------------------------- the steps with a proof

  /** Queues only grow and only finish more. */
  ghost predicate Extends(streams: Streams, streams': Streams) {
    && |streams'| == |streams|
    && forall k | 0 <= k < |streams| ::
         streams[k].ops <= streams'[k].ops && streams[k].done <= streams'[k].done
  }

  /** Reads go in through open handles, and a newly opened handle has its wait. */
  lemma OrderKept(streams: Streams, imports: map<nat, Import>, streams': Streams, imports': map<nat, Import>)
    requires OrderOk(streams, imports) && Extends(streams, streams')
    requires forall i | i in imports :: i in imports' && imports'[i].desc == imports[i].desc
    requires forall k, q | 0 <= k < |streams| && |streams[k].ops| <= q < |streams'[k].ops| && streams'[k].ops[q].Read? && streams'[k].ops[q].owner.Importer? ::
               streams'[k].ops[q].owner.id in imports && k in imports[streams'[k].ops[q].owner.id].open
    requires forall i, k: nat | i in imports' && k in imports'[i].open ::
               (i in imports && k in imports[i].open) || Behind(streams', imports'[i].desc, k)
    ensures OrderOk(streams', imports')
  {
  }

  lemma OpenReadOrder(s: State, s': State, i: nat, k: nat)
    requires OrderOk(s.streams, s.imports) && OpenRead(s, s', i, k)
    ensures OrderOk(s'.streams, s'.imports)
  {
    var d := s.imports[i].desc;
    if d.event.Some? && !d.synced {
      assert s'.streams[k].ops[|s.streams[k].ops|] == Wait(d.event.value);
    }
    assert Behind(s'.streams, d, k);
    forall j, k': nat | j in s'.imports && k' in s'.imports[j].open
      ensures (j in s.imports && k' in s.imports[j].open) || Behind(s'.streams, s'.imports[j].desc, k')
    {
      if j != i || k' != k {
        assert k' in s.imports[j].open;
      }
    }
    OrderKept(s.streams, s.imports, s'.streams, s'.imports);
  }

  /** A write whose turn has come has no unfinished write before it. */
  lemma EarlierWriteBlocks(s: State, k: nat, w: nat)
    requires MemoryInv(s)
    requires k < |s.streams| && w < |s.issued| && s.issuedAt[w] == Event(k, s.streams[k].done + 1)
    ensures w == |s.memory|
  {
    assert !Complete(s.streams, s.issuedAt[w]);
    assert s.lifeStart < w ==> Complete(s.streams, s.issuedAt[w - 1]);
  }

  /** The write that finishes is the next one in issue order. */
  lemma ExecWrites(s: State, s': State, k: nat)
    requires MemoryInv(s) && Exec(s, s', k)
    ensures WritesOk(s'.streams, s'.issued, s'.issuedAt, s'.memory, s'.lifeStart)
  {
    var q := s.streams[k].done;
    var op := s.streams[k].ops[q];
    assert forall j | 0 <= j < |s.streams| :: s'.streams[j].ops == s.streams[j].ops;
    forall i | 0 <= i < |s.issued| ensures MarksWrite(s'.streams, s'.issuedAt[i], i) {
      assert MarksWrite(s.streams, s.issuedAt[i], i);
    }
    if op.Write? {
      assert s.issuedAt[op.index] == Event(k, q + 1);
      EarlierWriteBlocks(s, k, op.index);
      assert s'.memory == s.issued[..op.index + 1];
    }
    forall i | 0 <= i < |s'.issued| ensures i < |s'.memory| <==> Complete(s'.streams, s'.issuedAt[i]) {
      assert MarksWrite(s.streams, s.issuedAt[i], i);
      assert i < |s.memory| <==> Complete(s.streams, s.issuedAt[i]);
      if s.issuedAt[i] == Event(k, q + 1) {
        assert op == Write(i);
      }
    }
  }

  /** A timely import whose read comes up finds what was published, and exactly that
      unless the lease has taken a write handle since. */
  lemma ReadFindsPublished(p: Params, s: State, k: nat, i: nat)
    requires Inv(p, s)
    requires k < |s.streams| && s.streams[k].done < |s.streams[k].ops|
    requires s.streams[k].ops[s.streams[k].done] == Read(Importer(i))
    ensures i in s.imports && Holding(s.imports[i])
    ensures s.memory <= s.issued
    ensures s.imports[i].timely ==> s.imports[i].desc.length <= |s.memory|
    ensures s.imports[i].timely && (s.imports[i].desc.event.Some? || s.handle == Unset) ==> |s.memory| == s.imports[i].desc.length
    ensures s.imports[i].timely ==> (Late(s.imports[i].desc, s.life, s.handle) <==> s.imports[i].desc.event.None? && s.handle != Unset)
  {
    var q := s.streams[k].done;
    assert Answered(s.phase, s.open, s.events, s.imports, Importer(i), k, q);
    var im := s.imports[i];
    assert ImportOk(p, im, s.sent, s.now, s.life);
    if im.timely {
      var d := im.desc;
      assert d in s.sent && d.life == s.life;
      if d.event.Some? && !d.synced {
        assert WaitsBefore(s.streams, d, k, q);
        var w :| 0 <= w < q && w < |s.streams[k].ops| && s.streams[k].ops[w] == Wait(d.event.value);
        assert Complete(s.streams, d.event.value);
      }
      if d.event.Some? || s.handle == Unset {
        WritesLanded(s);
      }
    }
  }

  lemma ExecSeen(p: Params, s: State, s': State, k: nat)
    requires Inv(p, s) && Exec(s, s', k)
    ensures SeenOk(p, s'.seen, s'.sent, s'.issued)
  {
    var op := s.streams[k].ops[s.streams[k].done];
    if op.Read? && op.owner.Importer? {
      ReadFindsPublished(p, s, k, op.owner.id);
      assert ImportOk(p, s.imports[op.owner.id], s.sent, s.now, s.life);
    }
  }

  /** Enqueueing anything but a write leaves the account of the writes as it is. */
  lemma AppendKeeps(s: State, k: nat, op: Op)
    requires MemoryInv(s) && WaitedOk(s.streams, s.sent) && k < |s.streams| && !op.Write?
    ensures var streams' := Append(s.streams, k, op);
            && StreamsOk(streams') && Extends(s.streams, streams')
            && WritesOk(streams', s.issued, s.issuedAt, s.memory, s.lifeStart)
            && HandleOk(streams', s.phase, s.handle, s.writeStream, s.writeEvent, s.issuedAt, s.lifeStart)
            && WaitedOk(streams', s.sent)
  {
    var streams' := Append(s.streams, k, op);
    forall i | 0 <= i < |s.issued| ensures MarksWrite(streams', s.issuedAt[i], i) {
      assert MarksWrite(s.streams, s.issuedAt[i], i);
    }
  }

  /** Finishing an operation keeps what is said of events already passed. */
  lemma ExecKeeps(s: State, s': State, k: nat)
    requires MemoryInv(s) && ReaderInv(s) && Exec(s, s', k)
    ensures StreamsOk(s'.streams) && Extends(s.streams, s'.streams)
    ensures HandleOk(s'.streams, s.phase, s.handle, s.writeStream, s.writeEvent, s.issuedAt, s.lifeStart)
    ensures ReadsOk(s'.streams, s.phase, s.open, s.events, s.imports)
    ensures WaitedOk(s'.streams, s.sent)
  {
    assert forall j | 0 <= j < |s.streams| :: s'.streams[j].ops == s.streams[j].ops;
  }

  lemma EnqueueWriteWrites(s: State, s': State, patch: Patch)
    requires MemoryInv(s) && EnqueueWrite(s, s', patch)
    ensures WritesOk(s'.streams, s'.issued, s'.issuedAt, s'.memory, s'.lifeStart)
  {
    forall i | 0 <= i < |s'.issued| ensures MarksWrite(s'.streams, s'.issuedAt[i], i) {
      if i < |s.issued| {
        assert MarksWrite(s.streams, s.issuedAt[i], i);
      }
    }
  }

  lemma EnqueueWriteHandle(s: State, s': State, patch: Patch)
    requires MemoryInv(s) && EnqueueWrite(s, s', patch)
    ensures HandleOk(s'.streams, s'.phase, s'.handle, s'.writeStream, s'.writeEvent, s'.issuedAt, s'.lifeStart)
  {
    forall i | s.lifeStart <= i < |s.issuedAt| ensures s.issuedAt[i].pos <= |s.streams[s.writeStream].ops| {
      assert MarksWrite(s.streams, s.issuedAt[i], i);
    }
  }

  lemma EnqueueWriteKeeps(s: State, s': State, patch: Patch)
    requires MemoryInv(s) && WaitedOk(s.streams, s.sent) && EnqueueWrite(s, s', patch)
    ensures MemoryInv(s') && Extends(s.streams, s'.streams) && WaitedOk(s'.streams, s'.sent)
  {
    EnqueueWriteWrites(s, s', patch);
    EnqueueWriteHandle(s, s', patch);
  }

  /** The event left by a closing handle answers for the reads made through it. */
  lemma CloseReadAnswers(s: State, s': State, i: nat, k: nat)
    requires CloseRead(s, s', i, k)
    ensures forall k': nat, q: nat | ImportAnswers(s.imports[i], k', q) && k' < |s.streams| && q < |s.streams[k'].ops| :: ImportAnswers(s'.imports[i], k', q)
  {
    var e := Mark(s.streams, k);
    var im := s'.imports[i];
    assert e in im.events;
    forall k': nat, q: nat | ImportAnswers(s.imports[i], k', q) && k' < |s.streams| && q < |s.streams[k'].ops|
      ensures ImportAnswers(im, k', q)
    {
      if k' != k && k' in s.imports[i].open {
        assert k' in im.open;
      }
    }
  }

  /** An import that answers for no less than before keeps every read answered. */
  lemma ReadsAnswered(streams: Streams, phase: Phase, open: multiset<nat>, events: set<Event>, imports: map<nat, Import>, i: nat, im: Import)
    requires ReadsOk(streams, phase, open, events, imports) && i in imports
    requires forall k: nat, q: nat | ImportAnswers(imports[i], k, q) && k < |streams| && q < |streams[k].ops| && streams[k].done <= q :: ImportAnswers(im, k, q)
    ensures ReadsOk(streams, phase, open, events, imports[i := im])
  {
  }

  /** Whoever still holds the block during a readiness test did so before. */
  lemma TestKept(test: Test, phase: Phase, stamp: nat, now: nat, imports: map<nat, Import>, i: nat, im: Import)
    requires TestOk(test, phase, stamp, now, imports)
    requires Holding(im) ==> i in imports && Holding(imports[i]) && im.countedAt == imports[i].countedAt
    ensures TestOk(test, phase, stamp, now, imports[i := im])
  {
  }

  lemma HoldersUpdated(imports: map<nat, Import>, i: nat, im: Import)
    ensures Holders(imports[i := im]) == if Holding(im) then Holders(imports) + {i} else Holders(imports) - {i}
  {
  }

  /** One import changes; the count follows its share. */
  lemma CountKept(p: Params, s: State, s': State, i: nat, im: Import)
    requires SharedInv(p, s) && s'.imports == s.imports[i := im]
    requires s'.sent == s.sent && s'.now == s.now && s'.life == s.life
    requires ImportOk(p, im, s.sent, s.now, s.life)
    requires s'.refcount == s.refcount + (if Holding(im) then 1 else 0) - (if i in s.imports && Holding(s.imports[i]) then 1 else 0)
    ensures CountOk(p, s'.refcount, s'.imports, s'.sent, s'.now, s'.life)
  {
    HoldersUpdated(s.imports, i, im);
    assert i in Holders(s.imports) <==> i in s.imports && Holding(s.imports[i]);
  }

  /** One import of the state goes on: what it must keep for the invariant to hold. */
  lemma ImportGoesOn(p: Params, s: State, s': State, i: nat, im: Import)
    requires Inv(p, s) && i in s.imports && im.desc == s.imports[i].desc
    requires s' == s.(refcount := s'.refcount, imports := s.imports[i := im])
    requires s'.refcount == s.refcount + (if Holding(im) then 1 else 0) - (if Holding(s.imports[i]) then 1 else 0)
    requires ImportOk(p, im, s.sent, s.now, s.life)
    requires Holding(im) ==> Holding(s.imports[i]) && im.countedAt == s.imports[i].countedAt
    requires forall k: nat | k in im.open :: k in s.imports[i].open
    requires forall k: nat, q: nat | ImportAnswers(s.imports[i], k, q) && k < |s.streams| && q < |s.streams[k].ops| && s.streams[k].done <= q ::
               ImportAnswers(im, k, q)
    ensures Inv(p, s')
  {
    ReadsAnswered(s.streams, s.phase, s.open, s.events, s.imports, i, im);
    OrderKept(s.streams, s.imports, s'.streams, s'.imports);
    CountKept(p, s, s', i, im);
    TestKept(s.test, s.phase, s.stamp, s.now, s.imports, i, im);
  }

  /** An import that counts itself in early enough still has its lease. */
  lemma TimelyHasLease(p: Params, s: State, d: Descriptor)
    requires SharedInv(p, s) && d in s.sent && Timely(p, d, s.now)
    ensures d.life == s.life && p.gap < p.grace
  {
  }

  lemma EmitSent(p: Params, s: State, s': State, synced: bool)
    requires MemoryInv(s) && SharedInv(p, s) && Emit(s, s', synced)
    ensures SentOk(p, s')
  {
  }

  // ------------------------------------------------------------- every step

  lemma TickInv(p: Params, s: State, s': State, d: nat)
    requires Inv(p, s) && Tick(s, s', d)
    ensures Inv(p, s')
  {
  }

  lemma ExecInv(p: Params, s: State, s': State, k: nat)
    requires Inv(p, s) && Exec(s, s', k)
    ensures Inv(p, s')
  {
    ExecKeeps(s, s', k);
    ExecWrites(s, s', k);
    OrderKept(s.streams, s.imports, s'.streams, s'.imports);
    ExecSeen(p, s, s', k);
  }

  lemma ForeignWorkInv(p: Params, s: State, s': State, k: nat, op: Op)
    requires Inv(p, s) && ForeignWork(s, s', k, op)
    ensures Inv(p, s')
  {
    AppendKeeps(s, k, op);
    OrderKept(s.streams, s.imports, s'.streams, s'.imports);
  }

  lemma BeginWriteInv(p: Params, s: State, s': State, k: nat)
    requires Inv(p, s) && BeginWrite(s, s', k)
    ensures Inv(p, s')
  {
  }

  lemma EnqueueWriteInv(p: Params, s: State, s': State, patch: Patch)
    requires Inv(p, s) && EnqueueWrite(s, s', patch)
    ensures Inv(p, s')
  {
    EnqueueWriteKeeps(s, s', patch);
    OrderKept(s.streams, s.imports, s'.streams, s'.imports);
  }

  lemma FinishWriteInv(p: Params, s: State, s': State)
    requires Inv(p, s) && FinishWrite(s, s')
    ensures Inv(p, s')
  {
  }

  lemma OpenLocalReadInv(p: Params, s: State, s': State, k: nat)
    requires Inv(p, s) && OpenLocalRead(s, s', k)
    ensures Inv(p, s')
  {
    var t := Finalize(s);
    FinishWriteInv(p, s, t);
    var u := t.(streams := s'.streams);
    if t.writeEvent.Some? {
      ForeignWorkInv(p, t, u, k, Wait(t.writeEvent.value));
    }
    LocalOpened(p, u, s');
  }

  lemma LocalOpened(p: Params, u: State, s': State)
    requires Inv(p, u) && u.phase == Leased && s' == u.(open := s'.open) && u.open <= s'.open
    ensures Inv(p, s')
  {
  }

  lemma EnqueueLocalReadInv(p: Params, s: State, s': State, k: nat)
    requires Inv(p, s) && EnqueueLocalRead(s, s', k)
    ensures Inv(p, s')
  {
    AppendKeeps(s, k, Read(Publisher));
    OrderKept(s.streams, s.imports, s'.streams, s'.imports);
  }

  lemma CloseLocalReadInv(p: Params, s: State, s': State, k: nat)
    requires Inv(p, s) && CloseLocalRead(s, s', k)
    ensures Inv(p, s')
  {
  }

  lemma ReapLocalInv(p: Params, s: State, s': State, e: Event)
    requires Inv(p, s) && ReapLocal(s, s', e)
    ensures Inv(p, s')
  {
  }

  lemma StoreUidInv(p: Params, s: State, s': State, u: nat)
    requires Inv(p, s) && StoreUid(s, s', u)
    ensures Inv(p, s')
  {
  }

  lemma StoreStampInv(p: Params, s: State, s': State)
    requires Inv(p, s) && StoreStamp(s, s')
    ensures Inv(p, s')
  {
  }

  lemma RepublishInv(p: Params, s: State, s': State)
    requires Inv(p, s) && Republish(s, s')
    ensures Inv(p, s')
  {
  }

  lemma CloseForPublishInv(p: Params, s: State, s': State)
    requires Inv(p, s) && CloseForPublish(s, s')
    ensures Inv(p, s')
  {
    FinishWriteInv(p, s, Finalize(s));
  }

  lemma EmitInv(p: Params, s: State, s': State, synced: bool)
    requires Inv(p, s) && Emit(s, s', synced)
    ensures Inv(p, s')
  {
  }

  lemma AbandonInv(p: Params, s: State, s': State)
    requires Inv(p, s) && Abandon(s, s')
    ensures Inv(p, s')
  {
  }

  lemma RetireInv(p: Params, s: State, s': State)
    requires Inv(p, s) && Retire(s, s')
    ensures Inv(p, s')
  {
  }

  lemma ReturnInv(p: Params, s: State, s': State)
    requires Inv(p, s) && Return(s, s')
    ensures Inv(p, s')
  {
  }

  lemma LoadCountInv(p: Params, s: State, s': State)
    requires Inv(p, s) && LoadCount(s, s')
    ensures Inv(p, s')
  {
  }

  lemma LoadStampInv(p: Params, s: State, s': State)
    requires Inv(p, s) && LoadStamp(s, s')
    ensures Inv(p, s')
  {
  }

  lemma DeclineInv(p: Params, s: State, s': State)
    requires Inv(p, s) && Decline(p, s, s')
    ensures Inv(p, s')
  {
  }

  lemma HandOutInv(p: Params, s: State, s': State)
    requires Inv(p, s) && HandOut(p, s, s')
    ensures Inv(p, s')
  {
    WritesLanded(s);
  }

  lemma ReceiveInv(p: Params, s: State, s': State, i: nat, d: Descriptor)
    requires Inv(p, s) && Receive(s, s', i, d)
    ensures Inv(p, s')
  {
    CountKept(p, s, s', i, s'.imports[i]);
  }

  lemma CountInInv(p: Params, s: State, s': State, i: nat)
    requires Inv(p, s) && CountIn(p, s, s', i)
    ensures Inv(p, s')
  {
    if Timely(p, s.imports[i].desc, s.now) {
      TimelyHasLease(p, s, s.imports[i].desc);
    }
    CountKept(p, s, s', i, s'.imports[i]);
  }

  lemma CheckUidInv(p: Params, s: State, s': State, i: nat)
    requires Inv(p, s) && CheckUid(s, s', i)
    ensures Inv(p, s')
  {
    ImportGoesOn(p, s, s', i, s'.imports[i]);
  }

  lemma MapFailsInv(p: Params, s: State, s': State, i: nat)
    requires Inv(p, s) && MapFails(s, s', i)
    ensures Inv(p, s')
  {
    ImportGoesOn(p, s, s', i, s'.imports[i]);
  }

  lemma GoLiveInv(p: Params, s: State, s': State, i: nat)
    requires Inv(p, s) && GoLive(s, s', i)
    ensures Inv(p, s')
  {
    ImportGoesOn(p, s, s', i, s'.imports[i]);
  }

  lemma CountOutFailedInv(p: Params, s: State, s': State, i: nat)
    requires Inv(p, s) && CountOutFailed(s, s', i)
    ensures Inv(p, s')
  {
    ImportGoesOn(p, s, s', i, s'.imports[i]);
  }

  lemma OpenReadInv(p: Params, s: State, s': State, i: nat, k: nat)
    requires Inv(p, s) && OpenRead(s, s', i, k)
    ensures Inv(p, s')
  {
    var im := s.imports[i];
    var u := s.(streams := s'.streams);
    if !im.desc.synced && im.desc.event.Some? {
      ForeignWorkInv(p, s, u, k, Wait(im.desc.event.value));
    }
    OpenedKeeps(p, s, u, s', i, k);
  }

  lemma OpenedKeeps(p: Params, s: State, u: State, s': State, i: nat, k: nat)
    requires OrderOk(s.streams, s.imports) && OpenRead(s, s', i, k) && Inv(p, u) && u == s.(streams := s'.streams)
    ensures Inv(p, s')
  {
    var im := s'.imports[i];
    OpenReadOrder(s, s', i, k);
    ReadsAnswered(u.streams, u.phase, u.open, u.events, u.imports, i, im);
    CountKept(p, u, s', i, im);
    TestKept(u.test, u.phase, u.stamp, u.now, u.imports, i, im);
  }

  lemma EnqueueReadInv(p: Params, s: State, s': State, i: nat, k: nat)
    requires Inv(p, s) && EnqueueRead(s, s', i, k)
    ensures Inv(p, s')
  {
    AppendKeeps(s, k, Read(Importer(i)));
    OrderKept(s.streams, s.imports, s'.streams, s'.imports);
  }

  lemma CloseReadInv(p: Params, s: State, s': State, i: nat, k: nat)
    requires Inv(p, s) && CloseRead(s, s', i, k)
    ensures Inv(p, s')
  {
    CloseReadAnswers(s, s', i, k);
    ImportGoesOn(p, s, s', i, s'.imports[i]);
  }

  lemma ReapReadInv(p: Params, s: State, s': State, i: nat, e: Event)
    requires Inv(p, s) && ReapRead(s, s', i, e)
    ensures Inv(p, s')
  {
    ImportGoesOn(p, s, s', i, s'.imports[i]);
  }

  lemma RetireImportInv(p: Params, s: State, s': State, i: nat)
    requires Inv(p, s) && RetireImport(s, s', i)
    ensures Inv(p, s')
  {
    ImportGoesOn(p, s, s', i, s'.imports[i]);
  }

  lemma CountOutInv(p: Params, s: State, s': State, i: nat)
    requires Inv(p, s) && CountOut(s, s', i)
    ensures Inv(p, s')
  {
    ImportGoesOn(p, s, s', i, s'.imports[i]);
  }

  lemma QueueStepInv(p: Params, s: State, s': State, step: QueueStep)
    requires Inv(p, s) && TakesQueue(p, s, s', step)
    ensures Inv(p, s')
  {
    match step
    case TickStep(d) => TickInv(p, s, s', d);
    case ExecStep(k) => ExecInv(p, s, s', k);
    case ForeignWorkStep(k, op) => ForeignWorkInv(p, s, s', k, op);
  }

  lemma WriterStepInv(p: Params, s: State, s': State, step: WriterStep)
    requires Inv(p, s) && TakesWriter(p, s, s', step)
    ensures Inv(p, s')
  {
    match step
    case BeginWriteStep(k) => BeginWriteInv(p, s, s', k);
    case EnqueueWriteStep(patch) => EnqueueWriteInv(p, s, s', patch);
    case FinishWriteStep => FinishWriteInv(p, s, s');
  }

  lemma LocalReadStepInv(p: Params, s: State, s': State, step: LocalReadStep)
    requires Inv(p, s) && TakesLocalRead(p, s, s', step)
    ensures Inv(p, s')
  {
    match step
    case OpenLocalReadStep(k) => OpenLocalReadInv(p, s, s', k);
    case EnqueueLocalReadStep(k) => EnqueueLocalReadInv(p, s, s', k);
    case CloseLocalReadStep(k) => CloseLocalReadInv(p, s, s', k);
    case ReapLocalStep(e) => ReapLocalInv(p, s, s', e);
  }

  lemma PublishStepInv(p: Params, s: State, s': State, step: PublishStep)
    requires Inv(p, s) && TakesPublish(p, s, s', step)
    ensures Inv(p, s')
  {
    match step
    case StoreUidStep(u) => StoreUidInv(p, s, s', u);
    case StoreStampStep => StoreStampInv(p, s, s');
    case RepublishStep => RepublishInv(p, s, s');
    case CloseForPublishStep => CloseForPublishInv(p, s, s');
    case EmitStep(synced) => EmitInv(p, s, s', synced);
    case AbandonStep => AbandonInv(p, s, s');
  }

  lemma PoolStepInv(p: Params, s: State, s': State, step: PoolStep)
    requires Inv(p, s) && TakesPool(p, s, s', step)
    ensures Inv(p, s')
  {
    match step
    case RetireStep => RetireInv(p, s, s');
    case ReturnStep => ReturnInv(p, s, s');
    case LoadCountStep => LoadCountInv(p, s, s');
    case LoadStampStep => LoadStampInv(p, s, s');
    case DeclineStep => DeclineInv(p, s, s');
    case HandOutStep => HandOutInv(p, s, s');
  }

  lemma ImportStepInv(p: Params, s: State, s': State, step: ImportStep)
    requires Inv(p, s) && TakesImport(p, s, s', step)
    ensures Inv(p, s')
  {
    match step
    case ReceiveStep(i, d) => ReceiveInv(p, s, s', i, d);
    case CountInStep(i) => CountInInv(p, s, s', i);
    case CheckUidStep(i) => CheckUidInv(p, s, s', i);
    case MapFailsStep(i) => MapFailsInv(p, s, s', i);
    case GoLiveStep(i) => GoLiveInv(p, s, s', i);
    case CountOutFailedStep(i) => CountOutFailedInv(p, s, s', i);
  }

  lemma ReaderStepInv(p: Params, s: State, s': State, step: ReaderStep)
    requires Inv(p, s) && TakesReader(p, s, s', step)
    ensures Inv(p, s')
  {
    match step
    case OpenReadStep(i, k) => OpenReadInv(p, s, s', i, k);
    case EnqueueReadStep(i, k) => EnqueueReadInv(p, s, s', i, k);
    case CloseReadStep(i, k) => CloseReadInv(p, s, s', i, k);
    case ReapReadStep(i, e) => ReapReadInv(p, s, s', i, e);
    case RetireImportStep(i) => RetireImportInv(p, s, s', i);
    case CountOutStep(i) => CountOutInv(p, s, s', i);
  }

  lemma StepInv(p: Params, s: State, s': State, step: Step)
    requires Inv(p, s) && Takes(p, s, s', step)
    ensures Inv(p, s')
  {
    match step
    case OnQueue(q) => QueueStepInv(p, s, s', q);
    case ByWriter(q) => WriterStepInv(p, s, s', q);
    case ByLocalReader(q) => LocalReadStepInv(p, s, s', q);
    case ByPublisher(q) => PublishStepInv(p, s, s', q);
    case ByPool(q) => PoolStepInv(p, s, s', q);
    case ByImporter(q) => ImportStepInv(p, s, s', q);
    case ByReader(q) => ReaderStepInv(p, s, s', q);
  }

  /** The invariant holds in every state of every run. */
  lemma {:induction false} RunInv(p: Params, states: seq<State>, steps: seq<Step>, n: nat)
    requires Run(p, states, steps) && n < |states|
    ensures Inv(p, states[n])
  {
    if n == 0 {
      InitInv(p, states[0]);
    } else {
      RunInv(p, states, steps, n - 1);
      assert Takes(p, states[n - 1], states[n], steps[n - 1]);
      StepInv(p, states[n - 1], states[n], steps[n - 1]);
    }
  }
}
