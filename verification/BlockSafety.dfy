/**
  What the block protocol guarantees over all interleavings, and where exactly
  the guarantee ends.
 */
module BlockSafety {
  import opened Outcomes
  import opened Queues
  import opened BlockProtocol
  import opened BlockInvariant

  // ---------------------------------------------------- reference counting

  /** The shared count is the number of imports between their increment and
      their decrement; it never goes negative. */
  lemma RefcountConservation(p: Params, states: seq<State>, steps: seq<Step>, n: nat)
    requires Run(p, states, steps) && n < |states|
    ensures states[n].refcount == |Holders(states[n].imports)| >= 0
  {
    RunInv(p, states, steps, n);
  }

  // -------------------------------------------------------------- uid check

  /** The uid load accepts an import exactly while no later lease has stored its
      uid. */
  lemma CheckPassesIff(p: Params, states: seq<State>, steps: seq<Step>, n: nat, s': State, i: nat)
    requires Run(p, states, steps) && n < |states| && CheckUid(states[n], s', i)
    ensures s'.imports[i].stage == Checked <==> states[n].uidLife == s'.imports[i].desc.life
    ensures s'.imports[i].stage == Failing <==> s'.imports[i].desc.life < states[n].uidLife
  {
    RunInv(p, states, steps, n);
    assert ImportOk(p, states[n].imports[i], states[n].sent, states[n].now, states[n].life);
  }

  /** Neither history is ever taken back. */
  predicate Grown(s: State, s': State) {
    s.uidLife <= s'.uidLife && s.issued <= s'.issued
  }

  lemma QueueStepGrows(p: Params, s: State, s': State, step: QueueStep)
    requires TakesQueue(p, s, s', step)
    ensures Grown(s, s')
  {
  }

  lemma WriterStepGrows(p: Params, s: State, s': State, step: WriterStep)
    requires TakesWriter(p, s, s', step)
    ensures Grown(s, s')
  {
  }

  lemma LocalReadStepGrows(p: Params, s: State, s': State, step: LocalReadStep)
    requires TakesLocalRead(p, s, s', step)
    ensures Grown(s, s')
  {
  }

  lemma PublishStepGrows(p: Params, s: State, s': State, step: PublishStep)
    requires PublishOk(s) && TakesPublish(p, s, s', step)
    ensures Grown(s, s')
  {
  }

  lemma PoolStepGrows(p: Params, s: State, s': State, step: PoolStep)
    requires TakesPool(p, s, s', step)
    ensures Grown(s, s')
  {
  }

  lemma ImportStepGrows(p: Params, s: State, s': State, step: ImportStep)
    requires TakesImport(p, s, s', step)
    ensures Grown(s, s')
  {
  }

  lemma ReaderStepGrows(p: Params, s: State, s': State, step: ReaderStep)
    requires TakesReader(p, s, s', step)
    ensures Grown(s, s')
  {
  }

  lemma StepGrows(p: Params, s: State, s': State, step: Step)
    requires PublishOk(s) && Takes(p, s, s', step)
    ensures Grown(s, s')
  {
    match step
    case OnQueue(q) => QueueStepGrows(p, s, s', q);
    case ByWriter(q) => WriterStepGrows(p, s, s', q);
    case ByLocalReader(q) => LocalReadStepGrows(p, s, s', q);
    case ByPublisher(q) => PublishStepGrows(p, s, s', q);
    case ByPool(q) => PoolStepGrows(p, s, s', q);
    case ByImporter(q) => ImportStepGrows(p, s, s', q);
    case ByReader(q) => ReaderStepGrows(p, s, s', q);
  }

  lemma RunStepGrows(p: Params, states: seq<State>, steps: seq<Step>, n: nat)
    requires Run(p, states, steps) && n < |steps|
    ensures states[n].uidLife <= states[n + 1].uidLife && states[n].issued <= states[n + 1].issued
  {
    RunInv(p, states, steps, n);
    StepGrows(p, states[n], states[n + 1], steps[n]);
  }

  lemma {:induction false} HistoryGrows(p: Params, states: seq<State>, steps: seq<Step>, m: nat, n: nat)
    requires Run(p, states, steps) && m <= n < |states|
    ensures states[m].uidLife <= states[n].uidLife && states[m].issued <= states[n].issued
  {
    if m < n {
      HistoryGrows(p, states, steps, m, n - 1);
      RunStepGrows(p, states, steps, n - 1);
    }
  }

  /** Late-import rejection: once a later lease has stored its uid, every uid
      load for an earlier descriptor fails, and giving the count back leaves it
      where the import found it. */
  lemma LateImportRejected(p: Params, states: seq<State>, steps: seq<Step>, m: nat, n: nat, s1: State, s2: State, i: nat)
    requires Run(p, states, steps) && m <= n < |states|
    requires i in states[n].imports && states[n].imports[i].desc.life < states[m].uidLife
    requires CheckUid(states[n], s1, i) && CountOutFailed(s1, s2, i)
    ensures s1.imports[i].stage == Failing
    ensures s2.refcount == |Holders(states[n].imports) - {i}| && Holders(s2.imports) == Holders(states[n].imports) - {i}
  {
    HistoryGrows(p, states, steps, m, n);
    CheckPassesIff(p, states, steps, n, s1, i);
    RunInv(p, states, steps, n);
    assert Takes(p, states[n], s1, ByImporter(CheckUidStep(i)));
    HoldersUpdated(states[n].imports, i, s1.imports[i]);
    HoldersUpdated(s1.imports, i, s2.imports[i]);
    assert i in Holders(states[n].imports);
  }

  // ------------------------------------------ never recycled under a reader

  /** A timely import passes the uid check. */
  lemma TimelyImportAccepted(p: Params, states: seq<State>, steps: seq<Step>, n: nat, s': State, i: nat)
    requires Run(p, states, steps) && n < |states| && CheckUid(states[n], s', i)
    requires Timely(p, states[n].imports[i].desc, states[n].imports[i].countedAt)
    ensures s'.imports[i].stage == Checked
  {
    RunInv(p, states, steps, n);
    assert ImportOk(p, states[n].imports[i], states[n].sent, states[n].now, states[n].life);
  }

  /** While a timely import holds its count, the block stays in the lease the
      import was sent from; in particular `allocate` does not return it. */
  lemma NeverRecycledUnderReader(p: Params, states: seq<State>, steps: seq<Step>, n: nat, i: nat)
    requires Run(p, states, steps) && n < |states|
    requires i in states[n].imports && Holding(states[n].imports[i])
    requires Timely(p, states[n].imports[i].desc, states[n].imports[i].countedAt)
    ensures states[n].life == states[n].imports[i].desc.life
    ensures forall s' :: !HandOut(p, states[n], s')
  {
    RunInv(p, states, steps, n);
    assert ImportOk(p, states[n].imports[i], states[n].sent, states[n].now, states[n].life);
  }

  /** `d` left the publisher in the m-th step, when everything issued up to then
      was its content. */
  ghost predicate EmittedAt(states: seq<State>, m: nat, d: Descriptor) {
    && m < |states|
    && d.life == states[m].life && d.uid == states[m].currentUid && d.length == |states[m].issued|
    && states[m].publishing == Closed
  }

  lemma {:induction false} SentWasEmitted(p: Params, states: seq<State>, steps: seq<Step>, n: nat, d: Descriptor) returns (m: nat)
    requires Run(p, states, steps) && n < |states| && d in states[n].sent
    ensures m < n && EmittedAt(states, m, d)
  {
    assert 0 < n;
    assert Takes(p, states[n - 1], states[n], steps[n - 1]);
    if d in states[n - 1].sent {
      m := SentWasEmitted(p, states, steps, n - 1, d);
    } else {
      m := n - 1;
    }
  }

  /** Whatever a timely import reads starts with what had been written to the block,
      in order, when its descriptor was sent, and is exactly that unless the lease
      was published unwritten and has taken a write handle since. */
  lemma ReaderSeesPublishedBytes(p: Params, states: seq<State>, steps: seq<Step>, n: nat, o: nat) returns (m: nat)
    requires Run(p, states, steps) && n < |states| && o < |states[n].seen|
    requires states[n].seen[o].timely
    ensures m < n && EmittedAt(states, m, states[n].seen[o].desc)
    ensures states[m].issued <= states[n].seen[o].contents
    ensures !states[n].seen[o].late ==> states[n].seen[o].contents == states[m].issued
  {
    RunInv(p, states, steps, n);
    m := SentWasEmitted(p, states, steps, n, states[n].seen[o].desc);
    HistoryGrows(p, states, steps, m, n);
  }

  ghost predicate Unfinished(s: State, k: nat, q: nat) {
    k < |s.streams| && s.streams[k].done <= q < |s.streams[k].ops|
  }

  /** A write handle is given only when every recorded read of the publisher is
      over: one still to come belongs to a read handle that is open on its stream. */
  lemma WriteBeginsBehindReads(p: Params, states: seq<State>, steps: seq<Step>, n: nat, s': State, k: nat, q: nat)
    requires Run(p, states, steps) && n < |states| && exists w: nat :: BeginWrite(states[n], s', w)
    requires Unfinished(states[n], k, q) && states[n].streams[k].ops[q] == Read(Publisher)
    ensures k in states[n].open
  {
    RunInv(p, states, steps, n);
    var s := states[n];
    assert Answered(s.phase, s.open, s.events, s.imports, Publisher, k, q);
  }

  // ---------------------------------------------- the deleter of an import

  /** An import on its way out still has the publisher's event to wait for, and one
      that is out has waited for it. */
  predicate OutBehindWrite(im: Import, streams: seq<Stream<Op>>) {
    im.desc.event.Some? && !im.desc.synced ==>
      && (im.stage == Retiring ==> im.desc.event.value in im.events)
      && (im.stage == Released ==> Complete(streams, im.desc.event.value))
  }

  ghost predicate AllOutBehindWrite(s: State) {
    forall i | i in s.imports :: OutBehindWrite(s.imports[i], s.streams)
  }

  predicate Longer(streams: seq<Stream<Op>>, streams': seq<Stream<Op>>) {
    |streams| <= |streams'| && forall k | 0 <= k < |streams| :: streams[k].done <= streams'[k].done
  }

  lemma ImporterLeavesBehindWrite(p: Params, s: State, s': State, step: ImportStep)
    requires AllOutBehindWrite(s) && TakesImport(p, s, s', step)
    ensures AllOutBehindWrite(s')
  {
  }

  lemma ReaderLeavesBehindWrite(p: Params, s: State, s': State, step: ReaderStep)
    requires AllOutBehindWrite(s) && TakesReader(p, s, s', step)
    ensures AllOutBehindWrite(s')
  {
    assert Longer(s.streams, s'.streams);
  }

  lemma QueueLeavesImports(p: Params, s: State, s': State, step: QueueStep)
    requires TakesQueue(p, s, s', step)
    ensures s'.imports == s.imports && Longer(s.streams, s'.streams)
  {
  }

  lemma PublisherLeavesImports(p: Params, s: State, s': State, step: Step)
    requires Takes(p, s, s', step) && (step.ByWriter? || step.ByLocalReader?)
    ensures s'.imports == s.imports && Longer(s.streams, s'.streams)
  {
  }

  lemma PoolLeavesImports(p: Params, s: State, s': State, step: Step)
    requires Takes(p, s, s', step) && (step.ByPublisher? || step.ByPool?)
    ensures s'.imports == s.imports && s'.streams == s.streams
  {
  }

  /** The deleter of an import counts out only after the publisher's write event. */
  lemma {:induction false} CountsOutBehindWrite(p: Params, states: seq<State>, steps: seq<Step>, n: nat)
    requires Run(p, states, steps) && n < |states|
    ensures AllOutBehindWrite(states[n])
  {
    if n > 0 {
      CountsOutBehindWrite(p, states, steps, n - 1);
      var s, s', step := states[n - 1], states[n], steps[n - 1];
      assert Takes(p, s, s', step);
      match step
      case ByImporter(q) => ImporterLeavesBehindWrite(p, s, s', q);
      case ByReader(q) => ReaderLeavesBehindWrite(p, s, s', q);
      case OnQueue(q) => QueueLeavesImports(p, s, s', q);
      case ByWriter(_) | ByLocalReader(_) => PublisherLeavesImports(p, s, s', step);
      case ByPublisher(_) | ByPool(_) => PoolLeavesImports(p, s, s', step);
    }
  }

  // ----------------------------------------- no unfinished work handed out

  /** When `allocate` returns a recycled block, all its writes have finished and
      so has every read except, possibly, of an import that counted itself in
      after the pool had loaded the count, and too late to be timely. */
  lemma HandOutFindsWorkFinished(p: Params, states: seq<State>, steps: seq<Step>, n: nat, s': State, k: nat, q: nat)
    requires Run(p, states, steps) && n < |states| && HandOut(p, states[n], s')
    requires Unfinished(states[n], k, q)
    ensures var op := states[n].streams[k].ops[q];
            && !op.Write?
            && (op.Read? ==>
                  && op.owner.Importer? && op.owner.id in states[n].imports
                  && op.owner.id in states[n].test.raced
                  && !states[n].imports[op.owner.id].timely)
  {
    var s := states[n];
    RunInv(p, states, steps, n);
    var op := s.streams[k].ops[q];
    WritesLanded(s);
    assert op.Write? ==> Complete(s.streams, s.issuedAt[op.index]);
    if op.Read? {
      assert Answered(s.phase, s.open, s.events, s.imports, op.owner, k, q);
      var i := op.owner.id;
      assert ImportOk(p, s.imports[i], s.sent, s.now, s.life);
    }
  }

  /** If nobody counted in during the readiness test, the block is idle. */
  lemma AtomicHandOutFindsBlockIdle(p: Params, states: seq<State>, steps: seq<Step>, n: nat, s': State)
    requires Run(p, states, steps) && n < |states| && HandOut(p, states[n], s')
    requires states[n].test.raced == {}
    ensures states[n].refcount == 0 && s'.memory == s'.issued
    ensures forall k: nat, q: nat | Unfinished(states[n], k, q) ::
              states[n].streams[k].ops[q].Foreign? || states[n].streams[k].ops[q].Wait?
  {
    RunInv(p, states, steps, n);
    WritesLanded(states[n]);
    assert Holders(states[n].imports) == {};
    forall k: nat, q: nat | Unfinished(states[n], k, q)
      ensures states[n].streams[k].ops[q].Foreign? || states[n].streams[k].ops[q].Wait?
    {
      HandOutFindsWorkFinished(p, states, steps, n, s', k, q);
    }
  }
}
