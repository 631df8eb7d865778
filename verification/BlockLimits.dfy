/**
  The protection of an import ends exactly where `Timely` ends: for every later
  count-in there is a run in which the pool hands the block out under the reader,
  the uid check still accepts the import (because a new lease leaves the shared
  uid alone until it publishes), and the reader finds bytes of the next lease.
 */
module BlockLimits {
  import opened Outcomes
  import opened Queues
  import opened BlockProtocol
  import opened BlockInvariant
  import opened BlockSafety

  ghost predicate Reaches(p: Params, s: State) {
    exists states: seq<State>, steps: seq<Step> :: Run(p, states, steps) && states[|steps|] == s
  }

  lemma ReachesInit(p: Params, s: State)
    requires Init(s)
    ensures Reaches(p, s)
  {
    assert Run(p, [s], []);
  }

  lemma ReachesNext(p: Params, s: State, s': State, step: Step)
    requires Reaches(p, s) && Takes(p, s, s', step)
    ensures Reaches(p, s')
  {
    var states: seq<State>, steps: seq<Step> :| Run(p, states, steps) && states[|steps|] == s;
    var states', steps' := states + [s'], steps + [step];
    forall n | 0 <= n < |steps'| ensures Takes(p, states'[n], states'[n + 1], steps'[n]) {
      if n < |steps| {
        assert Takes(p, states[n], states[n + 1], steps[n]);
      }
    }
    assert Run(p, states', steps') && states'[|steps'|] == s';
  }

  const IDLE_STREAMS: Streams := [Stream([], 0), Stream([], 0)]

  const START: State := State(
    1, IDLE_STREAMS, 0, 0, 0,
    1, Leased, 0, Quiet, Unset, 0, None, multiset{}, {}, Idle,
    map[], {}, 0, {}, [], [], 0, [], [])

  const SENT_DESC: Descriptor := Descriptor(1, 7, 1, None, false, 0)

  /** The block published once with uid 7 at time 1, received, and let go. */
  const PUBLISHED: State := START.(
    phase := Free, currentUid := 7, uid := 7, uidLife := 1, usedUids := {7}, stamp := 1,
    sent := {SENT_DESC}, imports := map[0 := Import(SENT_DESC, Requested, 0, false, multiset{}, {})])

  /** The first publication of the block, up to the point where it is sent. */
  lemma ReachesStamped(p: Params) returns (s3: State)
    ensures s3 == START.(currentUid := 7, uid := 7, uidLife := 1, usedUids := {7}, stamp := 1, publishing := Closed)
    ensures Reaches(p, s3)
  {
    ReachesInit(p, START);
    var s1 := START.(currentUid := 7, uid := 7, uidLife := 1, usedUids := {7}, publishing := UidStored);
    ReachesNext(p, START, s1, ByPublisher(StoreUidStep(7)));
    var s2 := s1.(stamp := 1, publishing := Stamped);
    ReachesNext(p, s1, s2, ByPublisher(StoreStampStep));
    s3 := s2.(publishing := Closed);
    ReachesNext(p, s2, s3, ByPublisher(CloseForPublishStep));
  }

  lemma ReachesReceived(p: Params)
    ensures Reaches(p, PUBLISHED.(phase := Leased))
  {
    var s3 := ReachesStamped(p);
    var s4 := s3.(publishing := Quiet, sent := {SENT_DESC});
    ReachesNext(p, s3, s4, ByPublisher(EmitStep(false)));
    ReachesNext(p, s4, s4.(imports := PUBLISHED.imports), ByImporter(ReceiveStep(0, SENT_DESC)));
  }

  lemma ReachesPublished(p: Params)
    ensures Reaches(p, PUBLISHED)
  {
    ReachesReceived(p);
    var s5 := PUBLISHED.(phase := Leased);
    var s6 := s5.(phase := Pending({}));
    assert s5.events + {} == {};
    ReachesNext(p, s5, s6, ByPool(RetireStep));
    ReachesNext(p, s6, PUBLISHED, ByPool(ReturnStep));
  }

  function CountedImport(stage: Stage, c: nat): Import {
    Import(SENT_DESC, stage, 1 + c, false, multiset{}, {})
  }

  function Later(p: Params, c: nat): nat {
    if c < p.grace then p.grace else c
  }

  /** The next lease has begun while import 0, counted in `c` after the stamp,
      holds the block and has passed the uid check. */
  function Overtaken(p: Params, c: nat): State {
    PUBLISHED.(
      now := 1 + Later(p, c), refcount := 1, life := 2, phase := Leased, currentUid := 0, stamp := 0,
      imports := map[0 := CountedImport(Live, c)])
  }

  lemma ReachesOvertaken(p: Params, c: nat)
    requires c + p.gap >= p.grace
    ensures Reaches(p, Overtaken(p, c))
  {
    ReachesCounted(p, c);
    var s3 := Tested(p, c, Counted);
    var s4 := s3.(now := 1 + Later(p, c));
    ReachesNext(p, s3, s4, OnQueue(TickStep(Later(p, c) - c)));
    ReachesHandedOut(p, c, s4);
  }

  lemma ReachesHandedOut(p: Params, c: nat, s4: State)
    requires c + p.gap >= p.grace && Reaches(p, s4)
    requires s4 == PUBLISHED.(now := 1 + Later(p, c), refcount := 1,
                              imports := map[0 := CountedImport(Counted, c)], test := GotCount(1 + c, {0}))
    ensures Reaches(p, Overtaken(p, c))
  {
    var s5 := s4.(test := GotStamp(1 + c, {0}, 1));
    ReachesNext(p, s4, s5, ByPool(LoadStampStep));
    var s6 := s5.(test := Idle, phase := Leased, life := 2, currentUid := 0, stamp := 0);
    ReachesNext(p, s5, s6, ByPool(HandOutStep));
    var s7 := s6.(imports := map[0 := CountedImport(Checked, c)]);
    assert s6.imports[0 := CountedImport(Checked, c)] == s7.imports;
    ReachesNext(p, s6, s7, ByImporter(CheckUidStep(0)));
    assert s7.imports[0 := CountedImport(Live, c)] == map[0 := CountedImport(Live, c)];
    ReachesNext(p, s7, Overtaken(p, c), ByImporter(GoLiveStep(0)));
  }

  /** The overtaken reader finds a write of the next lease. */
  lemma OvertakenReaderSeesNextLease(p: Params, c: nat, patch: Patch) returns (s: State)
    requires c + p.gap >= p.grace
    ensures Reaches(p, s)
    ensures |s.seen| == 1 && s.seen[0].desc == SENT_DESC && SENT_DESC.length == 0
    ensures s.seen[0].contents == [patch]
  {
    ReachesOvertaken(p, c);
    var s0 := Overtaken(p, c);
    var s1 := s0.(handle := InUse, writeStream := 0);
    ReachesNext(p, s0, s1, ByWriter(BeginWriteStep(0)));
    var s2 := s1.(streams := [Stream([Write(0)], 0), Stream([], 0)], issued := [patch], issuedAt := [Event(0, 1)]);
    assert s1.streams[0].ops + [Write(0)] == [Write(0)];
    assert s2.streams == Append(s1.streams, 0, Write(0));
    ReachesNext(p, s1, s2, ByWriter(EnqueueWriteStep(patch)));
    var s3 := s2.(streams := WRITTEN, memory := [patch]);
    assert s3.streams == Advance(s2.streams, 0);
    ReachesNext(p, s2, s3, OnQueue(ExecStep(0)));
    s := ReadsOnce(p, s3, CountedImport(Live, c));
  }

  const WRITTEN: Streams := [Stream([Write(0)], 1), Stream([], 0)]
  const READ_QUEUED: Streams := [Stream([Write(0)], 1), Stream([Read(Importer(0))], 0)]
  const READ_DONE: Streams := [Stream([Write(0)], 1), Stream([Read(Importer(0))], 1)]

  /** The only import opens a read on the idle stream and enqueues it. */
  lemma ReadQueued(p: Params, s: State, im: Import, im': Import)
    requires Reaches(p, s) && s.streams == WRITTEN && s.imports == map[0 := im]
    requires im.stage == Live && im.desc.event == None && im.open == multiset{} && im' == im.(open := multiset{1})
    ensures Reaches(p, s.(streams := READ_QUEUED, imports := map[0 := im']))
  {
    var s1 := s.(imports := map[0 := im']);
    assert s.imports[0 := im'] == s1.imports && im.open + multiset{1} == im'.open;
    ReachesNext(p, s, s1, ByReader(OpenReadStep(0, 1)));
    var s2 := s1.(streams := READ_QUEUED);
    assert s1.streams[1].ops + [Read(Importer(0))] == [Read(Importer(0))];
    assert s2.streams == Append(s1.streams, 1, Read(Importer(0)));
    ReachesNext(p, s1, s2, ByReader(EnqueueReadStep(0, 1)));
  }

  /** The only import reads the block as it is. */
  lemma ReadsOnce(p: Params, s: State, im: Import) returns (r: State)
    requires Reaches(p, s) && s.streams == WRITTEN && s.imports == map[0 := im] && s.seen == []
    requires im.stage == Live && im.desc.event == None && im.open == multiset{}
    ensures Reaches(p, r)
    ensures r.seen == [Observation(im.desc, im.timely, Late(im.desc, s.life, s.handle), s.memory)]
  {
    var im' := im.(open := multiset{1});
    ReadQueued(p, s, im, im');
    var s2 := s.(streams := READ_QUEUED, imports := map[0 := im']);
    r := s2.(streams := READ_DONE, seen := [Observe(s2, im')]);
    assert READ_DONE == Advance(READ_QUEUED, 1);
    ReachesNext(p, s2, r, OnQueue(ExecStep(1)));
  }

  /** Import `i` of `s` holds the block and counted itself in `c` after its stamp. */
  ghost predicate HoldsSince(s: State, i: nat, c: nat) {
    && i in s.imports && Holding(s.imports[i])
    && s.imports[i].countedAt == s.imports[i].desc.stamp + c
  }

  /** In no run is an import that counts in `c` after its stamp overtaken. */
  ghost predicate AlwaysProtected(p: Params, c: nat) {
    forall s: State, i: nat | Reaches(p, s) && HoldsSince(s, i, c) :: s.life == s.imports[i].desc.life
  }

  /** The grace period less the readiness margin is exactly the protected window. */
  lemma ProtectedIff(p: Params, c: nat)
    ensures AlwaysProtected(p, c) <==> c + p.gap < p.grace
  {
    if c + p.gap < p.grace {
      forall s: State, i: nat | Reaches(p, s) && HoldsSince(s, i, c) ensures s.life == s.imports[i].desc.life {
        var states: seq<State>, steps: seq<Step> :| Run(p, states, steps) && states[|steps|] == s;
        NeverRecycledUnderReader(p, states, steps, |steps|, i);
      }
    } else {
      ReachesOvertaken(p, c);
      assert HoldsSince(Overtaken(p, c), 0, c);
    }
  }

  // ------------------------------------------- unfinished reads at a hand-out

  /** An unfinished read of import `i` when `allocate` can return the block. */
  ghost predicate HandedOutUnder(p: Params, s: State, s': State, i: nat, k: nat, q: nat) {
    HandOut(p, s, s') && Unfinished(s, k, q) && s.streams[k].ops[q] == Read(Importer(i)) && i in s.imports
  }

  /** No hand-out, in any run, finds an unfinished read of an import that counted
      in `c` after its stamp. */
  ghost predicate NeverHandedOutUnder(p: Params, c: nat) {
    forall s: State, s': State, i: nat, k: nat, q: nat | Reaches(p, s) && HandedOutUnder(p, s, s', i, k, q) ::
      s.imports[i].countedAt != s.imports[i].desc.stamp + c
  }

  /** The published block with a passed refcount load, and import 0 counted in. */
  function Tested(p: Params, c: nat, stage: Stage): State {
    PUBLISHED.(now := 1 + c, refcount := 1, imports := map[0 := CountedImport(stage, c)], test := GotCount(1 + c, {0}))
  }

  const ONE_READ: Streams := [Stream([], 0), Stream([Read(Importer(0))], 0)]

  /** The same with a read enqueued, at a time when the stamp has aged. */
  function Reading(p: Params, c: nat): State {
    Tested(p, c, Live).(
      now := 1 + Later(p, c), streams := ONE_READ, test := GotStamp(1 + c, {0}, 1),
      imports := map[0 := CountedImport(Live, c).(open := multiset{1})])
  }

  lemma ReachesCounted(p: Params, c: nat)
    requires c + p.gap >= p.grace
    ensures Reaches(p, Tested(p, c, Counted))
  {
    ReachesPublished(p);
    var s1 := PUBLISHED.(now := 1 + c);
    ReachesNext(p, PUBLISHED, s1, OnQueue(TickStep(c)));
    var s2 := s1.(test := GotCount(1 + c, {}));
    ReachesNext(p, s1, s2, ByPool(LoadCountStep));
    var s3 := Tested(p, c, Counted);
    assert s2.imports[0 := CountedImport(Counted, c)] == s3.imports && s2.test.raced + {0} == {0};
    ReachesNext(p, s2, s3, ByImporter(CountInStep(0)));
  }

  lemma ReachesTested(p: Params, c: nat)
    requires c + p.gap >= p.grace
    ensures Reaches(p, Tested(p, c, Live))
  {
    ReachesCounted(p, c);
    var s3, s4 := Tested(p, c, Counted), Tested(p, c, Checked);
    assert s3.imports[0 := CountedImport(Checked, c)] == s4.imports;
    ReachesNext(p, s3, s4, ByImporter(CheckUidStep(0)));
    assert s4.imports[0 := CountedImport(Live, c)] == Tested(p, c, Live).imports;
    ReachesNext(p, s4, Tested(p, c, Live), ByImporter(GoLiveStep(0)));
  }

  lemma ReachesQueued(p: Params, c: nat)
    requires c + p.gap >= p.grace
    ensures Reaches(p, Reading(p, c).(now := 1 + c, test := GotCount(1 + c, {0})))
  {
    ReachesTested(p, c);
    var s4 := Tested(p, c, Live);
    var open := CountedImport(Live, c).(open := multiset{1});
    var s5 := s4.(imports := map[0 := open]);
    assert s4.imports[0 := open] == s5.imports && s4.imports[0].open + multiset{1} == open.open;
    ReachesNext(p, s4, s5, ByReader(OpenReadStep(0, 1)));
    assert s5.streams[1].ops + [Read(Importer(0))] == [Read(Importer(0))];
    assert ONE_READ == Append(s5.streams, 1, Read(Importer(0)));
    ReachesNext(p, s5, s5.(streams := ONE_READ), ByReader(EnqueueReadStep(0, 1)));
  }

  lemma ReachesReading(p: Params, c: nat)
    requires c + p.gap >= p.grace
    ensures Reaches(p, Reading(p, c))
  {
    ReachesQueued(p, c);
    var s6 := Reading(p, c).(now := 1 + c, test := GotCount(1 + c, {0}));
    var s7 := s6.(now := 1 + Later(p, c));
    ReachesNext(p, s6, s7, OnQueue(TickStep(Later(p, c) - c)));
    ReachesNext(p, s7, Reading(p, c), ByPool(LoadStampStep));
  }

  /** The block is handed out under an unfinished read exactly when the import was
      not protected. */
  lemma UnfinishedReadIff(p: Params, c: nat)
    ensures NeverHandedOutUnder(p, c) <==> c + p.gap < p.grace
  {
    if c + p.gap < p.grace {
      forall s: State, s': State, i: nat, k: nat, q: nat | Reaches(p, s) && HandedOutUnder(p, s, s', i, k, q)
        ensures s.imports[i].countedAt != s.imports[i].desc.stamp + c
      {
        UnfinishedMeansLate(p, s, s', i, k, q);
      }
    } else {
      ReachesReading(p, c);
      var s := Reading(p, c);
      var s' := s.(
        test := Idle, phase := Leased, life := 2, currentUid := 0, stamp := 0,
        handle := Unset, writeEvent := None, open := multiset{}, events := {}, lifeStart := 0);
      assert HandedOutUnder(p, s, s', 0, 1, 0);
    }
  }

  lemma UnfinishedMeansLate(p: Params, s: State, s': State, i: nat, k: nat, q: nat)
    requires Reaches(p, s) && HandedOutUnder(p, s, s', i, k, q)
    ensures !Timely(p, s.imports[i].desc, s.imports[i].countedAt)
  {
    var states: seq<State>, steps: seq<Step> :| Run(p, states, steps) && states[|steps|] == s;
    HandOutFindsWorkFinished(p, states, steps, |steps|, s', k, q);
    RunInv(p, states, steps, |steps|);
    assert Answered(s.phase, s.open, s.events, s.imports, Importer(i), k, q);
    assert ImportOk(p, s.imports[i], s.sent, s.now, s.life);
  }

  // --------------------------------------------- writing after publishing

  /** Every timely reader, in every run, finds exactly what was published, given
      whether its lease has taken a write handle after being published. */
  ghost predicate AlwaysExact(p: Params, late: bool) {
    forall s: State, o: nat | Reaches(p, s) && o < |s.seen| && s.seen[o].timely && s.seen[o].late == late ::
      |s.seen[o].contents| == s.seen[o].desc.length
  }

  /** The block published unwritten and still leased, with a timely import of it. */
  function Shared(p: Params, stage: Stage): State {
    PUBLISHED.(phase := Leased, refcount := 1, imports := map[0 := TimelyImport(stage)])
  }

  function TimelyImport(stage: Stage): Import {
    Import(SENT_DESC, stage, 1, true, multiset{}, {})
  }

  lemma ReachesShared(p: Params)
    requires p.gap < p.grace
    ensures Reaches(p, Shared(p, Live))
  {
    ReachesReceived(p);
    var s1 := PUBLISHED.(phase := Leased);
    var s2, s3 := Shared(p, Counted), Shared(p, Checked);
    assert s1.imports[0 := TimelyImport(Counted)] == s2.imports;
    ReachesNext(p, s1, s2, ByImporter(CountInStep(0)));
    assert s2.imports[0 := TimelyImport(Checked)] == s3.imports;
    ReachesNext(p, s2, s3, ByImporter(CheckUidStep(0)));
    assert s3.imports[0 := TimelyImport(Live)] == Shared(p, Live).imports;
    ReachesNext(p, s3, Shared(p, Live), ByImporter(GoLiveStep(0)));
  }

  /** A write handle taken after publishing: the timely reader finds its write. */
  lemma ReachesLateWrite(p: Params, patch: Patch) returns (s: State)
    requires p.gap < p.grace
    ensures Reaches(p, s)
    ensures |s.seen| == 1 && s.seen[0].timely && s.seen[0].late && s.seen[0].contents == [patch] && s.seen[0].desc.length == 0
  {
    ReachesShared(p);
    var s0 := Shared(p, Live);
    var s1 := s0.(handle := InUse, writeStream := 0);
    ReachesNext(p, s0, s1, ByWriter(BeginWriteStep(0)));
    var s2 := s1.(streams := [Stream([Write(0)], 0), Stream([], 0)], issued := [patch], issuedAt := [Event(0, 1)]);
    assert s1.streams[0].ops + [Write(0)] == [Write(0)] && s2.streams == Append(s1.streams, 0, Write(0));
    ReachesNext(p, s1, s2, ByWriter(EnqueueWriteStep(patch)));
    var s3 := s2.(streams := WRITTEN, memory := [patch]);
    assert s3.streams == Advance(s2.streams, 0);
    ReachesNext(p, s2, s3, OnQueue(ExecStep(0)));
    s := ReadsOnce(p, s3, TimelyImport(Live));
  }

  /** A protected reader is sure to find exactly the published bytes if and only if
      the lease takes no write handle after publishing.  (Without any protected
      window there is no such reader.) */
  lemma PublishedBytesIff(p: Params, late: bool)
    ensures AlwaysExact(p, late) <==> !late || p.gap >= p.grace
  {
    forall s: State, o: nat | Reaches(p, s) && o < |s.seen| && s.seen[o].timely
      ensures p.gap < p.grace && (!s.seen[o].late ==> |s.seen[o].contents| == s.seen[o].desc.length)
    {
      var states: seq<State>, steps: seq<Step> :| Run(p, states, steps) && states[|steps|] == s;
      RunInv(p, states, steps, |steps|);
    }
    if late && p.gap < p.grace {
      var s := ReachesLateWrite(p, Patch(0, []));
      assert |s.seen[0].contents| == 1;
    }
  }
}
