/**
  The operations of the classes are runs of the block protocol: what the pool and
  an importer do to the metadata of a block is a sequence of protocol steps.  The
  protocol lets the steps of others fall between any two of them.
 */
module ProtocolSteps {
  import opened Outcomes
  import opened MachineIntegers
  import Pool = BlockPool
  import Ipc = IpcImport
  import opened BlockProtocol

  /** The metadata and the publisher's uid of a shared block. */
  datatype Meta = Meta(refcount: int, uid: nat, stamp: nat, currentUid: nat)

  function OfState(s: State): Meta {
    Meta(s.refcount, s.uid, s.stamp, s.currentUid)
  }

  function OfBlock(block: Pool.VmmBlock): Meta
    reads block
  {
    Meta(block.refcount, block.sharedUid, block.stamp, block.currentUid)
  }

  /** Protocol steps that lead from the first to the last of `states`. */
  ghost predicate Path(p: Params, states: seq<State>, steps: seq<Step>) {
    && |states| == |steps| + 1
    && forall n {:trigger steps[n]} | 0 <= n < |steps| :: Takes(p, states[n], states[n + 1], steps[n])
  }

  /** A readiness test of a free block, `wait` from now, that ends with `last`. */
  function TestSteps(wait: nat, last: PoolStep): seq<Step> {
    [OnQueue(TickStep(wait)), ByPool(LoadCountStep), ByPool(LoadStampStep), ByPool(last)]
  }

  ghost predicate TestEnds(p: Params, s: State, wait: nat, last: PoolStep, s': State) {
    exists states :: Path(p, states, TestSteps(wait, last)) && states[0] == s && states[4] == s'
  }

  function HandedOut(s: State): State {
    s.(test := Idle, phase := Leased, life := s.life + 1, currentUid := 0, stamp := 0,
       handle := Unset, writeEvent := None, open := multiset{}, events := {}, lifeStart := |s.issued|)
  }

  /** `s` with the count and the stamp loaded at time `s.now`. */
  function Tested(s: State): State {
    s.(test := GotStamp(s.now, {}, s.stamp))
  }

  /** Where a test that nothing races ends, and that no other end is possible. */
  ghost predicate TestResult(p: Params, t: State, last: PoolStep, s': State) {
    t.refcount <= 0 && TakesPool(p, Tested(t), s', last)
  }

  lemma TestForced(p: Params, s: State, wait: nat, last: PoolStep, states: seq<State>)
    requires s.phase == Free && s.test == Idle
    requires Path(p, states, TestSteps(wait, last)) && states[0] == s
    ensures TestResult(p, s.(now := s.now + wait), last, states[4])
  {
    var steps := TestSteps(wait, last);
    assert steps[0] == OnQueue(TickStep(wait)) && steps[1] == ByPool(LoadCountStep);
    assert steps[2] == ByPool(LoadStampStep) && steps[3] == ByPool(last);
    assert Takes(p, states[0], states[1], steps[0]);
    assert LoadCount(states[1], states[2]);
    assert LoadStamp(states[2], states[3]);
    assert states[3] == Tested(states[1]);
  }

  lemma TestRuns(p: Params, s: State, wait: nat, last: PoolStep, s': State) returns (states: seq<State>)
    requires s.phase == Free && s.test == Idle
    requires TestResult(p, s.(now := s.now + wait), last, s')
    ensures Path(p, states, TestSteps(wait, last)) && states[0] == s && states[4] == s'
    ensures TestEnds(p, s, wait, last, s')
  {
    var t := s.(now := s.now + wait);
    states := [s, t, t.(test := GotCount(t.now, {})), Tested(t), s'];
  }

  /** What a test decides that nothing races: it hands the block out, declines it
      and changes nothing, or does not get past a positive count. */
  lemma TestDecides(p: Params, s: State, wait: nat, last: PoolStep, s': State)
    requires s.phase == Free && s.test == Idle && last in {HandOutStep, DeclineStep}
    ensures var ready, t := s.stamp == 0 || s.stamp + p.grace <= s.now + wait, s.(now := s.now + wait);
            TestEnds(p, s, wait, last, s') <==>
              s.refcount <= 0 && if last == HandOutStep then ready && s' == HandedOut(t) else !ready && s' == t
  {
    var t := s.(now := s.now + wait);
    if TestEnds(p, s, wait, last, s') {
      var states :| Path(p, states, TestSteps(wait, last)) && states[0] == s && states[4] == s';
      TestForced(p, s, wait, last, states);
    } else if TestResult(p, t, last, s') {
      var states := TestRuns(p, s, wait, last, s');
    }
    assert Tested(t).(test := Idle) == t;
  }

  lemma ReadyIsHandedOut(p: Params, s: State, now: nat) returns (states: seq<State>, steps: seq<Step>)
    requires s.phase == Free && s.test == Idle && s.now <= now
    requires s.refcount <= 0 && (s.stamp == 0 || s.stamp + p.grace <= now)
    ensures Path(p, states, steps) && states[0] == s && ByPool(HandOutStep) in steps
    ensures states[|steps|].phase == Leased && OfState(states[|steps|]) == Meta(s.refcount, s.uid, 0, 0)
  {
    var t := HandedOut(s.(now := now));
    TestDecides(p, s, now - s.now, HandOutStep, t);
    steps := TestSteps(now - s.now, HandOutStep);
    states :| Path(p, states, steps) && states[0] == s && states[4] == t;
    assert steps[3] == ByPool(HandOutStep);
  }

  /** The test of a candidate at time `now` does not get past its count, or
      declines it and changes nothing. */
  ghost predicate Refused(p: Params, s: State, now: nat) {
    s.now <= now && (s.refcount > 0 || TestEnds(p, s, now - s.now, DeclineStep, s.(now := now)))
  }

  lemma UnreadyIsRefused(p: Params, s: State, now: nat)
    requires s.phase == Free && s.test == Idle && s.now <= now
    ensures Refused(p, s, now) <==> s.refcount > 0 || (s.stamp != 0 && now < s.stamp + p.grace)
    ensures s.refcount > 0 ==> forall s' :: !TakesPool(p, s.(now := now), s', LoadCountStep)
  {
    TestDecides(p, s, now - s.now, DeclineStep, s.(now := now));
  }

  /** The states of the blocks that a pool may recycle. */
  ghost predicate Models(pool: Pool.CudaMemoryPool, clock: nat -> nat, stateOf: Pool.VmmBlock -> State)
    reads pool, pool.allBlocks
  {
    forall b | b in pool.allBlocks && b !in pool.leased && b.hasMeta ::
      var s := stateOf(b); OfState(s) == OfBlock(b) && s.phase == Free && s.test == Idle && forall i :: s.now <= clock(i)
  }

  lemma CandidatesTested(pool: Pool.CudaMemoryPool, clock: nat -> nat, p: Params, stateOf: Pool.VmmBlock -> State)
    requires pool.Valid() && p.grace == pool.grace && Models(pool, clock, stateOf)
    ensures forall k: nat, j: nat | k in pool.freeBlocks && j < |pool.freeBlocks[k]| ::
              var b := pool.freeBlocks[k][j];
              b.hasMeta && (b.refcount > 0 || (b.stamp != 0 && clock(j) < b.stamp + pool.grace)) ==> Refused(p, stateOf(b), clock(j))
  {
    forall k: nat, j: nat | k in pool.freeBlocks && j < |pool.freeBlocks[k]| && pool.freeBlocks[k][j].hasMeta
      ensures var b, s := pool.freeBlocks[k][j], stateOf(pool.freeBlocks[k][j]);
              Refused(p, s, clock(j)) <==> b.refcount > 0 || (b.stamp != 0 && clock(j) < b.stamp + p.grace)
    {
      assert pool.freeBlocks[k][j] in pool.freeBlocks[k];
      UnreadyIsRefused(p, stateOf(pool.freeBlocks[k][j]), clock(j));
    }
  }

  /** Recycling a shared block is a passed readiness test and the hand-out, and
      every block passed over for it is refused by its test. */
  method RecycleTakesSteps(pool: Pool.CudaMemoryPool, aligned: Size, clock: nat -> nat, ghost p: Params, ghost stateOf: Pool.VmmBlock -> State)
    returns (r: Option<Pool.VmmBlock>, ghost key: nat, ghost at: nat, ghost states: seq<State>, ghost steps: seq<Step>)
    requires pool.Valid() && p.grace == pool.grace && Models(pool, clock, stateOf)
    modifies pool`freeBlocks, pool`leased, pool.allBlocks
    ensures pool.Valid()
    ensures r.Some? && r.value.hasMeta ==>
              && Path(p, states, steps) && states[0] == stateOf(r.value)
              && ByPool(HandOutStep) in steps && states[|steps|].phase == Leased
              && OfState(states[|steps|]) == OfBlock(r.value)
    ensures r.Some? ==>
              && key in old(pool.freeBlocks) && at < |old(pool.freeBlocks)[key]| && r.value == old(pool.freeBlocks)[key][at]
              && forall j: nat | j < at :: Refused(p, stateOf(old(pool.freeBlocks)[key][j]), clock(j))
    ensures r.None? ==>
              forall k: nat, j: nat |
                && k in old(pool.freeBlocks) && aligned <= k && (forall k' | k' in old(pool.freeBlocks).Keys && aligned <= k' :: k <= k')
                && j < |old(pool.freeBlocks)[k]| ::
                  Refused(p, stateOf(old(pool.freeBlocks)[k][j]), clock(j))
  {
    CandidatesTested(pool, clock, p, stateOf);
    r, key, at := pool.Recycle(aligned, clock);
    states, steps := [], [];
    if r.Some? && r.value.hasMeta {
      ghost var s := stateOf(r.value);
      assert old(r.value in pool.allBlocks && r.value !in pool.leased && OfState(s) == OfBlock(r.value));
      states, steps := ReadyIsHandedOut(p, s, clock(at));
    }
  }

  /** Assigning a uid is its two stores, or nothing on a lease that has one. */
  method AssignUidTakesSteps(pool: Pool.CudaMemoryPool, block: Pool.VmmBlock, drawn: Size, ghost p: Params, ghost s: State, now: Size)
    returns (uid: Size, ghost states: seq<State>, ghost steps: seq<Step>)
    requires block.hasMeta && OfState(s) == OfBlock(block) && s.phase == Leased && s.publishing == Quiet
    requires s.now == now && drawn != 0 && drawn !in s.usedUids
    modifies block
    ensures Path(p, states, steps) && states[0] == s
    ensures states[|steps|].publishing == Stamped && states[|steps|].currentUid == uid
    ensures OfState(states[|steps|]) == OfBlock(block)
  {
    uid := pool.AssignUid(block, drawn, now);
    if s.currentUid != 0 {
      states, steps := [s, s.(publishing := Stamped)], [ByPublisher(RepublishStep)];
    } else {
      ghost var s1 := s.(currentUid := uid, uid := uid, uidLife := s.life, usedUids := s.usedUids + {uid}, publishing := UidStored);
      states := [s, s1, s1.(stamp := s1.now, publishing := Stamped)];
      steps := [ByPublisher(StoreUidStep(uid)), ByPublisher(StoreStampStep)];
    }
  }

  /** `s` with import `i` at `stage` and the given shared count. */
  function AtStage(s: State, i: nat, stage: Stage, refcount: int): State
    requires i in s.imports
  {
    s.(refcount := refcount, imports := s.imports[i := s.imports[i].(stage := stage)])
  }

  /** The state after `CountIn`. */
  function CountedIn(p: Params, s: State, i: nat): State
    requires i in s.imports
  {
    s.(refcount := s.refcount + 1,
       imports := s.imports[i := s.imports[i].(
         stage := Counted, countedAt := s.now, timely := Timely(p, s.imports[i].desc, s.now))],
       test := match s.test
               case Idle => Idle
               case GotCount(at, raced) => GotCount(at, raced + {i})
               case GotStamp(at, raced, stamp) => GotStamp(at, raced + {i}, stamp))
  }

  /** Counting in and the uid check, which begin every import. */
  lemma ImportBegins(p: Params, s: State, i: nat)
    requires i in s.imports && s.imports[i].stage == Requested
    ensures var s1 := CountedIn(p, s, i);
            && Takes(p, s, s1, ByImporter(CountInStep(i)))
            && Takes(p, s1, AtStage(s1, i, if s.uid == s.imports[i].desc.uid then Checked else Failing, s1.refcount),
                     ByImporter(CheckUidStep(i)))
  {
  }

  /** The steps of an import, by its outcome; one that escapes its clean-up stops
      after the uid check, and its count stays. */
  lemma ImportPath(p: Params, s: State, i: nat, r: Result<Ipc.Imported, Ipc.Fault>) returns (states: seq<State>, steps: seq<Step>)
    requires i in s.imports && s.imports[i].stage == Requested
    requires r == Err(Ipc.StaleUid) <==> s.uid != s.imports[i].desc.uid
    ensures Path(p, states, steps) && states[0] == s
    ensures var f := states[|steps|];
            && i in f.imports && f.uid == s.uid
            && f.imports[i].stage == (if r.Ok? then Live else if r == Err(Ipc.InvalidSocketName) then Checked else Rejected)
            && f.refcount == s.refcount + (if r.Ok? || r == Err(Ipc.InvalidSocketName) then 1 else 0)
  {
    ImportBegins(p, s, i);
    var s1 := CountedIn(p, s, i);
    var passed := AtStage(s1, i, Checked, s1.refcount);
    var failing := AtStage(s1, i, Failing, s1.refcount);
    states, steps := [s, s1, passed], [ByImporter(CountInStep(i)), ByImporter(CheckUidStep(i))];
    if r.Ok? {
      states, steps := states + [AtStage(passed, i, Live, s1.refcount)], steps + [ByImporter(GoLiveStep(i))];
    } else if r.error == Ipc.StaleUid {
      states, steps := [s, s1, failing, AtStage(failing, i, Rejected, s.refcount)], steps + [ByImporter(CountOutFailedStep(i))];
    } else if r.error != Ipc.InvalidSocketName {
      states := states + [AtStage(passed, i, Failing, s1.refcount), AtStage(failing, i, Rejected, s.refcount)];
      steps := steps + [ByImporter(MapFailsStep(i)), ByImporter(CountOutFailedStep(i))];
    }
  }

  /** Every exit of an import is a run of the protocol that ends with the same
      shared count. */
  method ImportTakesSteps(importer: Ipc.Importer, socketName: string, key: Ipc.Key, size: Size, expected: Size, world: Ipc.World,
                          ghost p: Params, ghost s: State, ghost i: nat)
    returns (r: Result<Ipc.Imported, Ipc.Fault>, ghost states: seq<State>, ghost steps: seq<Step>)
    requires expected != 0
    requires i in s.imports && s.imports[i].stage == Requested && s.imports[i].desc.uid == expected
    requires var meta := importer.MetaOf(key, world); meta != null && meta.refcount == s.refcount && meta.uid == s.uid
    modifies importer`cache, importer.MetaOf(key, world)
    ensures Path(p, states, steps) && states[0] == s
    ensures var f, meta := states[|steps|], old(importer.MetaOf(key, world));
            && meta.refcount == f.refcount && meta.uid == f.uid && i in f.imports
            && (r.Ok? <==> f.imports[i].stage == Live)
            && (r == Err(Ipc.InvalidSocketName) <==> f.imports[i].stage == Checked)
            && (r.Err? && r.error != Ipc.InvalidSocketName <==> f.imports[i].stage == Rejected)
  {
    r := importer.ImportBlock(socketName, key, size, expected, world);
    states, steps := ImportPath(p, s, i, r);
  }
}
