/**
  The broker's shutdown handshake: the destructor, the accepting worker, detached
  connection handlers and callers of the broker, interleaved step by step.

  A handler that finds no entry counts itself out while it still holds the lock,
  so a count of zero does not yet mean that no handler is inside.
 */
module BrokerShutdown {
  /** `Counted` is between counting a connection in and starting its handler. */
  datatype Worker = Checking | Accepting | Accepted | Counted | Done

  datatype Handler =
    | Receiving   // reading the request
    | Wanting     // about to take the lock
    | Looking     // in the table lookup, holding the lock
    | MissTail    // counted out after a miss, still holding the lock
    | Responding  // lock released, sending
    | Finished

  datatype Destructor = Idle | Stopping | Joined | Drained | Closing | Closed

  datatype Lock = Free | HeldByHandler(h: nat) | HeldByCaller | HeldByDestructor

  datatype State = State(
    running: bool, worker: Worker, handlers: seq<Handler>, active: int, lock: Lock, destructor: Destructor)

  /** Without a socket the broker never runs and has no worker. */
  predicate Init(s: State) {
    && s.handlers == [] && s.active == 0 && s.lock.Free? && s.destructor.Idle?
    && s.worker == (if s.running then Checking else Done)
  }

  datatype Step =
    | WorkerChecks | ConnectionArrives | AcceptFails | WorkerCounts | WorkerSpawns
    | ShortRequest(h: nat) | FullRequest(h: nat) | TakesLock(h: nat) | Hit(h: nat) | Miss(h: nat)
    | Unlocks(h: nat) | Responds(h: nat)
    | CallerLocks | CallerUnlocks
    | Stop | Join | SeesZero | DestructorLocks | Teardown

  predicate HandlerStep(s: State, s': State, h: nat, from: Handler, to: Handler, active: int, lock: Lock) {
    && h < |s.handlers| && s.handlers[h] == from
    && s' == s.(handlers := s.handlers[h := to], active := active, lock := lock)
  }

  predicate Takes(s: State, s': State, step: Step) {
    match step
    case WorkerChecks => s.worker.Checking? && s' == s.(worker := if s.running then Accepting else Done)
    case ConnectionArrives => s.worker.Accepting? && s' == s.(worker := Accepted)
    case AcceptFails => s.worker.Accepting? && s' == s.(worker := if s.running then Checking else Done)
    case WorkerCounts => s.worker.Accepted? && s' == s.(worker := Counted, active := s.active + 1)
    case WorkerSpawns => s.worker.Counted? && s' == s.(worker := Checking, handlers := s.handlers + [Receiving])
    case ShortRequest(h) => HandlerStep(s, s', h, Receiving, Finished, s.active - 1, s.lock)
    case FullRequest(h) => HandlerStep(s, s', h, Receiving, Wanting, s.active, s.lock)
    case TakesLock(h) => s.lock.Free? && HandlerStep(s, s', h, Wanting, Looking, s.active, HeldByHandler(h))
    case Hit(h) => HandlerStep(s, s', h, Looking, Responding, s.active, Free)
    case Miss(h) => HandlerStep(s, s', h, Looking, MissTail, s.active - 1, s.lock)
    case Unlocks(h) => HandlerStep(s, s', h, MissTail, Finished, s.active, Free)
    case Responds(h) => HandlerStep(s, s', h, Responding, Finished, s.active - 1, s.lock)
    case CallerLocks => s.lock.Free? && !s.destructor.Closed? && s' == s.(lock := HeldByCaller)
    case CallerUnlocks => s.lock.HeldByCaller? && s' == s.(lock := Free)
    case Stop => s.destructor.Idle? && s' == s.(destructor := Stopping, running := false)
    case Join => s.destructor.Stopping? && s.worker.Done? && s' == s.(destructor := Joined)
    case SeesZero => s.destructor.Joined? && s.active <= 0 && s' == s.(destructor := Drained)
    case DestructorLocks => s.destructor.Drained? && s.lock.Free? && s' == s.(destructor := Closing, lock := HeldByDestructor)
    case Teardown => s.destructor.Closing? && s' == s.(destructor := Closed, lock := Free)
  }

  ghost predicate Run(states: seq<State>, steps: seq<Step>) {
    && |states| == |steps| + 1 && Init(states[0])
    && forall n {:trigger steps[n]} | 0 <= n < |steps| :: Takes(states[n], states[n + 1], steps[n])
  }

  predicate CountedIn(h: Handler) {
    !h.Finished? && !h.MissTail?
  }

  function Count(handlers: seq<Handler>): nat {
    if handlers == [] then 0
    else Count(handlers[..|handlers| - 1]) + (if CountedIn(handlers[|handlers| - 1]) then 1 else 0)
  }

  lemma {:induction false} CountUpdate(handlers: seq<Handler>, h: nat, to: Handler)
    requires h < |handlers|
    ensures Count(handlers[h := to])
         == Count(handlers) - (if CountedIn(handlers[h]) then 1 else 0) + (if CountedIn(to) then 1 else 0)
  {
    var n := |handlers| - 1;
    var updated := handlers[h := to];
    if h == n {
      assert updated[..n] == handlers[..n];
    } else {
      assert updated[..n] == handlers[..n][h := to];
      CountUpdate(handlers[..n], h, to);
    }
  }

  lemma {:induction false} ZeroCount(handlers: seq<Handler>)
    ensures Count(handlers) == 0 <==> forall h | 0 <= h < |handlers| :: !CountedIn(handlers[h])
  {
    if handlers != [] {
      ZeroCount(handlers[..|handlers| - 1]);
    }
  }

  predicate Inside(h: Handler) {
    h.Looking? || h.MissTail?
  }

  ghost predicate LockOk(handlers: seq<Handler>, lock: Lock) {
    forall h | 0 <= h < |handlers| :: Inside(handlers[h]) <==> lock == HeldByHandler(h)
  }

  predicate ShutdownOk(running: bool, worker: Worker, active: int, lock: Lock, destructor: Destructor) {
    && (running ==> destructor.Idle?)
    && (!destructor.Idle? && !destructor.Stopping? ==> worker.Done?)
    && (destructor.Drained? || destructor.Closing? || destructor.Closed? ==> active == 0)
    && (lock.HeldByDestructor? <==> destructor.Closing?)
    && (destructor.Closed? ==> lock.Free?)
  }

  ghost predicate Inv(s: State) {
    && s.active == Count(s.handlers) + (if s.worker.Counted? then 1 else 0)
    && LockOk(s.handlers, s.lock)
    && ShutdownOk(s.running, s.worker, s.active, s.lock, s.destructor)
    && (s.lock.HeldByHandler? ==> s.lock.h < |s.handlers|)
  }

  lemma HandlerStepInv(s: State, s': State, h: nat, from: Handler, to: Handler, active: int, lock: Lock)
    requires Inv(s) && HandlerStep(s, s', h, from, to, active, lock)
    requires active - s.active == (if CountedIn(to) then 1 else 0) - (if CountedIn(from) then 1 else 0)
    requires if Inside(from) then lock == (if Inside(to) then s.lock else Free)
             else if Inside(to) then s.lock.Free? && lock == HeldByHandler(h) else lock == s.lock
    requires !from.Finished? && (CountedIn(to) ==> CountedIn(from))
    ensures Inv(s')
  {
    CountUpdate(s.handlers, h, to);
    ZeroCount(s.handlers);
    assert CountedIn(from) ==> s.active > 0;
  }

  lemma StepInv(s: State, s': State, step: Step)
    requires Inv(s) && Takes(s, s', step)
    ensures Inv(s')
  {
    match step
    case ShortRequest(h) => HandlerStepInv(s, s', h, Receiving, Finished, s.active - 1, s.lock);
    case FullRequest(h) => HandlerStepInv(s, s', h, Receiving, Wanting, s.active, s.lock);
    case TakesLock(h) => HandlerStepInv(s, s', h, Wanting, Looking, s.active, HeldByHandler(h));
    case Hit(h) => HandlerStepInv(s, s', h, Looking, Responding, s.active, Free);
    case Miss(h) => HandlerStepInv(s, s', h, Looking, MissTail, s.active - 1, s.lock);
    case Unlocks(h) => HandlerStepInv(s, s', h, MissTail, Finished, s.active, Free);
    case Responds(h) => HandlerStepInv(s, s', h, Responding, Finished, s.active - 1, s.lock);
    case WorkerSpawns =>
      assert s'.handlers[..|s.handlers|] == s.handlers;
      assert forall h | 0 <= h < |s.handlers| :: s'.handlers[h] == s.handlers[h];
    case _ =>
  }

  lemma {:induction false} RunInv(states: seq<State>, steps: seq<Step>, n: nat)
    requires Run(states, steps) && n < |states|
    ensures Inv(states[n])
  {
    if n > 0 {
      RunInv(states, steps, n - 1);
      StepInv(states[n - 1], states[n], steps[n - 1]);
    }
  }

  /** In every interleaving: once the destructor closes entries, every handler
      ever started has finished, none can start, and nobody else has the lock. */
  lemma ClosingFindsNoHandler(states: seq<State>, steps: seq<Step>, n: nat)
    requires Run(states, steps) && n < |states|
    requires states[n].destructor.Closing? || states[n].destructor.Closed?
    ensures forall h | 0 <= h < |states[n].handlers| :: states[n].handlers[h].Finished?
    ensures states[n].worker.Done? && states[n].active == 0
    ensures states[n].destructor.Closing? ==> states[n].lock.HeldByDestructor?
  {
    RunInv(states, steps, n);
    ZeroCount(states[n].handlers);
    assert forall h | 0 <= h < |states[n].handlers| :: !Inside(states[n].handlers[h]);
  }

  /** In every interleaving the counter is the number of connections between
      their counting in and out. */
  lemma CounterIsExact(states: seq<State>, steps: seq<Step>, n: nat)
    requires Run(states, steps) && n < |states|
    ensures states[n].active == Count(states[n].handlers) + (if states[n].worker.Counted? then 1 else 0)
    ensures states[n].active >= 0
  {
    RunInv(states, steps, n);
  }

  ghost predicate Reachable(s: State) {
    exists states, steps :: Run(states, steps) && states[|steps|] == s
  }

  lemma ReachesNext(s: State, s': State, step: Step)
    requires Reachable(s) && Takes(s, s', step)
    ensures Reachable(s')
  {
    var states, steps :| Run(states, steps) && states[|steps|] == s;
    var more, taken := states + [s'], steps + [step];
    forall n {:trigger taken[n]} | 0 <= n < |taken| ensures Takes(more[n], more[n + 1], taken[n]) {
      if n < |steps| {
        assert taken[n] == steps[n] && more[n] == states[n] && more[n + 1] == states[n + 1];
      }
    }
    assert Run(more, taken) && more[|taken|] == s';
  }

  lemma ReachesOneHandler() returns (s: State)
    ensures s == State(true, Checking, [Receiving], 1, Free, Idle) && Reachable(s)
  {
    var s0 := State(true, Checking, [], 0, Free, Idle);
    var s1, s2 := s0.(worker := Accepting), s0.(worker := Accepted);
    var s3 := s0.(worker := Counted, active := 1);
    s := s3.(worker := Checking, handlers := [Receiving]);
    assert Run([s0], []) && [s0][0] == s0;
    ReachesNext(s0, s1, WorkerChecks);
    ReachesNext(s1, s2, ConnectionArrives);
    ReachesNext(s2, s3, WorkerCounts);
    assert [] + [Receiving] == [Receiving];
    ReachesNext(s3, s, WorkerSpawns);
  }

  /** In every interleaving, a handler is inside exactly while a handler has the
      lock; with the counter at zero it is one that missed. */
  lemma InsideIff(states: seq<State>, steps: seq<Step>, n: nat)
    requires Run(states, steps) && n < |states|
    ensures (exists h :: 0 <= h < |states[n].handlers| && Inside(states[n].handlers[h])) <==> states[n].lock.HeldByHandler?
    ensures states[n].active == 0 ==>
              forall h | 0 <= h < |states[n].handlers| && Inside(states[n].handlers[h]) :: states[n].handlers[h].MissTail?
  {
    var s := states[n];
    RunInv(states, steps, n);
    ZeroCount(s.handlers);
    if s.lock.HeldByHandler? {
      assert Inside(s.handlers[s.lock.h]);
    }
  }

  /** The counter alone would not do: the destructor can see zero with a handler
      still inside, which only the lock makes it wait for. */
  lemma ZeroWithHandlerInside() returns (s: State)
    ensures Reachable(s) && s.destructor.Drained? && s.handlers == [MissTail] && s.lock == HeldByHandler(0)
  {
    var s4 := ReachesOneHandler();
    var s5 := s4.(handlers := s4.handlers[0 := Wanting]);
    var s6 := s5.(handlers := s5.handlers[0 := Looking], lock := HeldByHandler(0));
    var s7 := s6.(handlers := s6.handlers[0 := MissTail], active := 0);
    ReachesNext(s4, s5, FullRequest(0));
    ReachesNext(s5, s6, TakesLock(0));
    ReachesNext(s6, s7, Miss(0));
    var s8 := s7.(destructor := Stopping, running := false);
    var s9 := s8.(worker := Done);
    var s10 := s9.(destructor := Joined);
    s := s10.(destructor := Drained);
    ReachesNext(s7, s8, Stop);
    ReachesNext(s8, s9, WorkerChecks);
    ReachesNext(s9, s10, Join);
    ReachesNext(s10, s, SeesZero);
  }

  /** The step by which a handler goes on. */
  function NextOf(handler: Handler, h: nat): Step {
    match handler
    case Receiving => ShortRequest(h)
    case Wanting => TakesLock(h)
    case Looking => Miss(h)
    case MissTail => Unlocks(h)
    case Responding => Responds(h)
    case Finished => Stop
  }

  /** The destructor is never stuck: until it is through, somebody can move. */
  lemma NeverStuck(s: State) returns (step: Step, s': State)
    requires Inv(s) && !s.destructor.Idle? && !s.destructor.Closed?
    ensures Takes(s, s', step)
  {
    if s.lock.HeldByHandler? {
      var h := s.lock.h;
      assert Inside(s.handlers[h]);
      step := NextOf(s.handlers[h], h);
      s' := if step.Miss? then s.(handlers := s.handlers[h := MissTail], active := s.active - 1)
            else s.(handlers := s.handlers[h := Finished], lock := Free);
    } else if s.lock.HeldByCaller? {
      step, s' := CallerUnlocks, s.(lock := Free);
    } else if s.destructor.Closing? {
      step, s' := Teardown, s.(destructor := Closed, lock := Free);
    } else if s.destructor.Drained? {
      step, s' := DestructorLocks, s.(destructor := Closing, lock := HeldByDestructor);
    } else if s.destructor.Stopping? {
      match s.worker
      case Checking => step, s' := WorkerChecks, s.(worker := Done);
      case Accepting => step, s' := AcceptFails, s.(worker := Done);
      case Accepted => step, s' := WorkerCounts, s.(worker := Counted, active := s.active + 1);
      case Counted => step, s' := WorkerSpawns, s.(worker := Checking, handlers := s.handlers + [Receiving]);
      case Done => step, s' := Join, s.(destructor := Joined);
    } else if s.active <= 0 {
      step, s' := SeesZero, s.(destructor := Drained);
    } else {
      ZeroCount(s.handlers);
      var h :| 0 <= h < |s.handlers| && CountedIn(s.handlers[h]);
      assert !Inside(s.handlers[h]);
      step := NextOf(s.handlers[h], h);
      s' := if step.TakesLock? then s.(handlers := s.handlers[h := Looking], lock := HeldByHandler(h))
            else s.(handlers := s.handlers[h := Finished], active := s.active - 1);
    }
  }
}
