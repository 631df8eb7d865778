/**
  Asynchronous copies: what memory holds once a stream has run its copy,
  whatever the other streams did meanwhile.
 */
module GpuCopies {
  import opened Outcomes
  import opened Queues

  type Bytes = seq<bv8>

  /** `Store` is a kernel's write into a location, `Copy` moves the first `count`
      bytes of one location to the start of another. */
  datatype Op =
    | Store(loc: nat, offset: nat, bytes: Bytes)
    | Copy(src: nat, dst: nat, count: nat)
    | Wait(event: Event)
    | Other

  datatype Gpu = Gpu(streams: seq<Stream<Op>>, memory: map<nat, Bytes>)

  predicate WritesTo(op: Op, loc: nat) {
    (op.Store? && op.loc == loc) || (op.Copy? && op.dst == loc)
  }

  /** Writes outside the location are not performed. */
  function Overwrite(content: Bytes, offset: nat, bytes: Bytes): (r: Bytes)
    ensures |r| == |content|
  {
    if offset + |bytes| <= |content|
    then content[..offset] + bytes + content[offset + |bytes|..]
    else content
  }

  /** A write that fits lands at its offset and changes no other byte. */
  lemma OverwriteAt(content: Bytes, offset: nat, bytes: Bytes, i: nat)
    requires i < |content|
    ensures Overwrite(content, offset, bytes)[i]
         == if offset <= i < offset + |bytes| <= |content| then bytes[i - offset] else content[i]
  {
  }

  function Take(bytes: Bytes, count: nat): Bytes {
    if count <= |bytes| then bytes[..count] else bytes
  }

  function Effect(memory: map<nat, Bytes>, op: Op): map<nat, Bytes> {
    match op
    case Store(loc, offset, bytes) =>
      if loc in memory then memory[loc := Overwrite(memory[loc], offset, bytes)] else memory
    case Copy(src, dst, count) =>
      if src in memory && dst in memory then memory[dst := Overwrite(memory[dst], 0, Take(memory[src], count))] else memory
    case _ => memory
  }

  /** Stream `k` finishes its next operation; a wait needs its event complete. */
  ghost predicate Exec(g: Gpu, g': Gpu, k: nat) {
    && k < |g.streams| && g.streams[k].done < |g.streams[k].ops|
    && var op := g.streams[k].ops[g.streams[k].done];
    && (op.Wait? ==> Complete(g.streams, op.event))
    && g' == Gpu(Advance(g.streams, k), Effect(g.memory, op))
  }

  /** Nobody enqueues a write to `loc` before the event is complete, or ever if
      there is none. */
  datatype Hold = Hold(loc: nat, until: Option<Event>)

  predicate Released(streams: seq<Stream<Op>>, h: Hold) {
    h.until.Some? && Complete(streams, h.until.value)
  }

  /** The host enqueues an operation that respects what is held. */
  ghost predicate Enqueue(g: Gpu, g': Gpu, k: nat, op: Op, holds: set<Hold>) {
    && k < |g.streams| && (forall h | h in holds && WritesTo(op, h.loc) :: Released(g.streams, h))
    && g' == g.(streams := Append(g.streams, k, op))
  }

  ghost predicate Step(g: Gpu, g': Gpu, holds: set<Hold>) {
    || (exists k: nat :: Exec(g, g', k))
    || (exists k: nat, op :: Enqueue(g, g', k, op, holds))
  }

  ghost predicate Trace(gs: seq<Gpu>, holds: set<Hold>) {
    && gs != []
    && forall n {:trigger gs[n]} | 0 < n < |gs| :: Step(gs[n - 1], gs[n], holds)
  }

  lemma TracePrefix(gs: seq<Gpu>, holds: set<Hold>)
    requires Trace(gs, holds) && |gs| > 1
    ensures Trace(gs[..|gs| - 1], holds) && Step(gs[|gs| - 2], gs[|gs| - 1], holds)
  {
  }

  lemma TraceExtends(gs: seq<Gpu>, g: Gpu, holds: set<Hold>)
    requires Trace(gs, holds) && Step(gs[|gs| - 1], g, holds)
    ensures Trace(gs + [g], holds)
  {
    var more := gs + [g];
    forall n {:trigger more[n]} | 0 < n < |more| ensures Step(more[n - 1], more[n], holds) {
      if n < |gs| {
        assert more[n] == gs[n] && more[n - 1] == gs[n - 1];
      }
    }
  }

  /** Held less, an execution is still one. */
  lemma TraceWithLessHeld(gs: seq<Gpu>, holds: set<Hold>, fewer: set<Hold>)
    requires Trace(gs, holds) && fewer <= holds
    ensures Trace(gs, fewer)
  {
    forall n {:trigger gs[n]} | 0 < n < |gs| ensures Step(gs[n - 1], gs[n], fewer) {
      StepWithLessHeld(gs[n - 1], gs[n], holds, fewer);
    }
  }

  lemma StepWithLessHeld(g: Gpu, g': Gpu, holds: set<Hold>, fewer: set<Hold>)
    requires Step(g, g', holds) && fewer <= holds
    ensures Step(g, g', fewer)
  {
    if !exists k: nat :: Exec(g, g', k) {
      var k: nat, op :| Enqueue(g, g', k, op, holds);
      assert Enqueue(g, g', k, op, fewer);
    }
  }

  /** Operation `q` of stream `k` is still to come. */
  ghost predicate Ahead(streams: seq<Stream<Op>>, k: nat, q: nat) {
    k < |streams| && streams[k].done <= q < |streams[k].ops|
  }

  /** Waits that were passed had their events complete. */
  ghost predicate WaitsHonoured(streams: seq<Stream<Op>>) {
    && (forall k | 0 <= k < |streams| :: streams[k].done <= |streams[k].ops|)
    && forall k: nat, q: nat | k < |streams| && q < streams[k].done && streams[k].ops[q].Wait? ::
         Complete(streams, streams[k].ops[q].event)
  }

  lemma WaitsHonouredByExec(g: Gpu, g': Gpu, k: nat)
    requires WaitsHonoured(g.streams) && Exec(g, g', k)
    ensures WaitsHonoured(g'.streams)
  {
  }

  lemma WaitsHonouredByEnqueue(g: Gpu, g': Gpu, k: nat, op: Op, holds: set<Hold>)
    requires WaitsHonoured(g.streams) && Enqueue(g, g', k, op, holds)
    ensures WaitsHonoured(g'.streams)
  {
  }

  lemma WaitsStayHonoured(g: Gpu, g': Gpu, holds: set<Hold>)
    requires WaitsHonoured(g.streams) && Step(g, g', holds)
    ensures WaitsHonoured(g'.streams)
  {
    if k: nat :| Exec(g, g', k) {
      WaitsHonouredByExec(g, g', k);
    } else {
      var k: nat, op :| Enqueue(g, g', k, op, holds);
      WaitsHonouredByEnqueue(g, g', k, op, holds);
    }
  }

  lemma {:induction false} WaitsHonouredThroughout(gs: seq<Gpu>)
    requires Trace(gs, {}) && WaitsHonoured(gs[0].streams)
    ensures WaitsHonoured(gs[|gs| - 1].streams)
  {
    if |gs| > 1 {
      TracePrefix(gs, {});
      WaitsHonouredThroughout(gs[..|gs| - 1]);
      WaitsStayHonoured(gs[|gs| - 2], gs[|gs| - 1], {});
    }
  }

  lemma {:induction false} QueuesGrow(gs: seq<Gpu>)
    requires Trace(gs, {})
    ensures var first, last := gs[0].streams, gs[|gs| - 1].streams;
            |first| == |last| && forall k | 0 <= k < |first| :: first[k].ops <= last[k].ops && first[k].done <= last[k].done
  {
    if |gs| > 1 {
      TracePrefix(gs, {});
      QueuesGrow(gs[..|gs| - 1]);
    }
  }

  /** In every execution, whatever ran behind a wait ran after everything that was
      queued before the awaited mark. */
  lemma BehindWaitIsAfter(gs: seq<Gpu>, k: nat, w: nat, q: nat, e: Event)
    requires Trace(gs, {}) && WaitsHonoured(gs[0].streams)
    ensures var streams := gs[|gs| - 1].streams;
            k < |streams| && w < q < streams[k].done && w < |streams[k].ops| && streams[k].ops[w] == Wait(e) ==> Complete(streams, e)
  {
    WaitsHonouredThroughout(gs);
  }

  /** Once anything enqueued on stream `k` after `now` has run, everything that was
      queued before the mark `e` has run. */
  predicate RanBehind(now: seq<Stream<Op>>, later: seq<Stream<Op>>, k: nat, e: Event) {
    k < |now| && k < |later| && (|now[k].ops| < later[k].done ==> Complete(later, e))
  }

  ghost predicate OrderedBehind(g: Gpu, k: nat, e: Event) {
    forall gs: seq<Gpu> | Trace(gs, {}) && gs[0] == g :: RanBehind(g.streams, gs[|gs| - 1].streams, k, e)
  }

  /** Producer before consumer: a stream that was just made to wait for `e` runs
      everything enqueued from now on behind the mark `e`, in every execution. */
  lemma ConsumerAfterProducer(g: Gpu, k: nat, e: Event)
    requires WaitsHonoured(g.streams)
    requires k < |g.streams| && g.streams[k].ops != [] && g.streams[k].ops[|g.streams[k].ops| - 1] == Wait(e)
    ensures OrderedBehind(g, k, e)
  {
    forall gs: seq<Gpu> | Trace(gs, {}) && gs[0] == g ensures RanBehind(g.streams, gs[|gs| - 1].streams, k, e) {
      QueuesGrow(gs);
      WaitsHonouredThroughout(gs);
      BehindWaitIsAfter(gs, k, |g.streams[k].ops| - 1, |g.streams[k].ops|, e);
    }
  }

  // --------------------------------------------------------------- contents

  /** `content` after the stores to `loc` among `ops`, in order. */
  function Settle(content: Bytes, ops: seq<Op>, loc: nat): Bytes
    decreases ops
  {
    if ops == [] then content
    else
      var next := if ops[0].Store? && ops[0].loc == loc then Overwrite(content, ops[0].offset, ops[0].bytes) else content;
      Settle(next, ops[1..], loc)
  }

  /** The last operation is applied last. */
  lemma {:induction false} SettleLast(content: Bytes, ops: seq<Op>, op: Op, loc: nat)
    ensures var before := Settle(content, ops, loc);
            Settle(content, ops + [op], loc)
            == if op.Store? && op.loc == loc then Overwrite(before, op.offset, op.bytes) else before
    decreases |ops|
  {
    var all := ops + [op];
    if ops == [] {
      assert all[1..] == [];
    } else {
      assert all[0] == ops[0] && all[1..] == ops[1..] + [op];
      var next := if ops[0].Store? && ops[0].loc == loc then Overwrite(content, ops[0].offset, ops[0].bytes) else content;
      SettleLast(next, ops[1..], op, loc);
    }
  }

  /** What `loc` will hold once event `e` is complete. */
  function FinalContent(g: Gpu, loc: nat, e: Option<Event>): Bytes
    requires loc in g.memory
    requires e.Some? ==> e.value.stream < |g.streams| && e.value.pos <= |g.streams[e.value.stream].ops|
  {
    if e.None? || Complete(g.streams, e.value) then g.memory[loc]
    else Settle(g.memory[loc], g.streams[e.value.stream].ops[g.streams[e.value.stream].done..e.value.pos], loc)
  }

  // --------------------------------------------------------------- promises

  /** In every execution that respects what is held, once the event is complete
      (at once if there is none), `loc` holds `content`. */
  ghost predicate Promise(g: Gpu, holds: set<Hold>, loc: nat, e: Option<Event>, content: Bytes) {
    forall gs: seq<Gpu> | Trace(gs, holds) && gs[0] == g && (e.Some? ==> Complete(gs[|gs| - 1].streams, e.value)) ::
      loc in gs[|gs| - 1].memory && gs[|gs| - 1].memory[loc] == content
  }

  /** A promise outlives every step that respects what it holds. */
  lemma PromiseStays(g: Gpu, g': Gpu, holds: set<Hold>, more: set<Hold>, loc: nat, e: Option<Event>, content: Bytes)
    requires Promise(g, holds, loc, e, content) && Step(g, g', holds) && holds <= more
    ensures Promise(g', more, loc, e, content)
  {
    forall gs: seq<Gpu> | Trace(gs, more) && gs[0] == g' && (e.Some? ==> Complete(gs[|gs| - 1].streams, e.value))
      ensures loc in gs[|gs| - 1].memory && gs[|gs| - 1].memory[loc] == content
    {
      TraceWithLessHeld(gs, more, holds);
      var longer := [g] + gs;
      forall n {:trigger longer[n]} | 0 < n < |longer| ensures Step(longer[n - 1], longer[n], holds) {
        if n > 1 {
          assert longer[n] == gs[n - 1] && longer[n - 1] == gs[n - 2];
        }
      }
      assert Trace(longer, holds) && longer[|longer| - 1] == gs[|gs| - 1];
    }
  }

  // ------------------------------------------------- the promise of a writer

  /** All writes still to come to `loc` are stores queued before the mark `e`. */
  ghost predicate StoresAhead(g: Gpu, loc: nat, e: Option<Event>) {
    && loc in g.memory
    && (forall k | 0 <= k < |g.streams| :: g.streams[k].done <= |g.streams[k].ops|)
    && (e.Some? ==> e.value.stream < |g.streams| && e.value.pos <= |g.streams[e.value.stream].ops|)
    && forall k: nat, q: nat | Ahead(g.streams, k, q) && WritesTo(g.streams[k].ops[q], loc) ::
         e.Some? && k == e.value.stream && q < e.value.pos && g.streams[k].ops[q].Store?
  }

  lemma StoresRun(g: Gpu, g': Gpu, k: nat, loc: nat, e: Option<Event>)
    requires StoresAhead(g, loc, e) && Exec(g, g', k)
    ensures StoresAhead(g', loc, e) && FinalContent(g', loc, e) == FinalContent(g, loc, e)
  {
    var q := g.streams[k].done;
    var op := g.streams[k].ops[q];
    assert Ahead(g.streams, k, q);
    assert forall j: nat, p: nat | Ahead(g'.streams, j, p) :: Ahead(g.streams, j, p);
    if e.Some? && k == e.value.stream && q < e.value.pos {
      var pending := g.streams[k].ops[q..e.value.pos];
      assert pending[0] == op && pending[1..] == g'.streams[k].ops[q + 1..e.value.pos];
      assert Settle(g.memory[loc], pending, loc) == Settle(g'.memory[loc], pending[1..], loc);
    }
  }

  lemma StoresKept(g: Gpu, g': Gpu, k: nat, op: Op, holds: set<Hold>, loc: nat, e: Option<Event>)
    requires StoresAhead(g, loc, e) && Enqueue(g, g', k, op, holds) && Hold(loc, None) in holds
    ensures StoresAhead(g', loc, e) && FinalContent(g', loc, e) == FinalContent(g, loc, e)
  {
    assert !WritesTo(op, loc);
    assert forall j | 0 <= j < |g.streams| :: g.streams[j].ops <= g'.streams[j].ops;
    forall j: nat, p: nat | Ahead(g'.streams, j, p) && WritesTo(g'.streams[j].ops[p], loc)
      ensures Ahead(g.streams, j, p) && g.streams[j].ops[p] == g'.streams[j].ops[p]
    {
    }
    if e.Some? && !Complete(g.streams, e.value) {
      var j := e.value.stream;
      assert g'.streams[j].ops[g.streams[j].done..e.value.pos] == g.streams[j].ops[g.streams[j].done..e.value.pos];
    }
  }

  lemma {:induction false} StoresThroughout(gs: seq<Gpu>, holds: set<Hold>, loc: nat, e: Option<Event>)
    requires Trace(gs, holds) && Hold(loc, None) in holds && StoresAhead(gs[0], loc, e)
    ensures StoresAhead(gs[|gs| - 1], loc, e) && FinalContent(gs[|gs| - 1], loc, e) == FinalContent(gs[0], loc, e)
  {
    if |gs| > 1 {
      TracePrefix(gs, holds);
      StoresThroughout(gs[..|gs| - 1], holds, loc, e);
      var g, g' := gs[|gs| - 2], gs[|gs| - 1];
      if k: nat :| Exec(g, g', k) {
        StoresRun(g, g', k, loc, e);
      } else {
        var k: nat, op :| Enqueue(g, g', k, op, holds);
        StoresKept(g, g', k, op, holds, loc, e);
      }
    }
  }

  /** What was queued on the write stream before the mark is what the location
      will hold: all of it, in order, and nothing else. */
  lemma StoresPromise(g: Gpu, holds: set<Hold>, loc: nat, e: Option<Event>)
    requires StoresAhead(g, loc, e) && Hold(loc, None) in holds
    ensures Promise(g, holds, loc, e, FinalContent(g, loc, e))
  {
    forall gs: seq<Gpu> | Trace(gs, holds) && gs[0] == g && (e.Some? ==> Complete(gs[|gs| - 1].streams, e.value))
      ensures loc in gs[|gs| - 1].memory && gs[|gs| - 1].memory[loc] == FinalContent(g, loc, e)
    {
      StoresThroughout(gs, holds, loc, e);
    }
  }

  // ---------------------------------------------------- the promise of a copy

  /** A location that no queued operation is going to write. */
  ghost predicate Untouched(g: Gpu, loc: nat) {
    loc in g.memory && forall k: nat, q: nat | Ahead(g.streams, k, q) :: !WritesTo(g.streams[k].ops[q], loc)
  }

  /** The device after `wait` (if any) and the copy were enqueued on stream `s`. */
  function CopyEnqueued(g: Gpu, s: nat, wait: Option<Event>, src: nat, dst: nat, count: nat): Gpu
    requires s < |g.streams|
  {
    var streams := if wait.Some? then Append(g.streams, s, Wait(wait.value)) else g.streams;
    g.(streams := Append(streams, s, Copy(src, dst, count)))
  }

  /** The copy's source is held until the mark behind the copy, its destination
      for good. */
  function HeldForCopy(holds: set<Hold>, src: nat, dst: nat, mark: Event): set<Hold> {
    holds - {Hold(src, None)} + {Hold(src, Some(mark)), Hold(dst, None)}
  }

  function Copied(content: Bytes, x: Bytes, count: nat): Bytes {
    Overwrite(content, 0, Take(x, count))
  }

  /** The copy stands at position `c` of stream `s`, behind a wait for `e`, and is
      the only write to `dst` still to come. */
  ghost predicate CopyAhead(g: Gpu, src: nat, dst: nat, count: nat, s: nat, c: nat, e: Option<Event>) {
    && src in g.memory && dst in g.memory
    && WaitsHonoured(g.streams)
    && Ahead(g.streams, s, c) && g.streams[s].ops[c] == Copy(src, dst, count)
    && (e.Some? ==> exists w :: 0 <= w < c && g.streams[s].ops[w] == Wait(e.value))
    && (forall k: nat, q: nat | Ahead(g.streams, k, q) && WritesTo(g.streams[k].ops[q], dst) :: k == s && q == c)
  }

  ghost predicate CopyDone(g: Gpu, dst: nat, s: nat, c: nat, content: Bytes) {
    && s < |g.streams| && c < g.streams[s].done
    && dst in g.memory && g.memory[dst] == content
    && forall k: nat, q: nat | Ahead(g.streams, k, q) :: !WritesTo(g.streams[k].ops[q], dst)
  }

  lemma CopyWaits(g: Gpu, g': Gpu, k: nat, src: nat, dst: nat, count: nat, s: nat, c: nat, e: Option<Event>)
    requires CopyAhead(g, src, dst, count, s, c, e) && Exec(g, g', k) && !(k == s && g.streams[k].done == c)
    ensures CopyAhead(g', src, dst, count, s, c, e) && g'.memory[dst] == g.memory[dst]
  {
    assert Ahead(g.streams, k, g.streams[k].done);
    WaitsHonouredByExec(g, g', k);
    assert forall j | 0 <= j < |g.streams| :: g'.streams[j].ops == g.streams[j].ops;
    assert forall j: nat, p: nat | Ahead(g'.streams, j, p) :: Ahead(g.streams, j, p);
  }

  lemma CopyRuns(g: Gpu, g': Gpu, src: nat, dst: nat, count: nat, s: nat, c: nat, e: Option<Event>)
    requires CopyAhead(g, src, dst, count, s, c, e) && Exec(g, g', s) && g.streams[s].done == c
    ensures e.Some? ==> Complete(g.streams, e.value)
    ensures CopyDone(g', dst, s, c, Copied(g.memory[dst], g.memory[src], count))
  {
    assert forall j: nat, p: nat | Ahead(g'.streams, j, p) :: Ahead(g.streams, j, p) && g'.streams[j].ops[p] == g.streams[j].ops[p];
  }

  lemma CopyKept(g: Gpu, g': Gpu, k: nat, op: Op, holds: set<Hold>, src: nat, dst: nat, count: nat, s: nat, c: nat, e: Option<Event>)
    requires CopyAhead(g, src, dst, count, s, c, e) && Enqueue(g, g', k, op, holds) && Hold(dst, None) in holds
    ensures CopyAhead(g', src, dst, count, s, c, e) && g'.memory[dst] == g.memory[dst]
  {
    assert !WritesTo(op, dst);
    WaitsHonouredByEnqueue(g, g', k, op, holds);
    forall j: nat, p: nat | Ahead(g'.streams, j, p) && WritesTo(g'.streams[j].ops[p], dst)
      ensures Ahead(g.streams, j, p) && g.streams[j].ops[p] == g'.streams[j].ops[p]
    {
    }
    if e.Some? {
      var w :| 0 <= w < c && g.streams[s].ops[w] == Wait(e.value);
      assert g'.streams[s].ops[w] == Wait(e.value);
    }
  }

  lemma DoneKept(g: Gpu, g': Gpu, holds: set<Hold>, dst: nat, s: nat, c: nat, content: Bytes)
    requires CopyDone(g, dst, s, c, content) && Step(g, g', holds) && Hold(dst, None) in holds
    ensures CopyDone(g', dst, s, c, content)
  {
    if k: nat :| Exec(g, g', k) {
      assert Ahead(g.streams, k, g.streams[k].done);
      assert forall j: nat, p: nat | Ahead(g'.streams, j, p) :: Ahead(g.streams, j, p) && g'.streams[j].ops[p] == g.streams[j].ops[p];
    } else {
      var k: nat, op :| Enqueue(g, g', k, op, holds);
      assert !WritesTo(op, dst);
      forall j: nat, p: nat | Ahead(g'.streams, j, p) ensures !WritesTo(g'.streams[j].ops[p], dst) {
        if j != k || p < |g.streams[j].ops| {
          assert Ahead(g.streams, j, p);
        }
      }
    }
  }

  /** Before the mark behind the copy is complete, its source is as good as held
      for good. */
  lemma StepBeforeMark(g: Gpu, g': Gpu, holds: set<Hold>, src: nat, dst: nat, mark: Event)
    requires Step(g, g', HeldForCopy(holds, src, dst, mark)) && !Complete(g.streams, mark)
    ensures Step(g, g', holds)
  {
    if !exists k: nat :: Exec(g, g', k) {
      var k: nat, op :| Enqueue(g, g', k, op, HeldForCopy(holds, src, dst, mark));
      assert Hold(src, Some(mark)) in HeldForCopy(holds, src, dst, mark);
      assert !WritesTo(op, src);
      assert forall h | h in holds && h != Hold(src, None) :: h in HeldForCopy(holds, src, dst, mark);
      assert Enqueue(g, g', k, op, holds);
    }
  }

  /** A copy that has run, or that is still queued with its destination as it was. */
  ghost predicate CopyState(g: Gpu, src: nat, dst: nat, count: nat, s: nat, c: nat, e: Option<Event>, was: Bytes, becomes: Bytes) {
    if s < |g.streams| && g.streams[s].done > c
    then CopyDone(g, dst, s, c, becomes)
    else CopyAhead(g, src, dst, count, s, c, e) && g.memory[dst] == was
  }

  ghost predicate Ran(g: Gpu, s: nat, c: nat) {
    s < |g.streams| && g.streams[s].done > c
  }

  /** The state of a copy at the end of an execution that starts with it queued. */
  lemma {:induction false} CopyThroughout(gs: seq<Gpu>, holds: set<Hold>, src: nat, dst: nat, count: nat, s: nat, c: nat,
                                          e: Option<Event>, x: Bytes, was: Bytes)
    requires Trace(gs, HeldForCopy(holds, src, dst, Event(s, c + 1)))
    requires CopyState(gs[0], src, dst, count, s, c, e, was, Copied(was, x, count)) && !Ran(gs[0], s, c)
    requires Promise(gs[0], holds, src, e, x)
    ensures CopyState(gs[|gs| - 1], src, dst, count, s, c, e, was, Copied(was, x, count))
    ensures !Ran(gs[|gs| - 1], s, c) ==> Trace(gs, holds)
  {
    if |gs| > 1 {
      var before, g' := gs[..|gs| - 1], gs[|gs| - 1];
      TracePrefix(gs, HeldForCopy(holds, src, dst, Event(s, c + 1)));
      CopyThroughout(before, holds, src, dst, count, s, c, e, x, was);
      if Ran(gs[|gs| - 2], s, c) {
        DoneKept(gs[|gs| - 2], g', HeldForCopy(holds, src, dst, Event(s, c + 1)), dst, s, c, Copied(was, x, count));
      } else {
        CopyNext(before, g', holds, src, dst, count, s, c, e, x, was);
        assert before + [g'] == gs;
      }
    }
  }

  /** One more step of an execution in which the copy has not run yet. */
  lemma CopyNext(before: seq<Gpu>, g': Gpu, holds: set<Hold>, src: nat, dst: nat, count: nat, s: nat, c: nat, e: Option<Event>, x: Bytes, was: Bytes)
    requires Trace(before, holds) && Promise(before[0], holds, src, e, x)
    requires var g := before[|before| - 1];
             && !Ran(g, s, c) && CopyState(g, src, dst, count, s, c, e, was, Copied(was, x, count))
             && Step(g, g', HeldForCopy(holds, src, dst, Event(s, c + 1)))
    ensures CopyState(g', src, dst, count, s, c, e, was, Copied(was, x, count))
    ensures Trace(before + [g'], holds)
  {
    var g := before[|before| - 1];
    StepBeforeMark(g, g', holds, src, dst, Event(s, c + 1));
    TraceExtends(before, g', holds);
    CopySteps(g, g', HeldForCopy(holds, src, dst, Event(s, c + 1)), src, dst, count, s, c, e);
    if g'.streams[s].done > c {
      assert g.memory[src] == x;
    }
  }

  lemma CopySteps(g: Gpu, g': Gpu, held: set<Hold>, src: nat, dst: nat, count: nat, s: nat, c: nat, e: Option<Event>)
    requires CopyAhead(g, src, dst, count, s, c, e) && Step(g, g', held) && Hold(dst, None) in held
    ensures |g'.streams| == |g.streams|
    ensures if g'.streams[s].done > c
            then CopyDone(g', dst, s, c, Copied(g.memory[dst], g.memory[src], count)) && (e.Some? ==> Complete(g.streams, e.value))
            else CopyAhead(g', src, dst, count, s, c, e) && g'.memory[dst] == g.memory[dst]
  {
    if k: nat :| Exec(g, g', k) {
      if k == s && g.streams[s].done == c {
        CopyRuns(g, g', src, dst, count, s, c, e);
      } else {
        CopyWaits(g, g', k, src, dst, count, s, c, e);
      }
    } else {
      var k: nat, op :| Enqueue(g, g', k, op, held);
      CopyKept(g, g', k, op, held, src, dst, count, s, c, e);
    }
  }

  lemma CopyIsAhead(g: Gpu, s: nat, e: Option<Event>, src: nat, dst: nat, count: nat)
    requires s < |g.streams| && src in g.memory && Untouched(g, dst) && WaitsHonoured(g.streams)
    ensures var g' := CopyEnqueued(g, s, e, src, dst, count); CopyAhead(g', src, dst, count, s, |g'.streams[s].ops| - 1, e)
  {
    var g' := CopyEnqueued(g, s, e, src, dst, count);
    var c := |g'.streams[s].ops| - 1;
    forall k: nat, q: nat | Ahead(g'.streams, k, q) && WritesTo(g'.streams[k].ops[q], dst) ensures k == s && q == c {
      assert (k == s && q >= |g.streams[s].ops|) || Ahead(g.streams, k, q);
    }
    if e.Some? {
      assert g'.streams[s].ops[c - 1] == Wait(e.value);
    }
    assert forall d: Event | Complete(g.streams, d) :: Complete(g'.streams, d);
  }

  /** Enqueueing the copy respects what was held, for nothing of it is written. */
  lemma PromiseOutlivesCopy(g: Gpu, holds: set<Hold>, more: set<Hold>, s: nat, e: Option<Event>, src: nat, dst: nat, count: nat,
                            loc: nat, at: Option<Event>, x: Bytes)
    requires s < |g.streams| && Promise(g, holds, loc, at, x) && holds <= more
    requires forall h | h in holds :: h.loc != dst
    ensures Promise(CopyEnqueued(g, s, e, src, dst, count), more, loc, at, x)
  {
    var g1 := if e.Some? then g.(streams := Append(g.streams, s, Wait(e.value))) else g;
    if e.Some? {
      assert Enqueue(g, g1, s, Wait(e.value), holds);
      PromiseStays(g, g1, holds, holds, loc, at, x);
    }
    var g2 := CopyEnqueued(g, s, e, src, dst, count);
    assert Enqueue(g1, g2, s, Copy(src, dst, count), holds);
    PromiseStays(g1, g2, holds, more, loc, at, x);
  }

  /** A copy queued behind a wait for the source's event turns the source's promise
      into the destination's, due at the mark behind the copy; until then nobody
      may write the source. */
  lemma CopyPromises(g: Gpu, holds: set<Hold>, s: nat, e: Option<Event>, src: nat, dst: nat, count: nat, x: Bytes)
    requires s < |g.streams| && src in g.memory && Untouched(g, dst) && WaitsHonoured(g.streams)
    requires Promise(g, holds, src, e, x) && forall h | h in holds :: h.loc != dst
    ensures var g' := CopyEnqueued(g, s, e, src, dst, count);
            var mark := Mark(g'.streams, s);
            var held := holds - {Hold(src, None)} + {Hold(src, Some(mark)), Hold(dst, None)};
            && mark.stream == s && mark.pos == |g.streams[s].ops| + (if e.Some? then 2 else 1)
            && Promise(g', held, dst, Some(mark), Copied(g.memory[dst], x, count))
  {
    var g' := CopyEnqueued(g, s, e, src, dst, count);
    var c := |g'.streams[s].ops| - 1;
    CopyIsAhead(g, s, e, src, dst, count);
    PromiseOutlivesCopy(g, holds, holds, s, e, src, dst, count, src, e, x);
    assert Mark(g'.streams, s) == Event(s, c + 1) && g'.memory == g.memory;
    CopyPromised(g', holds, src, dst, count, s, c, e, x);
  }

  lemma CopyPromised(g: Gpu, holds: set<Hold>, src: nat, dst: nat, count: nat, s: nat, c: nat, e: Option<Event>, x: Bytes)
    requires CopyAhead(g, src, dst, count, s, c, e) && Promise(g, holds, src, e, x)
    ensures var mark := Event(s, c + 1);
            Promise(g, HeldForCopy(holds, src, dst, mark), dst, Some(mark), Copied(g.memory[dst], x, count))
  {
    var mark := Event(s, c + 1);
    var held := HeldForCopy(holds, src, dst, mark);
    forall gs: seq<Gpu> | Trace(gs, held) && gs[0] == g && Complete(gs[|gs| - 1].streams, mark)
      ensures dst in gs[|gs| - 1].memory && gs[|gs| - 1].memory[dst] == Copied(g.memory[dst], x, count)
    {
      CopyThroughout(gs, holds, src, dst, count, s, c, e, x, g.memory[dst]);
    }
  }
}
