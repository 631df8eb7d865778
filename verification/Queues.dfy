/**
  GPU streams as first-in first-out queues.

  A stream is the sequence of all operations ever enqueued on it together with
  the number of them that have finished.  A recorded event is a position in one
  stream: it is complete once everything enqueued before that position has
  finished.  This is all the model assumes about the CUDA runtime.
 */
module Queues {

  import opened Outcomes

  /** The mark left on a stream by `cudaEventRecord`. */
  datatype Event = Event(stream: nat, pos: nat)

  datatype Stream<Op> = Stream(ops: seq<Op>, done: nat)

  predicate Complete<Op>(streams: seq<Stream<Op>>, e: Event) {
    e.stream < |streams| && e.pos <= streams[e.stream].done
  }

  /** The event a record on stream `k` would leave now. */
  function Mark<Op>(streams: seq<Stream<Op>>, k: nat): Event
    requires k < |streams|
  {
    Event(k, |streams[k].ops|)
  }

  function Append<Op>(streams: seq<Stream<Op>>, k: nat, op: Op): seq<Stream<Op>>
    requires k < |streams|
  {
    streams[k := Stream(streams[k].ops + [op], streams[k].done)]
  }

  function Advance<Op>(streams: seq<Stream<Op>>, k: nat): seq<Stream<Op>>
    requires k < |streams|
  {
    streams[k := Stream(streams[k].ops, streams[k].done + 1)]
  }
}
