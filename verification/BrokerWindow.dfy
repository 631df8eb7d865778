/**
  The rolling window of the descriptor broker: a table and a queue in place,
  against the sequence of all registrations it was ever asked for.
 */
module BrokerWindow {
  import opened Outcomes
  import opened Descriptors

  type Uid = nat

  /** One call of `register_buffer`: the broker's flag and the file behind `fd`
      at the time, and what `dup` answered or would have. */
  datatype Request = Request(running: bool, uid: Uid, fd: int, size: nat, file: File, dup: int)

  function Last(s: seq<Request>, capacity: nat): (r: seq<Request>)
    ensures |r| == if |s| <= capacity then |s| else capacity
  {
    if |s| <= capacity then s else s[|s| - capacity..]
  }

  predicate HasUid(s: seq<Request>, uid: Uid) {
    exists i | 0 <= i < |s| :: s[i].uid == uid
  }

  predicate Admits(window: seq<Request>, r: Request) {
    r.running && r.uid != 0 && r.fd >= 0 && !HasUid(window, r.uid) && r.dup >= 0
  }

  /** The registrations that entered the table, oldest first. */
  function Accepted(capacity: nat, requests: seq<Request>): seq<Request> {
    if requests == [] then []
    else
      var before := Accepted(capacity, requests[..|requests| - 1]);
      var r := requests[|requests| - 1];
      if Admits(Last(before, capacity), r) then before + [r] else before
  }

  function Window(capacity: nat, requests: seq<Request>): seq<Request> {
    Last(Accepted(capacity, requests), capacity)
  }

  lemma AcceptedAfter(capacity: nat, requests: seq<Request>, r: Request)
    ensures Accepted(capacity, requests + [r])
         == if Admits(Window(capacity, requests), r) then Accepted(capacity, requests) + [r] else Accepted(capacity, requests)
  {
    assert (requests + [r])[..|requests|] == requests;
  }

  lemma LastAt(s: seq<Request>, capacity: nat, i: nat)
    requires i < |Last(s, capacity)|
    ensures Last(s, capacity)[i] == s[|s| - |Last(s, capacity)| + i]
  {
  }

  lemma LastOfPush(s: seq<Request>, capacity: nat, r: Request)
    ensures Last(Last(s, capacity) + [r], capacity) == Last(s + [r], capacity)
  {
    if |s| > capacity {
      assert (s + [r])[|s| - capacity..] == s[|s| - capacity..] + [r];
    }
  }

  lemma WindowAfter(capacity: nat, requests: seq<Request>, r: Request)
    ensures Window(capacity, requests + [r])
         == if r.running && r.uid != 0 && r.fd >= 0 && !HasUid(Window(capacity, requests), r.uid) && r.dup >= 0
            then Last(Window(capacity, requests) + [r], capacity)
            else Window(capacity, requests)
  {
    AcceptedAfter(capacity, requests, r);
    LastOfPush(Accepted(capacity, requests), capacity, r);
  }

  lemma RecentInLast(s: seq<Request>, capacity: nat, i: nat)
    requires i < |s|
    ensures |s| - i <= capacity ==> HasUid(Last(s, capacity), s[i].uid)
  {
  }

  /** A uid is taken in again only after more than `capacity` insertions have
      pushed it out: a repeat inside the window neither adds nor refreshes. */
  lemma {:induction false} RepeatsAreFarApart(capacity: nat, requests: seq<Request>, i: nat, j: nat)
    requires i < j < |Accepted(capacity, requests)|
    requires Accepted(capacity, requests)[i].uid == Accepted(capacity, requests)[j].uid
    ensures j - i > capacity
  {
    var earlier := requests[..|requests| - 1];
    var before := Accepted(capacity, earlier);
    if j < |before| {
      RepeatsAreFarApart(capacity, earlier, i, j);
    } else {
      RecentInLast(before, capacity, i);
    }
  }

  lemma LastDistinct(s: seq<Request>, capacity: nat, i: nat, j: nat)
    requires i < j < |Last(s, capacity)|
    requires forall a, b | 0 <= a < b < |s| && s[a].uid == s[b].uid :: b - a > capacity
    ensures Last(s, capacity)[i].uid != Last(s, capacity)[j].uid
  {
    LastAt(s, capacity, i);
    LastAt(s, capacity, j);
  }

  lemma WindowDistinct(capacity: nat, requests: seq<Request>, i: nat, j: nat)
    requires i < j < |Window(capacity, requests)|
    ensures Window(capacity, requests)[i].uid != Window(capacity, requests)[j].uid
  {
    var accepted := Accepted(capacity, requests);
    forall a, b | 0 <= a < b < |accepted| && accepted[a].uid == accepted[b].uid ensures b - a > capacity {
      RepeatsAreFarApart(capacity, requests, a, b);
    }
    LastDistinct(accepted, capacity, i, j);
  }

  lemma AcceptedStep(capacity: nat, before: seq<Request>, r: Request)
    ensures Accepted(capacity, before) <= Accepted(capacity, before + [r])
  {
    AcceptedAfter(capacity, before, r);
    var accepted := Accepted(capacity, before);
    assert accepted <= accepted + [r];
  }

  lemma Regroup(requests: seq<Request>, later: seq<Request>, all: seq<Request>)
    requires all == requests + later
    ensures if later == [] then all == requests else all == requests + [later[0]] + later[1..]
  {
  }

  lemma {:induction false} AcceptedGrows(capacity: nat, requests: seq<Request>, later: seq<Request>, all: seq<Request>)
    requires all == requests + later
    ensures Accepted(capacity, requests) <= Accepted(capacity, all)
    decreases |later|
  {
    Regroup(requests, later, all);
    if later != [] {
      AcceptedStep(capacity, requests, later[0]);
      AcceptedGrows(capacity, requests + [later[0]], later[1..], all);
    }
  }

  datatype Entry = Entry(dupFd: int, size: nat)

  ghost predicate Stored(r: Request, table: map<Uid, Entry>, held: set<int>, open: map<int, File>) {
    && r.uid in table && table[r.uid] == Entry(r.dup, r.size)
    && r.dup in held && r.dup in open && open[r.dup] == r.file
  }

  /** The queue and the table hold exactly the window, and the broker holds one
      descriptor for each entry and no other. */
  ghost predicate Shows(window: seq<Request>, order: seq<Uid>, table: map<Uid, Entry>, held: set<int>, open: map<int, File>)
    decreases |window|
  {
    if window == [] then order == [] && table == map[] && held == {}
    else
      var r := window[0];
      && order != [] && order[0] == r.uid && Stored(r, table, held, open)
      && Shows(window[1..], order[1..], table - {r.uid}, held - {r.dup}, open - {r.dup})
  }

  lemma {:induction false} PushShows(window: seq<Request>, order: seq<Uid>, table: map<Uid, Entry>, held: set<int>,
                                     open: map<int, File>, r: Request)
    requires Shows(window, order, table, held, open) && r.uid !in table && r.dup !in open
    ensures Shows(window + [r], order + [r.uid], table[r.uid := Entry(r.dup, r.size)], held + {r.dup}, open[r.dup := r.file])
  {
    var w, o := window + [r], order + [r.uid];
    var t, h, f := table[r.uid := Entry(r.dup, r.size)], held + {r.dup}, open[r.dup := r.file];
    if window == [] {
      assert w[1..] == [] && o[1..] == [];
      assert t - {r.uid} == map[] && h - {r.dup} == {};
    } else {
      var q := window[0];
      assert w[1..] == window[1..] + [r] && o[1..] == order[1..] + [r.uid];
      assert t - {q.uid} == (table - {q.uid})[r.uid := Entry(r.dup, r.size)];
      assert h - {q.dup} == held - {q.dup} + {r.dup};
      assert f - {q.dup} == (open - {q.dup})[r.dup := r.file];
      PushShows(window[1..], order[1..], table - {q.uid}, held - {q.dup}, open - {q.dup}, r);
    }
  }

  /** The file that a uid stands for in the window. */
  function FileOf(window: seq<Request>, uid: Uid): (f: Option<File>)
    ensures f.Some? <==> HasUid(window, uid)
  {
    if window == [] then None
    else if window[0].uid == uid then Some(window[0].file)
    else
      assert HasUid(window[1..], uid) ==> HasUid(window, uid) by {
        if i :| 0 <= i < |window[1..]| && window[1..][i].uid == uid { assert window[i + 1].uid == uid; }
      }
      FileOf(window[1..], uid)
  }

  /** In a window without duplicates, each place is found by its uid. */
  lemma {:induction false} FoundByUid(window: seq<Request>, at: nat)
    requires at < |window| && forall i, j | 0 <= i < j < |window| :: window[i].uid != window[j].uid
    ensures FileOf(window, window[at].uid) == Some(window[at].file)
  {
    if at > 0 {
      FoundByUid(window[1..], at - 1);
    }
  }

  /** A registered uid stands for its file until `capacity` later insertions are in. */
  lemma ServedUntilPushedOut(capacity: nat, requests: seq<Request>, later: seq<Request>, r: Request)
    requires r.running && r.uid != 0 && r.fd >= 0 && !HasUid(Window(capacity, requests), r.uid) && r.dup >= 0
    requires |Accepted(capacity, requests + [r] + later)| < |Accepted(capacity, requests)| + 1 + capacity
    ensures FileOf(Window(capacity, requests + [r] + later), r.uid) == Some(r.file)
  {
    var start := |Accepted(capacity, requests)|;
    var all := requests + [r] + later;
    AcceptedGrows(capacity, requests + [r], later, all);
    AcceptedAfter(capacity, requests, r);
    var accepted, w := Accepted(capacity, requests + [r] + later), Window(capacity, requests + [r] + later);
    assert accepted[start] == r;
    var at := start - (|accepted| - |w|);
    LastAt(accepted, capacity, at);
    forall i, j | 0 <= i < j < |w| ensures w[i].uid != w[j].uid {
      WindowDistinct(capacity, requests + [r] + later, i, j);
    }
    FoundByUid(w, at);
  }

  /** What the rest of the process does with its own descriptors is no matter. */
  lemma {:induction false} ShowsElsewhere(window: seq<Request>, order: seq<Uid>, table: map<Uid, Entry>, held: set<int>,
                                          open: map<int, File>, open': map<int, File>)
    requires Shows(window, order, table, held, open)
    requires forall fd | fd in held && fd in open :: fd in open' && open'[fd] == open[fd]
    ensures Shows(window, order, table, held, open')
  {
    if window != [] {
      var r := window[0];
      ShowsElsewhere(window[1..], order[1..], table - {r.uid}, held - {r.dup}, open - {r.dup}, open' - {r.dup});
    }
  }

  lemma {:induction false} ShownFile(window: seq<Request>, order: seq<Uid>, table: map<Uid, Entry>, held: set<int>,
                                     open: map<int, File>, uid: Uid)
    requires Shows(window, order, table, held, open)
    ensures uid in table ==> table[uid].dupFd in open
    ensures FileOf(window, uid) == if uid in table then Some(open[table[uid].dupFd]) else None
  {
    if window != [] {
      var r := window[0];
      ShownFile(window[1..], order[1..], table - {r.uid}, held - {r.dup}, open - {r.dup}, uid);
    }
  }

  /** As many descriptors held as entries left, and each entry's among them. */
  ghost predicate OneFdEach(rest: set<Uid>, table: map<Uid, Entry>, held: set<int>, open: map<int, File>) {
    && |held| == |rest|
    && (forall uid | uid in rest :: uid in table && table[uid].dupFd in held && table[uid].dupFd in open)
    && (forall uid, other | uid in rest && other in rest && uid != other :: table[uid].dupFd != table[other].dupFd)
  }

  /** One held descriptor for each entry, one entry for each place in the queue,
      and so no duplicate in the queue. */
  lemma {:induction false} ShownCounts(window: seq<Request>, order: seq<Uid>, table: map<Uid, Entry>, held: set<int>, open: map<int, File>)
    requires Shows(window, order, table, held, open)
    ensures |held| == |table| == |order| == |window|
    ensures forall uid :: uid in order <==> uid in table
    ensures OneFdEach(table.Keys, table, held, open)
  {
    if window != [] {
      var r := window[0];
      var t, h := table - {r.uid}, held - {r.dup};
      ShownCounts(window[1..], order[1..], t, h, open - {r.dup});
      assert table == t[r.uid := table[r.uid]] && held == h + {r.dup};
      assert order == [r.uid] + order[1..];
    }
  }

  lemma CloseOne(rest: set<Uid>, table: map<Uid, Entry>, held: set<int>, open: map<int, File>, uid: Uid)
    requires OneFdEach(rest, table, held, open) && uid in rest
    ensures OneFdEach(rest - {uid}, table, held - {table[uid].dupFd}, open - {table[uid].dupFd})
  {
  }

  /** The entries left are those of the queue, as they were. */
  ghost predicate Evicted(before: map<Uid, Entry>, table: map<Uid, Entry>, order: seq<Uid>, open: map<int, File>, open': map<int, File>) {
    && (forall u :: u in table <==> u in order)
    && (forall u | u in table :: u in before && table[u] == before[u])
    && Closed(before, table, open, open')
  }

  lemma EvictedOneMore(before: map<Uid, Entry>, window: seq<Request>, order: seq<Uid>, table: map<Uid, Entry>, held: set<int>,
                       open: map<int, File>, open': map<int, File>)
    requires window != [] && Shows(window, order, table, held, open') && Evicted(before, table, order, open, open')
    ensures Evicted(before, table - {order[0]}, order[1..], open, open' - {window[0].dup})
  {
    ShownCounts(window, order, table, held, open');
    ShownCounts(window[1..], order[1..], table - {order[0]}, held - {window[0].dup}, open' - {window[0].dup});
  }

  /** Of the entries in `before`, those gone have their descriptors closed, and
      those left name the files they named. */
  ghost predicate Closed(before: map<Uid, Entry>, after: map<Uid, Entry>, open: map<int, File>, open': map<int, File>) {
    forall u | u in before ::
      var fd := before[u].dupFd;
      if u in after then fd in open && fd in open' && open'[fd] == open[fd] else fd !in open'
  }

  lemma EntriesOpen(window: seq<Request>, order: seq<Uid>, table: map<Uid, Entry>, held: set<int>, open: map<int, File>)
    requires Shows(window, order, table, held, open)
    ensures forall u | u in table :: table[u].dupFd in open
  {
    ShownCounts(window, order, table, held, open);
  }

  lemma UnheldKept(held: set<int>, open: map<int, File>, dup: int, file: File)
    requires dup !in open
    ensures open[dup := file] - (held + {dup}) == open - held
  {
  }

  lemma EvictedOfPush(before: map<Uid, Entry>, after: map<Uid, Entry>, order: seq<Uid>, open: map<int, File>, open': map<int, File>, uid: Uid, e: Entry, file: File)
    requires Evicted(before[uid := e], after, order, open[e.dupFd := file], open') && uid !in before && e.dupFd !in open
    requires forall u | u in before :: before[u].dupFd in open
    ensures Closed(before, after, open, open')
    ensures uid in after ==> after[uid] == e && e.dupFd in open' && open'[e.dupFd] == file
    ensures forall u | u in after && u != uid :: u in before && after[u] == before[u]
  {
    forall u | u in before
      ensures var fd := before[u].dupFd; if u in after then fd in open && fd in open' && open'[fd] == open[fd] else fd !in open'
    {
      assert before[uid := e][u] == before[u];
    }
  }

  class FdBroker {
    const capacity: nat
    const os: DescriptorTable
    var running: bool
    var table: map<Uid, Entry>
    var order: seq<Uid>
    ghost var requests: seq<Request>
    /** The descriptors the broker made and has not closed. */
    ghost var held: set<int>

    /** `started`: whether the socket could be set up. */
    constructor (capacity: nat, os: DescriptorTable, started: bool)
      ensures Valid() && this.os == os && this.capacity == capacity && running == started
      ensures requests == [] && held == {}
    {
      this.capacity, this.os, running := capacity, os, started;
      table, order, requests, held := map[], [], [], {};
    }

    ghost predicate Valid()
      reads this, os
    {
      Shows(Window(capacity, requests), order, table, held, os.open)
    }

    /** `register_buffer`. */
    method RegisterBuffer(uid: Uid, fd: int, size: nat, dup: int)
      requires Valid()
      requires dup >= 0 ==> fd in os.open && dup !in os.open
      modifies this, os
      ensures Valid() && running == old(running)
      ensures requests == old(requests) + [Request(running, uid, fd, size, if fd in old(os.open) then old(os.open)[fd] else 0, dup)]
      ensures os.open - held == old(os.open - held)
      // Refused, or known already: nothing changes.
      ensures !running || uid == 0 || fd < 0 || uid in old(table) || dup < 0 ==>
                order == old(order) && table == old(table) && held == old(held) && os.open == old(os.open)
      // A new one goes to the end of the queue, which keeps its last `capacity`.
      ensures running && uid != 0 && fd >= 0 && uid !in old(table) && dup >= 0 ==>
                && order == (if |old(order)| < capacity then old(order) + [uid] else (old(order) + [uid])[|old(order)| + 1 - capacity..])
                && (forall u :: u in table <==> u in order)
                && (uid in table ==> table[uid] == Entry(dup, size) && dup in os.open && os.open[dup] == old(os.open)[fd])
                && (forall u | u in table && u != uid :: u in old(table) && table[u] == old(table)[u])
                && forall u | u in old(table) ::
                     var fd' := old(table)[u].dupFd;
                     if u in table then fd' in os.open && fd' in old(os.open) && os.open[fd'] == old(os.open)[fd'] else fd' !in os.open
    {
      ghost var window := Window(capacity, requests);
      ghost var r := Request(running, uid, fd, size, if fd in os.open then os.open[fd] else 0, dup);
      WindowAfter(capacity, requests, r);
      ShownFile(window, order, table, held, os.open, uid);
      requests := requests + [r];
      if !running || uid == 0 || fd < 0 {
        return;
      }
      if uid in table {
        return;
      }
      if dup < 0 {
        return;
      }
      Insert(uid, fd, size, dup, window, r);
    }

    /** `register_buffer` behind its checks. */
    method Insert(uid: Uid, fd: int, size: nat, dup: int, ghost window: seq<Request>, ghost r: Request)
      requires Shows(window, order, table, held, os.open) && uid !in table && dup >= 0 && dup !in os.open && fd in os.open
      requires r.uid == uid && r.dup == dup && r.size == size && r.file == os.open[fd]
      modifies this`order, this`table, this`held, os
      ensures Shows(Last(window + [r], capacity), order, table, held, os.open)
      ensures os.open - held == old(os.open - held)
      ensures order == (if |old(order)| < capacity then old(order) + [uid] else (old(order) + [uid])[|old(order)| + 1 - capacity..])
      ensures forall u :: u in table <==> u in order
      ensures uid in table ==> table[uid] == Entry(dup, size) && dup in os.open && os.open[dup] == old(os.open)[fd]
      ensures forall u | u in table && u != uid :: u in old(table) && table[u] == old(table)[u]
      ensures Closed(old(table), table, old(os.open), os.open)
    {
      EntriesOpen(window, order, table, held, os.open);
      UnheldKept(held, os.open, dup, os.open[fd]);
      PushShows(window, order, table, held, os.open, r);
      os.Dup(fd, dup);
      table := table[uid := Entry(dup, size)];
      order := order + [uid];
      held := held + {dup};
      EvictOldest(window + [r]);
      EvictedOfPush(old(table), table, order, old(os.open), os.open, uid, Entry(dup, size), old(os.open[fd]));
    }

    /** The loop at the end of `register_buffer`. */
    method EvictOldest(ghost window: seq<Request>)
      requires Shows(window, order, table, held, os.open)
      modifies this`order, this`table, this`held, os
      ensures Shows(Last(window, capacity), order, table, held, os.open)
      ensures held <= old(held) && os.open - held == old(os.open - held)
      ensures order == if |old(order)| <= capacity then old(order) else old(order)[|old(order)| - capacity..]
      ensures Evicted(old(table), table, order, old(os.open), os.open)
    {
      ghost var gone: nat := 0;
      ShownCounts(window, order, table, held, os.open);
      while |order| > capacity
        invariant gone <= |window| == |old(order)| && order == old(order)[gone..] && (gone > 0 ==> |order| >= capacity)
        invariant Shows(window[gone..], order, table, held, os.open)
        invariant held <= old(held) && os.open - held == old(os.open - held)
        invariant Evicted(old(table), table, order, old(os.open), os.open)
      {
        assert window[gone..][1..] == window[gone + 1..];
        EvictedOneMore(old(table), window[gone..], order, table, held, old(os.open), os.open);
        EvictFirst(window[gone..]);
        gone := gone + 1;
      }
    }

    method EvictFirst(ghost window: seq<Request>)
      requires window != [] && Shows(window, order, table, held, os.open)
      modifies this`order, this`table, this`held, os
      ensures order == old(order)[1..] && table == old(table) - {old(order)[0]}
      ensures os.open == old(os.open) - {window[0].dup} && held == old(held) - {window[0].dup}
      ensures Shows(window[1..], order, table, held, os.open)
      ensures os.open - held == old(os.open - held)
    {
      var oldest := order[0];
      order := order[1..];
      if oldest in table {
        os.Close(table[oldest].dupFd);
        held := held - {table[oldest].dupFd};
        table := table - {oldest};
      }
    }

    /** `handle_connection` after a full request: what the peer receives. `dup` is
        the kernel's answer, `sent` whether the message goes out. */
    method HandleConnection(uid: Uid, dup: int, sent: bool) returns (received: Option<File>)
      requires Valid()
      requires dup >= 0 ==> dup !in os.open
      modifies os
      ensures Valid() && os.open == old(os.open)
      ensures received == if dup >= 0 && sent then FileOf(Window(capacity, requests), uid) else None
      ensures received.Some? <==> uid in table && dup >= 0 && sent
      ensures received.Some? ==> table[uid].dupFd in os.open && received.value == os.open[table[uid].dupFd]
    {
      ShownFile(Window(capacity, requests), order, table, held, os.open, uid);
      received := None;
      if uid in table {
        os.Dup(table[uid].dupFd, dup);
        if dup >= 0 {
          if sent {
            received := Some(os.open[dup]);
          }
          os.Close(dup);
        }
      }
      assert os.open == old(os.open);
    }

    /** The end of the destructor: the entries' descriptors are closed, each once,
        and with them all that the broker held. */
    method CloseEntries()
      requires Valid()
      modifies this`table, this`order, this`held, os
      ensures table == map[] && held == {}
      ensures os.open == old(os.open - held)
    {
      ShownCounts(Window(capacity, requests), order, table, held, os.open);
      var rest := table.Keys;
      while rest != {}
        invariant rest <= table.Keys
        invariant OneFdEach(rest, table, held, os.open)
        invariant os.open - held == old(os.open - held)
      {
        var uid :| uid in rest;
        CloseOne(rest, table, held, os.open, uid);
        os.Close(table[uid].dupFd);
        held := held - {table[uid].dupFd};
        rest := rest - {uid};
      }
      assert os.open - {} == os.open;
      table, order := map[], [];
    }
  }
}
