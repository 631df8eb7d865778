/**
  The managers of a process and the dispatcher they share through a weak cache:
  it lives from the first manager to the last.
 */
module FdDispatcherOwners {
  import opened Descriptors
  import opened FdDispatcher
  import opened Outcomes

  /** The live managers, with the server sockets of each. */
  type Owners = map<CudaVmmIPCManager, set<int>>

  /** Every socket is owned by exactly one manager. */
  ghost predicate Partitioned(owned: Owners, sockets: set<int>) {
    && (forall m, n | m in owned && n in owned && m != n :: owned[m] !! owned[n])
    && (forall m | m in owned :: owned[m] <= sockets)
    && (forall s | s in sockets :: exists m :: m in owned && s in owned[m])
  }

  lemma PartitionJoined(owned: Owners, sockets: set<int>, m: CudaVmmIPCManager)
    requires Partitioned(owned, sockets) && m !in owned
    ensures Partitioned(owned[m := {}], sockets)
    ensures owned[m := {}].Keys == owned.Keys + {m} && |owned[m := {}].Keys| == |owned.Keys| + 1
  {
    var now := owned[m := {}];
    assert now.Keys == owned.Keys + {m};
    forall s | s in sockets ensures exists n :: n in now && s in now[n] {
      var n: CudaVmmIPCManager :| n in owned && s in owned[n];
      assert n in now && s in now[n];
    }
  }

  lemma PartitionAdded(owned: Owners, sockets: set<int>, m: CudaVmmIPCManager, socket: int)
    requires Partitioned(owned, sockets) && m in owned && socket !in sockets
    ensures Partitioned(owned[m := owned[m] + {socket}], sockets + {socket})
  {
    var now := owned[m := owned[m] + {socket}];
    forall s | s in sockets + {socket} ensures exists n :: n in now && s in now[n] {
      if s == socket {
        assert s in now[m];
      } else {
        var n: CudaVmmIPCManager :| n in owned && s in owned[n];
        assert n in now && s in now[n];
      }
    }
  }

  lemma PartitionLeft(owned: Owners, sockets: set<int>, m: CudaVmmIPCManager)
    requires Partitioned(owned, sockets) && m in owned
    ensures Partitioned(owned - {m}, sockets - owned[m])
    ensures (owned - {m}).Keys == owned.Keys - {m} && |(owned - {m}).Keys| == |owned.Keys| - 1
  {
    var now := owned - {m};
    assert now.Keys == owned.Keys - {m};
    forall s | s in sockets - owned[m] ensures exists n :: n in now && s in now[n] {
      var n: CudaVmmIPCManager :| n in owned && s in owned[n];
      assert n in now && s in now[n];
    }
  }

  lemma NobodyOwns(owned: Owners, sockets: set<int>)
    requires Partitioned(owned, sockets) && |owned.Keys| == 0
    ensures sockets == {}
  {
    assert owned.Keys == {};
    forall s ensures s !in sockets {
      assert forall m: CudaVmmIPCManager :: m !in owned;
    }
  }

  ghost predicate Shared(d: FDDispatcher, owned: Owners)
    reads d, owned.Keys
  {
    && Partitioned(owned, d.sockets)
    && forall m | m in owned :: m.dispatcher == d && m.Valid() && m.Own() == owned[m]
  }

  class DispatcherCache {
    const os: DescriptorTable
    /** What the weak pointer gives; null once expired. */
    var cached: FDDispatcher?
    /** The dispatcher's reference count. */
    var owners: nat
    ghost var owned: Owners

    constructor (os: DescriptorTable)
      ensures Valid() && this.os == os && cached == null && Managers() == {}
    {
      this.os, cached, owners, owned := os, null, 0, map[];
    }

    ghost function Managers(): set<CudaVmmIPCManager>
      reads this
    {
      owned.Keys
    }

    ghost predicate Valid()
      reads this, os, cached, owned.Keys
    {
      && owners == |owned.Keys| && (cached == null <==> owners == 0)
      && (cached != null ==> cached.os == os && cached.Valid() && Shared(cached, owned))
    }

    /** The process's descriptors that are none of the dispatcher's. */
    ghost function Others(): map<int, File>
      reads this, os, cached
    {
      if cached == null then os.open else os.open - cached.held
    }

    /** `get_dispatcher`. */
    method GetDispatcher(started: bool) returns (d: FDDispatcher)
      requires Valid()
      modifies this`cached
      ensures d == cached && d.os == os && d.Valid() && Shared(d, owned) && Others() == old(Others())
      ensures if old(cached) != null then d == old(cached) else fresh(d)
    {
      if cached == null {
        assert owned.Keys == {};
        cached := new FDDispatcher(os, started);
      }
      d := cached;
    }

    /** A manager's constructor. */
    method CreateManager(pid: int, started: bool) returns (m: CudaVmmIPCManager)
      requires Valid()
      modifies this
      ensures Valid() && Managers() == old(Managers()) + {m} && fresh(m) && m.dispatcher == cached
      ensures old(cached) != null ==> cached == old(cached)
      ensures m.registeredBlocks == map[] && Others() == old(Others())
    {
      var dispatcher := GetDispatcher(started);
      m := Join(dispatcher, pid);
    }

    method Join(d: FDDispatcher, pid: int) returns (m: CudaVmmIPCManager)
      requires d.Valid() && Shared(d, owned) && owners == |owned.Keys|
      modifies this`owners, this`owned
      ensures Shared(d, owned) && owners == |owned.Keys| == |old(owned.Keys)| + 1 && owned.Keys == old(owned.Keys) + {m}
      ensures fresh(m) && m.dispatcher == d && m.registeredBlocks == map[]
    {
      m := new CudaVmmIPCManager(d, pid);
      PartitionJoined(owned, d.sockets, m);
      owners, owned := owners + 1, owned[m := {}];
      forall n | n in owned ensures n.dispatcher == d && n.Valid() && n.Own() == owned[n] {
        assert n != m ==> old(allocated(n)) && old(n.Valid());
      }
    }

    /** `register_block` of any live manager. */
    method RegisterBlock(m: CudaVmmIPCManager, blockId: BlockId, exportedFd: int, socket: int, dup: int, polled: bool)
      returns (r: Result<SocketPath, RegisterError>)
      requires Valid() && m in Managers()
      requires socket >= 0 ==> socket !in os.open
      requires dup >= 0 ==> exportedFd in os.open && dup !in os.open && dup != socket
      requires polled ==> cached.running
      modifies this`owned, m`registeredBlocks, cached`socketToFd, cached`sockets, cached`held, cached`exported, os
      ensures Valid() && Others() == old(Others()) && Managers() == old(Managers())
      ensures r.Ok? <==> blockId in old(m.registeredBlocks) || socket >= 0
      ensures r.Ok? ==> r.value == SocketPath(m.pid, blockId) && blockId in m.registeredBlocks
      ensures blockId in old(m.registeredBlocks) || !(socket >= 0 && dup >= 0 && polled) ==>
                cached.socketToFd == old(cached.socketToFd) && cached.exported == old(cached.exported)
      ensures blockId !in old(m.registeredBlocks) && socket >= 0 && dup >= 0 && polled ==>
                && cached.socketToFd == old(cached.socketToFd)[socket := dup]
                && dup in os.open && os.open[dup] == old(os.open)[exportedFd]
                && cached.exported == old(cached.exported)[socket := old(os.open)[exportedFd]]
    {
      ghost var known := blockId in m.registeredBlocks || socket < 0;
      ghost var sockets := cached.sockets;
      r := m.RegisterBlock(blockId, exportedFd, socket, dup, polled);
      if !known {
        PartitionAdded(owned, sockets, m, socket);
        owned := owned[m := owned[m] + {socket}];
      }
      forall n | n in owned && n != m ensures n.Valid() && n.Own() == owned[n] {
        assert old(n.Valid());
      }
      assert owned.Keys == old(owned.Keys);
    }

    /** A manager's destructor, and the dispatcher's when it was the last owner:
        then all that was opened has been closed, and nothing else. */
    method DestroyManager(m: CudaVmmIPCManager)
      requires Valid() && m in Managers()
      modifies this, m`registeredBlocks, cached, os
      ensures Valid() && Managers() == old(Managers()) - {m}
      ensures Managers() != {} ==> cached == old(cached) && cached.exported == old(cached.exported) - old(m.Own())
      ensures Others() == old(Others())
      ensures Managers() == {} ==> cached == null && os.open == old(Others())
      ensures Managers() == {} ==> old(cached).socketToFd == map[] && old(cached).held == {}
    {
      Detach(m);
      if owners == 0 {
        NobodyOwns(owned, cached.sockets);
        Expire();
      }
    }

    /** The dispatcher's destructor, with no socket left in its care. */
    method Expire()
      requires cached != null && cached.os == os && cached.Valid() && cached.sockets == {}
      modifies this`cached, cached, os
      ensures cached == null && os.open == old(Others())
      ensures old(cached).socketToFd == map[] && old(cached).held == {} && !old(cached).running
    {
      assert cached.held == {};
      assert os.open - cached.held == os.open;
      cached.Stop();
      cached := null;
    }

    /** A manager's destructor up to its release of the dispatcher: its sockets go,
        all others stay. */
    method Detach(m: CudaVmmIPCManager)
      requires Valid() && m in Managers()
      modifies this`owners, this`owned, m`registeredBlocks, cached`socketToFd, cached`sockets, cached`held, cached`exported, os
      ensures Managers() == old(Managers()) - {m} && owners == |owned.Keys|
      ensures cached.Valid() && Shared(cached, owned) && cached.exported == old(cached.exported) - old(m.Own())
      ensures Others() == old(Others())
    {
      PartitionLeft(owned, cached.sockets, m);
      owners, owned := owners - 1, owned - {m};
      m.Destroy();
      forall n | n in owned ensures n.Valid() && n.Own() == owned[n] {
        assert old(n.Valid());
      }
    }
  }
}
