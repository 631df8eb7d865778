/**
  Who owns the sockets and duplicated descriptors through which exported blocks
  are served: the dispatcher, the managers that share it, and its last release.

  Kernel answers are parameters: the socket or an error, the duplicate or an
  error, and whether the poll set takes the socket.
 */
module FdDispatcher {
  import opened Descriptors
  import opened Outcomes

  ghost function Fds(m: map<int, int>): set<int> {
    set k | k in m :: m[k]
  }

  ghost predicate OneFdEach(m: map<int, int>) {
    forall s, t | s in m && t in m && s != t :: m[s] != m[t]
  }

  /** The table's sockets are open, each with a duplicate of its own that names the
      file to be served there; these and the other sockets are all that is held. */
  ghost predicate Books(table: map<int, int>, sockets: set<int>, held: set<int>, exported: map<int, File>, open: map<int, File>) {
    && table.Keys <= sockets && OneFdEach(table) && exported.Keys == table.Keys
    && held == sockets + Fds(table) && held <= open.Keys && (forall fd | fd in held :: fd >= 0)
    && (forall s | s in table :: table[s] !in sockets && table[s] in open && open[table[s]] == exported[s])
  }

  lemma BooksOpened(table: map<int, int>, sockets: set<int>, held: set<int>, exported: map<int, File>, open: map<int, File>, s: int)
    requires Books(table, sockets, held, exported, open) && s >= 0 && s in open && s !in held
    ensures Books(table, sockets + {s}, held + {s}, exported, open)
  {
  }

  lemma BooksServed(table: map<int, int>, sockets: set<int>, held: set<int>, exported: map<int, File>, open: map<int, File>, s: int, dup: int, file: File)
    requires Books(table, sockets, held, exported, open) && s in sockets && s !in table && dup >= 0 && dup !in open
    ensures Books(table[s := dup], sockets, held + {dup}, exported[s := file], open[dup := file])
  {
    AddedFd(table, s, dup);
    var t, x := table[s := dup], exported[s := file];
    forall o | o in table ensures t[o] == table[o] && x[o] == exported[o] && table[o] != dup {
    }
    assert x.Keys == t.Keys;
  }

  lemma BooksUnserved(table: map<int, int>, sockets: set<int>, held: set<int>, exported: map<int, File>, open: map<int, File>, s: int)
    requires Books(table, sockets, held, exported, open) && s in table
    ensures Books(table - {s}, sockets, held - {table[s]}, exported - {s}, open - {table[s]})
  {
    RemovedFd(table, s);
    var t, x := table - {s}, exported - {s};
    forall o | o in t ensures t[o] == table[o] && x[o] == exported[o] && t[o] != table[s] {
    }
    assert x.Keys == t.Keys;
  }

  lemma BooksClosed(table: map<int, int>, sockets: set<int>, held: set<int>, exported: map<int, File>, open: map<int, File>, s: int)
    requires Books(table, sockets, held, exported, open) && s in sockets && s !in table
    ensures Books(table, sockets - {s}, held - {s}, exported, open - {s})
  {
    assert s !in Fds(table);
  }

  /** The descriptors that go with a server socket. */
  ghost function FdsOf(table: map<int, int>, s: int): set<int> {
    if s in table then {s, table[s]} else {s}
  }

  lemma BooksRemoved(table: map<int, int>, sockets: set<int>, held: set<int>, exported: map<int, File>, open: map<int, File>, s: int)
    requires Books(table, sockets, held, exported, open) && s in sockets
    ensures var gone := FdsOf(table, s);
            && gone <= held && s in open && (s in table ==> table[s] in open && table[s] >= 0 && table[s] != s)
            && Books(table - {s}, sockets - {s}, held - gone, exported - {s}, open - gone)
            && (open - gone) - (held - gone) == open - held && held - gone < held
            && (s !in table ==> table - {s} == table)
            && (s in table ==> open - {s} - {table[s]} == open - gone)
  {
    var gone := FdsOf(table, s);
    if s in table {
      BooksUnserved(table, sockets, held, exported, open, s);
      BooksClosed(table - {s}, sockets, held - {table[s]}, exported - {s}, open - {table[s]}, s);
      assert held - {table[s]} - {s} == held - gone && open - {table[s]} - {s} == open - gone;
    } else {
      BooksClosed(table, sockets, held, exported, open, s);
      assert table - {s} == table && exported - {s} == exported;
    }
  }

  class FDDispatcher {
    const os: DescriptorTable
    var running: bool
    var socketToFd: map<int, int>
    /** Server sockets handed over and not yet removed. */
    ghost var sockets: set<int>
    /** Descriptors that the dispatcher has to close. */
    ghost var held: set<int>
    /** The file that was to be served on each socket of the table. */
    ghost var exported: map<int, File>

    /** `started`: whether the poll set could be made. */
    constructor (os: DescriptorTable, started: bool)
      ensures Valid() && this.os == os && running == started
      ensures socketToFd == map[] && sockets == {} && held == {} && exported == map[]
    {
      this.os, running := os, started;
      socketToFd, sockets, held, exported := map[], {}, {}, map[];
    }

    ghost predicate Valid()
      reads this, os
    {
      && Books(socketToFd, sockets, held, exported, os.open)
      && (!running ==> socketToFd == map[])
    }

    /** `add_socket`, for a socket just opened: it is only kept in the table, with a
        duplicate of its own, when both the duplicate and the poll set are there. */
    method AddSocket(serverSocket: int, fdToServe: int, dup: int, polled: bool)
      requires Valid() && serverSocket >= 0 && serverSocket in os.open && serverSocket !in held
      requires dup >= 0 ==> fdToServe in os.open && dup !in os.open
      requires polled ==> running
      modifies this`socketToFd, this`sockets, this`held, this`exported, os
      ensures Valid()
      ensures sockets == old(sockets) + {serverSocket}
      ensures exported == if dup >= 0 && polled then old(exported)[serverSocket := old(os.open)[fdToServe]] else old(exported)
      ensures socketToFd == if dup >= 0 && polled then old(socketToFd)[serverSocket := dup] else old(socketToFd)
      ensures os.open == if dup >= 0 && polled then old(os.open)[dup := old(os.open)[fdToServe]] else old(os.open)
      ensures os.open - held == old(os.open) - {serverSocket} - old(held)
    {
      BooksOpened(socketToFd, sockets, held, exported, os.open, serverSocket);
      sockets, held := sockets + {serverSocket}, held + {serverSocket};
      ghost var withSocket := held;
      if dup >= 0 {
        BooksServed(socketToFd, sockets, held, exported, os.open, serverSocket, dup, os.open[fdToServe]);
      }
      os.Dup(fdToServe, dup);
      if dup < 0 {
        return;
      }
      socketToFd, held := socketToFd[serverSocket := dup], held + {dup};
      if !polled {
        Undone(old(socketToFd), serverSocket, dup);
        Undone(old(os.open), dup, os.open[dup]);
        socketToFd, held := socketToFd - {serverSocket}, withSocket;
        os.Close(dup);
      } else {
        exported := exported[serverSocket := os.open[dup]];
      }
    }

    /** `remove_socket`. */
    method RemoveSocket(serverSocket: int)
      requires Valid() && serverSocket in sockets
      modifies this`socketToFd, this`sockets, this`held, this`exported, os
      ensures Valid()
      ensures exported == old(exported) - {serverSocket}
      ensures sockets == old(sockets) - {serverSocket}
      ensures socketToFd == old(socketToFd) - {serverSocket}
      ensures held < old(held) && os.open - held == old(os.open - held)
    {
      ghost var gone := FdsOf(socketToFd, serverSocket);
      BooksRemoved(socketToFd, sockets, held, exported, os.open, serverSocket);
      var dupedFd := -1;
      if serverSocket in socketToFd {
        dupedFd := socketToFd[serverSocket];
        socketToFd := socketToFd - {serverSocket};
      }
      os.Close(serverSocket);
      if dupedFd >= 0 {
        os.Close(dupedFd);
      }
      sockets, held, exported := sockets - {serverSocket}, held - gone, exported - {serverSocket};
    }

    /** One turn of the dispatcher's loop for a socket that is ready, on its own: the
        client receives the file that was registered for it. */
    method HandleClient(serverSocket: int, accepted: bool, sent: bool) returns (received: Option<File>)
      requires Valid()
      ensures received == if serverSocket in exported && accepted && sent then Some(exported[serverSocket]) else None
    {
      received := None;
      if serverSocket in socketToFd {
        if accepted && sent {
          received := Some(os.open[socketToFd[serverSocket]]);
        }
      }
    }

    /** `stop`: sockets left in the table are closed, their duplicates are not. */
    method Stop()
      requires Valid()
      modifies this`running, this`socketToFd, this`sockets, this`held, this`exported, os
      ensures !running && socketToFd == map[]
      ensures held == old(held) - old(socketToFd.Keys) && sockets == old(sockets) - old(socketToFd.Keys)
      ensures os.open == old(os.open) - old(socketToFd.Keys)
      ensures old(socketToFd) == map[] ==> Valid()
    {
      if !running {
        assert socketToFd.Keys == {};
        return;
      }
      running := false;
      os.CloseAll(socketToFd.Keys);
      held, sockets := held - socketToFd.Keys, sockets - socketToFd.Keys;
      socketToFd, exported := map[], map[];
    }
  }

  type BlockId = nat

  datatype SocketPath = SocketPath(pid: int, blockId: BlockId)

  datatype RegisteredBlockInfo = RegisteredBlockInfo(serverSocket: int, socketPath: SocketPath)

  datatype RegisterError = ServerSocketFailed

  /** The server sockets of the blocks `ids`. */
  ghost function Sockets(ids: set<BlockId>, blocks: map<BlockId, RegisteredBlockInfo>): set<int> {
    set id | id in ids && id in blocks :: blocks[id].serverSocket
  }

  ghost predicate OwnSockets(blocks: map<BlockId, RegisteredBlockInfo>, pid: int) {
    && (forall id | id in blocks :: blocks[id].serverSocket >= 0 && blocks[id].socketPath == SocketPath(pid, id))
    && (forall id, other | id in blocks && other in blocks && id != other :: blocks[id].serverSocket != blocks[other].serverSocket)
  }

  lemma SocketAdded(blocks: map<BlockId, RegisteredBlockInfo>, pid: int, id: BlockId, socket: int)
    requires OwnSockets(blocks, pid) && id !in blocks && socket >= 0 && socket !in Sockets(blocks.Keys, blocks)
    ensures var now := blocks[id := RegisteredBlockInfo(socket, SocketPath(pid, id))];
            OwnSockets(now, pid) && Sockets(now.Keys, now) == Sockets(blocks.Keys, blocks) + {socket}
  {
  }

  lemma SocketDropped(ids: set<BlockId>, blocks: map<BlockId, RegisteredBlockInfo>, pid: int, id: BlockId)
    requires OwnSockets(blocks, pid) && ids <= blocks.Keys && id in ids
    ensures Sockets(ids - {id}, blocks) == Sockets(ids, blocks) - {blocks[id].serverSocket}
  {
  }

  class CudaVmmIPCManager {
    const dispatcher: FDDispatcher
    const pid: int
    var registeredBlocks: map<BlockId, RegisteredBlockInfo>

    constructor (dispatcher: FDDispatcher, pid: int)
      requires dispatcher.Valid()
      ensures Valid() && this.dispatcher == dispatcher && this.pid == pid && registeredBlocks == map[]
    {
      this.dispatcher, this.pid, registeredBlocks := dispatcher, pid, map[];
    }

    ghost function Own(): set<int>
      reads this
    {
      Sockets(registeredBlocks.Keys, registeredBlocks)
    }

    ghost predicate Valid()
      reads this, dispatcher
    {
      OwnSockets(registeredBlocks, pid) && Own() <= dispatcher.sockets
    }

    /** `register_block`. */
    method RegisterBlock(blockId: BlockId, exportedFd: int, socket: int, dup: int, polled: bool)
      returns (r: Result<SocketPath, RegisterError>)
      requires Valid() && dispatcher.Valid()
      requires socket >= 0 ==> socket !in dispatcher.os.open
      requires dup >= 0 ==> exportedFd in dispatcher.os.open && dup !in dispatcher.os.open && dup != socket
      requires polled ==> dispatcher.running
      modifies this`registeredBlocks
      modifies dispatcher`socketToFd, dispatcher`sockets, dispatcher`held, dispatcher`exported, dispatcher.os
      ensures Valid() && dispatcher.Valid()
      ensures dispatcher.os.open - dispatcher.held == old(dispatcher.os.open - dispatcher.held)
      ensures r == if blockId in old(registeredBlocks) || socket >= 0 then Ok(SocketPath(pid, blockId)) else Err(ServerSocketFailed)
      ensures if blockId in old(registeredBlocks) || socket < 0
              then registeredBlocks == old(registeredBlocks) && dispatcher.sockets == old(dispatcher.sockets)
              else && registeredBlocks == old(registeredBlocks)[blockId := RegisteredBlockInfo(socket, SocketPath(pid, blockId))]
                   && Own() == old(Own()) + {socket} && dispatcher.sockets == old(dispatcher.sockets) + {socket}
                   && socket !in old(dispatcher.held)
      // what is served for a new block is a duplicate of its exported descriptor
      ensures blockId in old(registeredBlocks) || socket < 0 ==>
                dispatcher.os.open == old(dispatcher.os.open) && dispatcher.socketToFd == old(dispatcher.socketToFd) && dispatcher.exported == old(dispatcher.exported)
      ensures blockId !in old(registeredBlocks) && socket >= 0 && dup >= 0 && polled ==>
                && dispatcher.socketToFd == old(dispatcher.socketToFd)[socket := dup]
                && dup in dispatcher.os.open && dispatcher.os.open[dup] == old(dispatcher.os.open)[exportedFd]
                && dispatcher.exported == old(dispatcher.exported)[socket := old(dispatcher.os.open)[exportedFd]]
      ensures blockId !in old(registeredBlocks) && socket >= 0 && !(dup >= 0 && polled) ==>
                dispatcher.socketToFd == old(dispatcher.socketToFd) && dispatcher.exported == old(dispatcher.exported)
    {
      if blockId in registeredBlocks {
        return Ok(registeredBlocks[blockId].socketPath);
      }
      if socket < 0 {
        return Err(ServerSocketFailed);
      }
      SocketAdded(registeredBlocks, pid, blockId, socket);
      dispatcher.os.Open(0, socket);
      dispatcher.AddSocket(socket, exportedFd, dup, polled);
      registeredBlocks := registeredBlocks[blockId := RegisteredBlockInfo(socket, SocketPath(pid, blockId))];
      return Ok(SocketPath(pid, blockId));
    }

    /** The destructor. */
    method Destroy()
      requires Valid() && dispatcher.Valid()
      modifies this`registeredBlocks
      modifies dispatcher`socketToFd, dispatcher`sockets, dispatcher`held, dispatcher`exported, dispatcher.os
      ensures Valid() && dispatcher.Valid() && registeredBlocks == map[]
      ensures dispatcher.sockets == old(dispatcher.sockets) - old(Own())
      ensures dispatcher.socketToFd == old(dispatcher.socketToFd) - old(Own()) && dispatcher.exported == old(dispatcher.exported) - old(Own())
      ensures dispatcher.os.open - dispatcher.held == old(dispatcher.os.open - dispatcher.held)
    {
      var rest := registeredBlocks.Keys;
      while rest != {}
        invariant rest <= registeredBlocks.Keys && registeredBlocks == old(registeredBlocks) && dispatcher.Valid()
        invariant dispatcher.sockets == old(dispatcher.sockets) - (old(Own()) - Sockets(rest, registeredBlocks))
        invariant dispatcher.socketToFd == old(dispatcher.socketToFd) - (old(Own()) - Sockets(rest, registeredBlocks))
        invariant dispatcher.exported == old(dispatcher.exported) - (old(Own()) - Sockets(rest, registeredBlocks))
        invariant dispatcher.os.open - dispatcher.held == old(dispatcher.os.open - dispatcher.held)
      {
        var id :| id in rest;
        SocketDropped(rest, registeredBlocks, pid, id);
        if registeredBlocks[id].serverSocket >= 0 {
          dispatcher.RemoveSocket(registeredBlocks[id].serverSocket);
        }
        rest := rest - {id};
      }
      registeredBlocks := map[];
    }
  }

  lemma Undone<V>(m: map<int, V>, key: int, value: V)
    requires key !in m
    ensures m[key := value] - {key} == m
  {
  }

  lemma AddedFd(m: map<int, int>, key: int, fd: int)
    requires key !in m
    ensures Fds(m[key := fd]) == Fds(m) + {fd}
  {
    var n := m[key := fd];
    assert n[key] == fd && forall k | k in m :: n[k] == m[k];
  }

  lemma RemovedFd(m: map<int, int>, key: int)
    requires key in m && OneFdEach(m)
    ensures Fds(m - {key}) == Fds(m) - {m[key]}
  {
    var n := m - {key};
    forall k | k in m && k != key ensures m[k] in Fds(n) {
      assert n[k] == m[k];
    }
  }
}
