/**
  Whether a subscriber gets a GPU descriptor: the classification of a peer and
  the memo of its outcome.
 */
module IpcDecision {
  import opened Outcomes
  import opened EndpointTable
  import opened EndpointRegistry

  /** A classification: what was known of the peer, and of this process. */
  datatype Classification = Classification(peer: LocalityInfo, deviceId: int, uid: nat)

  /** `can_import_descriptor`. */
  predicate CanImport(c: Classification) {
    if !c.peer.found || !c.peer.ipcCapable then false
    else if c.peer.locality == IntraProcess then true
    else if c.peer.locality == InterProcessSameHost then c.peer.deviceId == c.deviceId && c.peer.uid == c.uid
    else false
  }

  class CudaBufferBackend {
    const manager: HostEndpointManager
    var decisions: map<Gid, bool>
    ghost var lastFound: map<Gid, Classification>

    constructor (manager: HostEndpointManager)
      ensures this.manager == manager && Valid() && decisions == map[] && lastFound == map[]
    {
      this.manager, decisions, lastFound := manager, map[], map[];
    }

    /** The memo is the outcome of the latest classification that found the peer;
        misses are not in it. */
    ghost predicate Valid()
      reads this
    {
      && decisions.Keys == lastFound.Keys
      && forall gid | gid in decisions :: lastFound[gid].peer.found && decisions[gid] == CanImport(lastFound[gid])
    }

    function Classify(gid: Gid): Classification
      reads manager
    {
      Classification(manager.Query(gid), manager.deviceId, manager.uid)
    }

    /** Refresh, query, classify, and keep the outcome unless the peer was missed. */
    method ClassifyPeer(gid: Gid, acquired: bool) returns (capable: bool)
      requires Valid() && manager.registry.Valid()
      modifies this`decisions, this`lastFound, manager`localCache
      ensures Valid() && capable == CanImport(Classify(gid))
      ensures capable <==>
                var peer := manager.Query(gid);
                && peer.found && peer.ipcCapable
                && (peer.locality == IntraProcess
                    || (peer.locality == InterProcessSameHost && peer.deviceId == manager.deviceId && peer.uid == manager.uid))
      ensures decisions == if manager.Query(gid).found then old(decisions)[gid := capable] else old(decisions)
      ensures lastFound == if Classify(gid).peer.found then old(lastFound)[gid := Classify(gid)] else old(lastFound)
    {
      manager.RefreshFromRemote(acquired);
      var c := Classify(gid);
      capable := CanImport(c);
      if c.peer.found {
        decisions := decisions[gid := capable];
        lastFound := lastFound[gid := c];
      }
    }

    /** `on_discovering_endpoint`. */
    method OnDiscovering(gid: Gid, supportsCuda: bool, poolCapable: bool, acquired: bool) returns (capable: bool)
      requires Valid() && manager.registry.Valid()
      modifies this`decisions, this`lastFound, manager`localCache
      ensures Valid()
      ensures !supportsCuda || !poolCapable ==> !capable && lastFound == old(lastFound)
      ensures capable ==> gid in lastFound && lastFound[gid] == Classify(gid) && CanImport(lastFound[gid])
      ensures supportsCuda && poolCapable ==>
                (capable <==>
                  var peer := manager.Query(gid);
                  && peer.found && peer.ipcCapable
                  && (peer.locality == IntraProcess
                      || (peer.locality == InterProcessSameHost && peer.deviceId == manager.deviceId && peer.uid == manager.uid)))
      ensures forall g | g != gid :: g in lastFound <==> g in old(lastFound)
      ensures forall g | g != gid && g in lastFound :: lastFound[g] == old(lastFound)[g]
    {
      if !supportsCuda || !poolCapable {
        return false;
      }
      capable := ClassifyPeer(gid, acquired);
    }

    /** The decision part of `create_descriptor_with_endpoint`; `exportable` says
        that the buffer is a GPU buffer of an exported, registered block of a pool
        that can share memory.  A descriptor is emitted only on a latest found
        classification that allows it, and always if there is one. */
    method DecideDescriptor(gid: Gid, exportable: bool, acquired: bool) returns (emitted: bool)
      requires Valid() && manager.registry.Valid()
      modifies this`decisions, this`lastFound, manager`localCache
      ensures Valid()
      ensures emitted <==>
                && exportable && gid in lastFound
                && lastFound[gid].peer.found && lastFound[gid].peer.ipcCapable
                && (|| lastFound[gid].peer.locality == IntraProcess
                    || (lastFound[gid].peer.locality == InterProcessSameHost
                        && lastFound[gid].peer.deviceId == lastFound[gid].deviceId && lastFound[gid].peer.uid == lastFound[gid].uid))
      ensures emitted <==> exportable && gid in lastFound && CanImport(lastFound[gid])
      ensures gid in old(lastFound) ==> lastFound == old(lastFound) && manager.localCache == old(manager.localCache)
    {
      if gid in decisions && !decisions[gid] {
        return false;
      }
      if gid !in decisions {
        var capable := ClassifyPeer(gid, acquired);
        if !capable {
          return false;
        }
      }
      return exportable;
    }
  }
}
