/**
  The shared registry updated in place, and a process's manager with its local
  cache of endpoint localities.

  The semaphore is a parameter: `acquired` says whether the timed wait got it.
 */
module EndpointRegistry {
  import opened Outcomes
  import opened EndpointTable

  const MAX_NAME := 255

  datatype Locality = Undefined | IntraProcess | InterProcessSameHost | InterHost

  datatype CachedInfo = CachedInfo(
    locality: Locality, instanceId: nat, entityType: EntityType, deviceId: int, uid: nat, ipcCapable: bool)

  datatype LocalityInfo = LocalityInfo(
    locality: Locality, entityType: EntityType, instanceId: nat, deviceId: int, uid: nat, ipcCapable: bool, found: bool)

  class SharedRegistry {
    const entries: array<Entry>
    var numEntries: nat

    constructor (maxEntries: nat, blank: Entry)
      ensures Valid() && Used() == [] && entries.Length == maxEntries && fresh(entries)
    {
      entries := new Entry[maxEntries](_ => blank);
      numEntries := 0;
    }

    ghost predicate Valid()
      reads this, entries
    {
      numEntries <= entries.Length && TableOk(Used(), entries.Length)
    }

    /** The slots in use. */
    function Used(): seq<Entry>
      reads this, entries
    {
      if numEntries <= entries.Length then entries[..numEntries] else []
    }

    /** `purge_dead_entries`. */
    method PurgeDeadEntries(alive: int -> bool) returns (purged: nat)
      requires Valid()
      modifies entries
      ensures Valid() && Used() == Purged(old(Used()), alive)
      ensures purged == DeadCount(old(Used()), alive)
      // told without the specification: the living keep their slots, the dead lose them
      ensures |Used()| == |old(Used())|
      ensures forall i: nat, pid: nat, low: nat |
                i < |old(Used())| && pid < 0x1_0000_0000 && low < 0x1_0000_0000 && old(Used())[i].instanceId == InstanceId(pid, low) ::
                Used()[i] == if pid == 0 || pid >= 0x8000_0000 || alive(pid) then old(Used())[i] else old(Used())[i].(active := false)
      ensures purged == |set i: nat | i < |Used()| && old(Used())[i].active && !Used()[i].active|
    {
      ghost var before := Used();
      purged := DeactivateDead(alive);
      PurgedByProcess(before, alive);
      PurgeCounts(before, Used(), entries.Length, alive);
    }

    /** Its loop. */
    method DeactivateDead(alive: int -> bool) returns (purged: nat)
      requires numEntries <= entries.Length
      modifies entries
      ensures Used() == Purged(old(Used()), alive) && purged == DeadCount(old(Used()), alive)
    {
      purged := 0;
      ghost var before := Used();
      for i := 0 to numEntries
        invariant forall j | 0 <= j < i :: entries[j] == Purged(before, alive)[j]
        invariant forall j | i <= j < numEntries :: entries[j] == before[j]
        invariant purged == DeadCount(before[..i], alive)
      {
        assert before[..i + 1][..i] == before[..i];
        if IsDead(entries[i], alive) {
          entries[i] := entries[i].(active := false);
          purged := purged + 1;
        }
      }
      assert before[..numEntries] == before;
      assert Used() == Purged(before, alive);
    }

    /** The destructor's pass over one instance's entries. */
    method Leave(instanceId: nat)
      requires Valid()
      modifies entries
      ensures Valid() && Used() == Left(old(Used()), instanceId)
      ensures |Used()| == |old(Used())|
      ensures forall i | 0 <= i < |Used()| ::
                Used()[i] == if old(Used())[i].instanceId == instanceId then old(Used())[i].(active := false) else old(Used())[i]
    {
      for i := 0 to numEntries
        invariant forall j | 0 <= j < i :: entries[j] == Left(old(Used()), instanceId)[j]
        invariant forall j | i <= j < numEntries :: entries[j] == old(entries[j])
      {
        if entries[i].active && entries[i].instanceId == instanceId {
          entries[i] := entries[i].(active := false);
        }
      }
    }

    /** `has_active_entries`. */
    method HasActiveEntries() returns (some: bool)
      requires Valid()
      ensures some <==> exists i :: 0 <= i < |Used()| && Used()[i].active
    {
      for i := 0 to numEntries
        invariant forall j | 0 <= j < i :: !Used()[j].active
      {
        if entries[i].active {
          assert Used()[i].active;
          return true;
        }
      }
      return false;
    }

    /** The slot search and update of `register_endpoint`, with the semaphore held. */
    method Register(entry: Entry) returns (ok: bool)
      requires Valid() && entry.active
      modifies this`numEntries, entries
      ensures Valid()
      ensures ok <==> Registered(old(Used()), entries.Length, entry).Some?
      ensures ok ==> Used() == Registered(old(Used()), entries.Length, entry).value
      ensures !ok ==> Used() == old(Used())
    {
      RegistrationFailsIff(Used(), entries.Length, entry);
      if Registered(Used(), entries.Length, entry).Some? {
        RegistrationSucceeds(Used(), entries.Length, entry);
      }
      var slot := FindGid(entry.gid);
      if slot == numEntries {
        slot := FindInactive();
        if slot == numEntries {
          if numEntries >= entries.Length {
            return false;
          }
          numEntries := numEntries + 1;
        }
      }
      entries[slot] := entry;
      return true;
    }

    method FindGid(gid: Gid) returns (slot: nat)
      requires Valid()
      ensures slot == FirstGid(Used(), gid)
    {
      slot := 0;
      while slot < numEntries && entries[slot].gid != gid
        invariant slot <= numEntries
        invariant forall j | 0 <= j < slot :: Used()[j].gid != gid
      {
        slot := slot + 1;
      }
    }

    method FindInactive() returns (slot: nat)
      requires Valid()
      ensures slot == FirstInactive(Used())
    {
      slot := 0;
      while slot < numEntries && entries[slot].active
        invariant slot <= numEntries
        invariant forall j | 0 <= j < slot :: Used()[j].active
      {
        slot := slot + 1;
      }
    }
  }

  class HostEndpointManager {
    const registry: SharedRegistry
    const instanceId: nat
    const deviceId: int
    const uid: nat
    var ipcCapable: bool
    var localCache: map<Gid, CachedInfo>

    constructor (registry: SharedRegistry, instanceId: nat, deviceId: int, uid: nat)
      ensures this.registry == registry && this.instanceId == instanceId && this.deviceId == deviceId && this.uid == uid
      ensures !ipcCapable && localCache == map[]
    {
      this.registry, this.instanceId, this.deviceId, this.uid := registry, instanceId, deviceId, uid;
      ipcCapable, localCache := false, map[];
    }

    /** `register_endpoint`. */
    method RegisterEndpoint(gid: Gid, name: string, entityType: EntityType, acquired: bool) returns (ok: bool)
      requires registry.Valid()
      modifies this`localCache, registry`numEntries, registry.entries
      ensures registry.Valid()
      ensures var table := old(registry.Used());
              !ok <==> !acquired || (|table| == registry.entries.Length && forall i | 0 <= i < |table| :: table[i].active && table[i].gid != gid)
      ensures !ok ==> registry.Used() == old(registry.Used()) && localCache == old(localCache)
      // the one slot of the gid holds this process's endpoint, and so does the cache
      ensures ok ==> exists i :: 0 <= i < |registry.Used()| && registry.Used()[i].gid == gid
      ensures ok ==>
                forall i | 0 <= i < |registry.Used()| && registry.Used()[i].gid == gid ::
                  var entry := registry.Used()[i];
                  && entry.active && entry.instanceId == instanceId && entry.entityType == entityType && entry.deviceId == deviceId
                  && entry.uid == uid && entry.ipcCapable == ipcCapable && entry.name <= name && |entry.name| == (if |name| <= 255 then |name| else 255)
      ensures ok ==>
                var found := Query(gid);
                && found.found && found.locality == IntraProcess && found.instanceId == instanceId && found.entityType == entityType
                && found.deviceId == deviceId && found.uid == uid && found.ipcCapable == ipcCapable
      ensures ok ==>
                && Some(registry.Used()) == Registered(old(registry.Used()), registry.entries.Length, OwnEntry(gid, name, entityType))
                && localCache == old(localCache)[gid := CachedInfo(IntraProcess, instanceId, entityType, deviceId, uid, ipcCapable)]
    {
      if !acquired {
        return false;
      }
      RegistrationStands(registry.Used(), registry.entries.Length, OwnEntry(gid, name, entityType));
      ok := registry.Register(OwnEntry(gid, name, entityType));
      if ok {
        localCache := localCache[gid := CachedInfo(IntraProcess, instanceId, entityType, deviceId, uid, ipcCapable)];
      }
    }

    /** The destructor: the own entries and those of the dead are given up, and the
        registry is to be unlinked exactly if no active entry is left.  Without the
        semaphore nothing happens. */
    method Close(alive: int -> bool, acquired: bool) returns (unlink: bool)
      requires registry.Valid()
      modifies registry.entries
      ensures registry.Valid()
      ensures !acquired ==> !unlink && registry.Used() == old(registry.Used())
      ensures acquired ==> registry.Used() == Purged(Left(old(registry.Used()), instanceId), alive)
      ensures acquired ==> (unlink <==>
                forall i | 0 <= i < |old(registry.Used())| ::
                  var entry := old(registry.Used())[i];
                  entry.active ==> entry.instanceId == instanceId || IsDead(entry, alive))
      ensures acquired ==> |registry.Used()| == |old(registry.Used())| && (unlink <==> forall i | 0 <= i < |registry.Used()| :: !registry.Used()[i].active)
      ensures acquired ==>
                forall i: nat, pid: nat, low: nat |
                  i < |old(registry.Used())| && pid < 0x1_0000_0000 && low < 0x1_0000_0000
                  && old(registry.Used())[i].instanceId == InstanceId(pid, low) ::
                  registry.Used()[i] == if (pid == 0 || pid >= 0x8000_0000 || alive(pid)) && old(registry.Used())[i].instanceId != instanceId
                                        then old(registry.Used())[i] else old(registry.Used())[i].(active := false)
    {
      if !acquired {
        return false;
      }
      ghost var before := registry.Used();
      registry.Leave(instanceId);
      var purged := registry.PurgeDeadEntries(alive);
      var some := registry.HasActiveEntries();
      assert forall i | 0 <= i < |before| ::
          registry.Used()[i].active <==> before[i].active && before[i].instanceId != instanceId && !IsDead(before[i], alive);
      return !some;
    }

    function OwnEntry(gid: Gid, name: string, entityType: EntityType): Entry
      reads this
    {
      Entry(instanceId, gid, entityType, deviceId, uid, true, ipcCapable, if |name| <= MAX_NAME then name else name[..MAX_NAME])
    }

    /** `query_endpoint_locality`. */
    function Query(gid: Gid): (found: LocalityInfo)
      reads this
      ensures found.found <==> gid in localCache
      ensures !found.found ==> found.locality == Undefined && !found.ipcCapable && found.deviceId == -1
    {
      if gid in localCache then
        var info := localCache[gid];
        LocalityInfo(info.locality, info.entityType, info.instanceId, info.deviceId, info.uid, info.ipcCapable, true)
      else LocalityInfo(Undefined, PublisherEntity, 0, -1, 0, false, false)
    }

    /** How this process sees an active entry. */
    function Seen(entry: Entry): CachedInfo {
      CachedInfo(
        if entry.instanceId == instanceId then IntraProcess else InterProcessSameHost,
        entry.instanceId, entry.entityType, entry.deviceId, entry.uid, entry.ipcCapable)
    }

    /** `refresh_from_remote`: afterwards every active entry is answered as it
        stands in the table, and every other answer is what it was. */
    method RefreshFromRemote(acquired: bool)
      requires registry.Valid()
      modifies this`localCache
      ensures !acquired ==> localCache == old(localCache)
      ensures acquired ==>
                forall i | 0 <= i < |registry.Used()| && registry.Used()[i].active ::
                  && registry.Used()[i].gid in localCache && localCache[registry.Used()[i].gid] == Seen(registry.Used()[i])
                  && Query(registry.Used()[i].gid).found
                  && (Query(registry.Used()[i].gid).locality == IntraProcess <==> registry.Used()[i].instanceId == instanceId)
                  && Query(registry.Used()[i].gid).locality in {IntraProcess, InterProcessSameHost}
                  && Query(registry.Used()[i].gid).instanceId == registry.Used()[i].instanceId
                  && Query(registry.Used()[i].gid).entityType == registry.Used()[i].entityType
                  && Query(registry.Used()[i].gid).deviceId == registry.Used()[i].deviceId
                  && Query(registry.Used()[i].gid).uid == registry.Used()[i].uid
                  && Query(registry.Used()[i].gid).ipcCapable == registry.Used()[i].ipcCapable
      ensures forall gid: Gid | !Lists(registry.Used(), gid) :: Query(gid) == old(Query(gid))
    {
      if !acquired {
        return;
      }
      var updates: map<Gid, CachedInfo> := map[];
      var table := registry.Used();
      for i := 0 to |table|
        invariant forall j | 0 <= j < i && table[j].active :: table[j].gid in updates && updates[table[j].gid] == Seen(table[j])
        invariant forall gid | gid in updates :: Lists(table, gid)
      {
        if table[i].active {
          updates := updates[table[i].gid := Seen(table[i])];
        }
      }
      localCache := localCache + updates;
    }
  }
}
