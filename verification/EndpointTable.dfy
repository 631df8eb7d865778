/**
  The host-wide endpoint table as a value: what one critical section makes of the
  used slots, and what every run of them keeps.
 */
module EndpointTable {
  import opened Outcomes

  datatype Gid = Gid(bytes: seq<bv8>)

  datatype EntityType = PublisherEntity | SubscriptionEntity | ServiceClientEntity | ServiceServerEntity

  datatype Entry = Entry(
    instanceId: nat, gid: Gid, entityType: EntityType, deviceId: int, uid: nat,
    active: bool, ipcCapable: bool, name: string)

  /** The id a manager takes: its process id over 32 bits of its own choice. */
  function InstanceId(pid: nat, low: nat): nat {
    pid * 0x1_0000_0000 + low
  }

  /** The process id kept in the upper half of an instance id, as a `pid_t`. */
  function PidOf(instanceId: nat): int {
    var high := instanceId / 0x1_0000_0000 % 0x1_0000_0000;
    if high < 0x8000_0000 then high else high - 0x1_0000_0000
  }

  /** `alive` answers the liveness probe for a positive process id. */
  predicate IsDead(entry: Entry, alive: int -> bool) {
    entry.active && PidOf(entry.instanceId) > 0 && !alive(PidOf(entry.instanceId))
  }

  /** The process id put into an instance id comes out of it. */
  lemma PidOfInstance(pid: nat, low: nat)
    requires pid < 0x1_0000_0000 && low < 0x1_0000_0000
    ensures InstanceId(pid, low) == pid * 0x1_0000_0000 + low
    ensures PidOf(pid * 0x1_0000_0000 + low) == if pid < 0x8000_0000 then pid else pid - 0x1_0000_0000
  {
    assert InstanceId(pid, low) / 0x1_0000_0000 == pid;
  }

  /** An entry is dead if it is active and its process, if there can be one of that
      id, is gone. */
  lemma DeadIff(entry: Entry, pid: nat, low: nat, alive: int -> bool)
    requires pid < 0x1_0000_0000 && low < 0x1_0000_0000 && entry.instanceId == InstanceId(pid, low)
    ensures IsDead(entry, alive) <==> entry.active && 0 < pid < 0x8000_0000 && !alive(pid)
  {
    PidOfInstance(pid, low);
  }

  function FirstGid(table: seq<Entry>, gid: Gid): (i: nat)
    ensures i <= |table|
    ensures i < |table| ==> table[i].gid == gid
    ensures forall j | 0 <= j < i :: table[j].gid != gid
  {
    if table == [] || table[0].gid == gid then 0 else 1 + FirstGid(table[1..], gid)
  }

  function FirstInactive(table: seq<Entry>): (i: nat)
    ensures i <= |table|
    ensures i < |table| ==> !table[i].active
    ensures forall j | 0 <= j < i :: table[j].active
  {
    if table == [] || !table[0].active then 0 else 1 + FirstInactive(table[1..])
  }

  /** The slot of the same gid, else the first inactive one, else a new one. */
  function Registered(table: seq<Entry>, max: nat, entry: Entry): Option<seq<Entry>> {
    var own, idle := FirstGid(table, entry.gid), FirstInactive(table);
    if own < |table| then Some(table[own := entry])
    else if idle < |table| then Some(table[idle := entry])
    else if |table| < max then Some(table + [entry])
    else None
  }

  function Purged(table: seq<Entry>, alive: int -> bool): (r: seq<Entry>)
    ensures |r| == |table|
  {
    seq(|table|, i requires 0 <= i < |table| => if IsDead(table[i], alive) then table[i].(active := false) else table[i])
  }

  /** A purge, told by the processes that the entries belong to. */
  lemma PurgedByProcess(table: seq<Entry>, alive: int -> bool)
    ensures forall i: nat, pid: nat, low: nat |
              i < |table| && pid < 0x1_0000_0000 && low < 0x1_0000_0000 && table[i].instanceId == InstanceId(pid, low) ::
              Purged(table, alive)[i] == if pid == 0 || pid >= 0x8000_0000 || alive(pid) then table[i] else table[i].(active := false)
  {
    forall i: nat, pid: nat, low: nat |
      i < |table| && pid < 0x1_0000_0000 && low < 0x1_0000_0000 && table[i].instanceId == InstanceId(pid, low)
      ensures Purged(table, alive)[i] == if pid == 0 || pid >= 0x8000_0000 || alive(pid) then table[i] else table[i].(active := false)
    {
      DeadIff(table[i], pid, low, alive);
    }
  }

  function DeadCount(table: seq<Entry>, alive: int -> bool): nat {
    if table == [] then 0
    else DeadCount(table[..|table| - 1], alive) + (if IsDead(table[|table| - 1], alive) then 1 else 0)
  }

  lemma {:induction false} DeadCountIsSize(table: seq<Entry>, alive: int -> bool, dead: set<nat>)
    requires forall i: nat :: i in dead <==> i < |table| && IsDead(table[i], alive)
    ensures DeadCount(table, alive) == |dead|
  {
    if table == [] {
      assert dead == {};
    } else {
      var n := |table| - 1;
      DeadCountIsSize(table[..n], alive, dead - {n});
    }
  }

  /** What a purge leaves is a table, and the slots it switched off are counted. */
  lemma PurgeCounts(table: seq<Entry>, after: seq<Entry>, max: nat, alive: int -> bool)
    requires TableOk(table, max) && after == Purged(table, alive)
    ensures TableOk(after, max)
    ensures DeadCount(table, alive) == |set i: nat | i < |after| && table[i].active && !after[i].active|
  {
    DeadCountIsSize(table, alive, set i: nat | i < |after| && table[i].active && !after[i].active);
  }

  /** What a manager's destructor does to its own entries. */
  function Left(table: seq<Entry>, instanceId: nat): (r: seq<Entry>)
    ensures |r| == |table|
  {
    seq(|table|, i requires 0 <= i < |table| =>
      if table[i].active && table[i].instanceId == instanceId then table[i].(active := false) else table[i])
  }

  ghost predicate DistinctGids(table: seq<Entry>) {
    forall i, j | 0 <= i < j < |table| :: table[i].gid != table[j].gid
  }

  ghost predicate TableOk(table: seq<Entry>, max: nat) {
    |table| <= max && DistinctGids(table)
  }

  lemma DeactivationKeepsTable(table: seq<Entry>, table': seq<Entry>, max: nat)
    requires TableOk(table, max) && |table'| == |table|
    requires forall i | 0 <= i < |table| :: table'[i].gid == table[i].gid
    ensures TableOk(table', max)
  {
  }

  datatype Section = Register(entry: Entry) | Purge(alive: int -> bool) | Exit(instanceId: nat)

  /** One critical section; a registration that fails changes nothing. */
  function After(table: seq<Entry>, max: nat, section: Section): seq<Entry> {
    match section
    case Register(entry) => (match Registered(table, max, entry) case Some(t) => t case None => table)
    case Purge(alive) => Purged(table, alive)
    case Exit(instanceId) => Left(table, instanceId)
  }

  function AfterAll(table: seq<Entry>, max: nat, sections: seq<Section>): seq<Entry>
    decreases |sections|
  {
    if sections == [] then table
    else After(AfterAll(table, max, sections[..|sections| - 1]), max, sections[|sections| - 1])
  }

  /** Registration fails exactly when the gid is absent and every slot there can
      be is in use by an active entry. */
  lemma RegistrationFailsIff(table: seq<Entry>, max: nat, entry: Entry)
    requires TableOk(table, max)
    ensures Registered(table, max, entry).None? <==>
              && |table| == max
              && forall i | 0 <= i < |table| :: table[i].active && table[i].gid != entry.gid
  {
  }

  /** A successful registration leaves exactly one active entry of its gid, the
      new one, and touches at most one other slot: an inactive one. */
  lemma RegistrationSucceeds(table: seq<Entry>, max: nat, entry: Entry)
    requires TableOk(table, max) && entry.active && Registered(table, max, entry).Some?
    ensures var t := Registered(table, max, entry).value;
            && TableOk(t, max) && entry in t
            && (forall i | 0 <= i < |table| :: t[i] == table[i] || (t[i] == entry && (table[i].gid == entry.gid || !table[i].active)))
            // a slot of the same gid before any other, the first idle one before a new one
            && (forall i | 0 <= i < |table| && table[i].gid == entry.gid :: t == table[i := entry])
            && (forall i | 0 <= i < |table| && !table[i].active && (forall j | 0 <= j < |table| :: table[j].gid != entry.gid)
                           && (forall j | 0 <= j < i :: table[j].active) :: t == table[i := entry])
            && ((forall i | 0 <= i < |table| :: table[i].active && table[i].gid != entry.gid) ==> t == table + [entry])
  {
    var t := Registered(table, max, entry).value;
    var own, idle := FirstGid(table, entry.gid), FirstInactive(table);
    var at := if own < |table| then own else if idle < |table| then idle else |table|;
    assert t[at] == entry;
  }

  /** Either all slots are taken by others, or every slot of the gid holds the new
      endpoint, and some slot does. */
  lemma RegistrationStands(table: seq<Entry>, max: nat, entry: Entry)
    requires TableOk(table, max) && entry.active
    ensures var r := Registered(table, max, entry);
            && (r.None? <==> |table| == max && forall i | 0 <= i < |table| :: table[i].active && table[i].gid != entry.gid)
            && (r.Some? ==> exists i :: 0 <= i < |r.value| && r.value[i].gid == entry.gid)
            && (r.Some? ==> forall i | 0 <= i < |r.value| && r.value[i].gid == entry.gid :: r.value[i] == entry)
  {
    RegistrationFailsIff(table, max, entry);
    if Registered(table, max, entry).Some? {
      RegistrationSucceeds(table, max, entry);
    }
  }

  /** Over every interleaving of registrations, purges and exits of any number of
      processes, gids stay distinct and the used slots within the maximum. */
  lemma {:induction false} EveryRunKeepsTable(max: nat, sections: seq<Section>)
    requires forall n | 0 <= n < |sections| && sections[n].Register? :: sections[n].entry.active
    ensures TableOk(AfterAll([], max, sections), max)
  {
    if sections != [] {
      var before := AfterAll([], max, sections[..|sections| - 1]);
      EveryRunKeepsTable(max, sections[..|sections| - 1]);
      var last := sections[|sections| - 1];
      if last.Register? && Registered(before, max, last.entry).Some? {
        RegistrationSucceeds(before, max, last.entry);
      }
    }
  }

  // ------------------------------------------------ slots refine a plain map

  ghost predicate ActiveAt(table: seq<Entry>, gid: Gid, i: nat) {
    i < |table| && table[i].active && table[i].gid == gid
  }

  predicate Lists(table: seq<Entry>, gid: Gid) {
    exists i :: 0 <= i < |table| && table[i].active && table[i].gid == gid
  }

  /** `live` is the map of the active endpoints by gid: all that the slots are
      there to hold. */
  ghost predicate Holds(table: seq<Entry>, live: map<Gid, Entry>) {
    && (forall i | 0 <= i < |table| && table[i].active :: table[i].gid in live && live[table[i].gid] == table[i])
    && (forall gid | gid in live :: exists i :: ActiveAt(table, gid, i))
  }

  function WithoutLast(table: seq<Entry>, live: map<Gid, Entry>): map<Gid, Entry>
    requires table != []
  {
    if table[|table| - 1].active then live - {table[|table| - 1].gid} else live
  }

  lemma PrefixHolds(table: seq<Entry>, live: map<Gid, Entry>)
    requires table != [] && DistinctGids(table) && Holds(table, live)
    ensures Holds(table[..|table| - 1], WithoutLast(table, live))
    ensures |live| == |WithoutLast(table, live)| + (if table[|table| - 1].active then 1 else 0)
  {
    var n := |table| - 1;
    var before := WithoutLast(table, live);
    forall gid | gid in before ensures exists i :: ActiveAt(table[..n], gid, i) {
      var i :| ActiveAt(table, gid, i);
      assert ActiveAt(table[..n], gid, i);
    }
    if table[n].active {
      WithoutOne(live, table[n].gid);
    }
  }

  lemma WithoutOne(live: map<Gid, Entry>, gid: Gid)
    requires gid in live
    ensures |live| == |live - {gid}| + 1
  {
    assert live == (live - {gid})[gid := live[gid]];
  }

  lemma EmptyHolds(live: map<Gid, Entry>)
    requires Holds([], live)
    ensures |live| == 0
  {
  }

  predicate AllActive(table: seq<Entry>) {
    forall i | 0 <= i < |table| :: table[i].active
  }

  lemma AllActiveLast(table: seq<Entry>)
    requires table != []
    ensures AllActive(table) <==> AllActive(table[..|table| - 1]) && table[|table| - 1].active
  {
  }

  lemma {:induction false} HeldSize(table: seq<Entry>, live: map<Gid, Entry>)
    requires DistinctGids(table) && Holds(table, live)
    ensures |live| <= |table|
    ensures |live| == |table| <==> AllActive(table)
  {
    if table == [] {
      EmptyHolds(live);
    } else {
      var n := |table| - 1;
      var prefix, before := table[..n], WithoutLast(table, live);
      PrefixHolds(table, live);
      AllActiveLast(table);
      HeldSize(prefix, before);
    }
  }

  lemma StoredRefines(table: seq<Entry>, live: map<Gid, Entry>, at: nat, entry: Entry)
    requires DistinctGids(table) && Holds(table, live) && entry.active
    requires at <= |table|
    requires at < |table| ==> table[at].gid == entry.gid || (!table[at].active && entry.gid !in live)
    requires forall i | 0 <= i < |table| && i != at :: table[i].gid != entry.gid
    ensures Holds(if at < |table| then table[at := entry] else table + [entry], live[entry.gid := entry])
  {
    var t := if at < |table| then table[at := entry] else table + [entry];
    var now := live[entry.gid := entry];
    assert forall i | 0 <= i < |table| && i != at :: t[i] == table[i];
    forall gid | gid in now ensures exists i :: ActiveAt(t, gid, i) {
      if gid == entry.gid {
        assert ActiveAt(t, gid, at);
      } else {
        var i :| ActiveAt(table, gid, i);
        assert ActiveAt(t, gid, i);
      }
    }
  }

  /** A registration enters the endpoint, and fails exactly when the map already
      holds the maximum of other endpoints: reuse of slots loses no room. */
  lemma RegistrationRefines(table: seq<Entry>, live: map<Gid, Entry>, max: nat, entry: Entry)
    requires TableOk(table, max) && Holds(table, live) && entry.active
    ensures Registered(table, max, entry).None? <==> entry.gid !in live && |live| == max
    ensures Registered(table, max, entry).Some? ==> Holds(Registered(table, max, entry).value, live[entry.gid := entry])
  {
    HeldSize(table, live);
    RegistrationFailsIff(table, max, entry);
    var own, idle := FirstGid(table, entry.gid), FirstInactive(table);
    if own == |table| {
      assert forall i :: !ActiveAt(table, entry.gid, i);
    }
    if Registered(table, max, entry).Some? {
      StoredRefines(table, live, if own < |table| then own else if idle < |table| then idle else |table|, entry);
    }
  }

  function PlainAfter(live: map<Gid, Entry>, max: nat, section: Section): map<Gid, Entry> {
    match section
    case Register(entry) => if entry.gid !in live && |live| == max then live else live[entry.gid := entry]
    case Purge(alive) => map g | g in live && !IsDead(live[g], alive) :: live[g]
    case Exit(instanceId) => map g | g in live && live[g].instanceId != instanceId :: live[g]
  }

  function PlainAfterAll(max: nat, sections: seq<Section>): map<Gid, Entry>
    decreases |sections|
  {
    if sections == [] then map[]
    else PlainAfter(PlainAfterAll(max, sections[..|sections| - 1]), max, sections[|sections| - 1])
  }

  /** Switching off slots takes exactly their endpoints out of the map. */
  lemma DeactivationRefines(table: seq<Entry>, table': seq<Entry>, live: map<Gid, Entry>, live': map<Gid, Entry>)
    requires DistinctGids(table) && Holds(table, live) && |table'| == |table|
    requires forall i | 0 <= i < |table| :: table'[i] == table[i] || (table'[i] == table[i].(active := false))
    requires forall gid | gid in live' :: gid in live && live'[gid] == live[gid]
    requires forall i | 0 <= i < |table| && table[i].active :: table'[i].active <==> table[i].gid in live'
    ensures Holds(table', live')
  {
    forall gid | gid in live' ensures exists i :: ActiveAt(table', gid, i) {
      var i :| ActiveAt(table, gid, i);
      assert ActiveAt(table', gid, i);
    }
  }

  lemma SectionRefines(table: seq<Entry>, live: map<Gid, Entry>, max: nat, section: Section)
    requires TableOk(table, max) && Holds(table, live) && (section.Register? ==> section.entry.active)
    ensures Holds(After(table, max, section), PlainAfter(live, max, section))
  {
    if section.Register? {
      RegistrationRefines(table, live, max, section.entry);
    } else {
      DeactivationRefines(table, After(table, max, section), live, PlainAfter(live, max, section));
    }
  }

  /** Over every run, the slot table holds the same active endpoints as a map
      bounded by the maximum. */
  lemma {:induction false} EveryRunRefines(max: nat, sections: seq<Section>)
    requires forall n | 0 <= n < |sections| && sections[n].Register? :: sections[n].entry.active
    ensures Holds(AfterAll([], max, sections), PlainAfterAll(max, sections))
  {
    if sections != [] {
      var n := |sections| - 1;
      EveryRunRefines(max, sections[..n]);
      EveryRunKeepsTable(max, sections[..n]);
      SectionRefines(AfterAll([], max, sections[..n]), PlainAfterAll(max, sections[..n]), max, sections[n]);
    }
  }
}
