/**
  Importing a publisher's block into a subscriber process: the import cache, the
  shared reference count on every exit, and the deleter of the imported buffer.

  What the operating system and the driver answer is a parameter.  Steps of
  other processes between the atomic accesses are the subject of BlockProtocol;
  here one call is followed through all of its exits.
 */
module IpcImport {
  import opened Outcomes
  import opened MachineIntegers

  const MAX_SOCKET_NAME := 107

  /** The metadata segment shared with the publisher. */
  class IpcMetadata {
    var refcount: int
    var uid: Size

    constructor (uid: Size)
      ensures refcount == 0 && this.uid == uid
    {
      refcount, this.uid := 0, uid;
    }
  }

  datatype Key = Key(pid: int, blockId: nat)

  datatype CachedImport = CachedImport(va: Size, size: Size, meta: IpcMetadata?)

  datatype Descriptor = Descriptor(
    size: Size, deviceId: int, useIpc: bool, key: Key, blockSize: Size, socketName: string, uid: Size)

  /** The answers met by an import that is not in the cache. */
  datatype World = World(
    segment: IpcMetadata?, socket: bool, fd: bool, handle: bool, va: Option<Size>,
    mapped: bool, device: bool, access: bool)

  datatype Fault = StaleUid | InvalidSocketName | NoDescriptor | DriverError | OtherDevice | NotShared

  datatype Imported = Imported(va: Size, meta: IpcMetadata?)

  /** `check_uid_staleness` lets the import through. */
  predicate UidAccepted(meta: IpcMetadata?, expected: Size)
    reads meta
  {
    meta == null || expected == 0 || meta.uid == expected
  }

  predicate ValidSocketName(name: string) {
    1 <= |name| <= MAX_SOCKET_NAME
  }

  /** All that follows the uid check of an uncached import succeeds. */
  predicate MapsBlock(world: World, name: string) {
    world.socket && ValidSocketName(name) && world.fd && world.handle && world.va.Some? && world.mapped && world.device && world.access
  }

  /** An uncached import throws before its cleanup can run. */
  predicate Escapes(world: World, name: string) {
    world.socket && !ValidSocketName(name)
  }

  class Importer {
    var cache: map<Key, CachedImport>
    ghost var held: multiset<IpcMetadata>
    ghost var leaked: multiset<IpcMetadata>

    constructor ()
      ensures cache == map[] && held == multiset{} && leaked == multiset{}
    {
      cache, held, leaked := map[], multiset{}, multiset{};
    }

    /** The cached mappings have the sizes of the blocks they map. */
    ghost predicate Agrees(sizeOf: Key -> Size)
      reads this
    {
      forall k | k in cache :: cache[k].size == sizeOf(k)
    }

    /** The metadata an import of `key` will count itself in. */
    function MetaOf(key: Key, world: World): (meta: IpcMetadata?)
      reads this
      ensures key in cache ==> meta == cache[key].meta
      ensures key !in cache ==> meta == world.segment
    {
      if key in cache then cache[key].meta else world.segment
    }

    /** `import_block`. */
    method ImportBlock(socketName: string, key: Key, size: Size, expected: Size, world: World) returns (r: Result<Imported, Fault>)
      modifies this`cache, MetaOf(key, world)
      ensures r.Ok? <==> old(UidAccepted(MetaOf(key, world), expected)) && (key in old(cache) || MapsBlock(world, socketName))
      ensures r.Err? ==> r.error in {StaleUid, InvalidSocketName, NoDescriptor, DriverError}
      ensures r == Err(StaleUid) <==> !old(UidAccepted(MetaOf(key, world), expected))
      ensures r == Err(StaleUid) <==> var meta := old(MetaOf(key, world)); meta != null && expected != 0 && meta.uid != expected
      ensures r == Err(InvalidSocketName) <==>
                old(UidAccepted(MetaOf(key, world), expected)) && key !in old(cache) && Escapes(world, socketName)
      ensures key !in old(cache) && r != Err(StaleUid) ==>
                && (r == Err(InvalidSocketName) <==> world.socket && (|socketName| == 0 || |socketName| > 107))
                && (r == Err(NoDescriptor) <==> !world.socket || (1 <= |socketName| <= 107 && !world.fd))
      // a hit gives the cached address; a miss maps, step by step, at the reserved one
      ensures key in old(cache) && r != Err(StaleUid) ==> r == Ok(Imported(old(cache)[key].va, old(cache)[key].meta))
      ensures key !in old(cache) && r != Err(StaleUid) ==>
                (r.Ok? <==>
                  && world.socket && 1 <= |socketName| <= 107 && world.fd && world.handle
                  && world.va.Some? && world.mapped && world.device && world.access)
      ensures key !in old(cache) && r.Ok? ==> world.va == Some(r.value.va) && r.value.meta == world.segment
      // a success counts in once and is cached; the first one maps the stated size
      ensures r.Ok? ==>
                && r.value.meta == old(MetaOf(key, world))
                && key in cache && cache[key].va == r.value.va && cache[key].meta == r.value.meta
                && cache == (if key in old(cache) then old(cache) else old(cache)[key := CachedImport(r.value.va, size, r.value.meta)])
      // a failure leaves no trace, unless it escapes the cleanup
      ensures r.Err? ==> cache == old(cache)
      ensures var meta := old(MetaOf(key, world));
              meta != null ==>
                && meta.uid == old(meta.uid)
                && meta.refcount == old(meta.refcount) + (if r.Ok? || r == Err(InvalidSocketName) then 1 else 0)
    {
      var meta := MetaOf(key, world);
      if meta != null {
        meta.refcount := meta.refcount + 1;
      }
      if !UidAccepted(meta, expected) {
        meta.refcount := meta.refcount - 1;
        return Err(StaleUid);
      }
      if key in cache {
        return Ok(Imported(cache[key].va, meta));
      }
      if world.socket && !ValidSocketName(socketName) {
        return Err(InvalidSocketName);
      }
      var fault := None;
      if !world.socket || !world.fd {
        fault := Some(NoDescriptor);
      } else if !world.handle || world.va.None? || !world.mapped || !world.device || !world.access {
        fault := Some(DriverError);
      }
      if fault.Some? {
        if meta != null {
          meta.refcount := meta.refcount - 1;
        }
        return Err(fault.value);
      }
      cache := cache[key := CachedImport(world.va.value, size, meta)];
      return Ok(Imported(world.va.value, meta));
    }

    /** The books agree with the shared count: it moved by exactly the imports
        taken and given back by this process, and by those it lost. */
    twostate predicate Balanced(meta: IpcMetadata)
      reads this, meta
    {
      meta.refcount - held[meta] - leaked[meta] == old(meta.refcount) - old(held[meta]) - old(leaked[meta])
    }

    /** `from_descriptor_with_endpoint`: an imported buffer, or an empty one. */
    method FromDescriptor(d: Descriptor, localDevice: int, world: World, ghost sizeOf: Key -> Size) returns (r: Result<Imported, Fault>)
      modifies this, MetaOf(d.key, world)
      ensures r.Ok? <==>
                && d.useIpc && d.socketName != "" && d.deviceId == localDevice
                && old(UidAccepted(MetaOf(d.key, world), d.uid)) && (d.key in old(cache) || MapsBlock(world, d.socketName))
      ensures r == Err(NotShared) <==> !d.useIpc || d.socketName == ""
      ensures r == Err(OtherDevice) <==> d.useIpc && d.socketName != "" && d.deviceId != localDevice
      ensures r.Ok? ==> r.value.meta == old(MetaOf(d.key, world)) && d.key in cache && r.value.va == cache[d.key].va
      ensures r.Ok? && d.key in old(cache) ==> r.value == Imported(old(cache)[d.key].va, old(cache)[d.key].meta)
      ensures r.Ok? && d.key !in old(cache) ==> world.va == Some(r.value.va) && r.value.meta == world.segment
      // descriptors that state their blocks' sizes get mappings that cover them
      ensures old(Agrees(sizeOf)) && d.blockSize == sizeOf(d.key) ==> Agrees(sizeOf) && (r.Ok? ==> d.blockSize == cache[d.key].size)
      ensures r.Ok? ==> cache[d.key].size == if d.key in old(cache) then old(cache)[d.key].size else d.blockSize
      ensures r.Ok? && r.value.meta != null ==> held == old(held) + multiset{r.value.meta}
      ensures r.Err? ==> held == old(held) && cache == old(cache)
      ensures forall meta: IpcMetadata | old(allocated(meta)) :: Balanced(meta)
      // nothing is lost for socket names of 1 to 107 bytes
      ensures |d.socketName| <= MAX_SOCKET_NAME ==> leaked == old(leaked)
      ensures leaked != old(leaked) <==>
                && d.useIpc && |d.socketName| > MAX_SOCKET_NAME && d.deviceId == localDevice && old(MetaOf(d.key, world)) != null
                && old(UidAccepted(MetaOf(d.key, world), d.uid)) && d.key !in old(cache) && world.socket
    {
      if !d.useIpc || d.socketName == "" {
        return Err(NotShared);
      }
      if d.deviceId != localDevice {
        return Err(OtherDevice);
      }
      ghost var meta := MetaOf(d.key, world);
      r := ImportBlock(d.socketName, d.key, d.blockSize, d.uid, world);
      if meta != null {
        if r.Ok? {
          held := held + multiset{meta};
        } else if r == Err(InvalidSocketName) {
          leaked := leaked + multiset{meta};
          assert leaked[meta] == old(leaked)[meta] + 1;
        }
      }
    }

    /** The deleter of an imported buffer. */
    method Delete(imported: Imported)
      requires imported.meta != null ==> imported.meta in held
      modifies this`held, imported.meta
      ensures imported.meta != null ==> held == old(held) - multiset{imported.meta} && imported.meta.refcount == old(imported.meta.refcount) - 1
      ensures imported.meta == null ==> held == old(held)
      ensures forall meta: IpcMetadata | old(allocated(meta)) :: Balanced(meta)
    {
      if imported.meta != null {
        imported.meta.refcount := imported.meta.refcount - 1;
        held := held - multiset{imported.meta};
      }
    }
  }
}
