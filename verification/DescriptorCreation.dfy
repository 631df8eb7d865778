/**
  The block part of descriptor creation: from a buffer's address to the block it
  lies in, and on to an import that maps at least the buffer's bytes.
 */
module DescriptorCreation {
  import opened Outcomes
  import opened MachineIntegers
  import opened BlockPool
  import opened IpcImport

  /** The block fields of a descriptor for a buffer of `n` bytes at `address`;
      `path` is the answer of registering the block.  An address in no block, such
      as an empty buffer's, gives none. */
  method DescribeBuffer(pool: CudaMemoryPool, address: Size, n: Size, deviceId: int, pid: int, path: string, drawn: Size, now: Size)
    returns (r: Option<Descriptor>, ghost block: VmmBlock?)
    requires pool.Valid() && drawn != 0
    modifies pool.allBlocks
    ensures pool.Valid()
    ensures forall b | b in pool.allBlocks && b != block :: unchanged(b)
    ensures r.Some? <==> pool.ipcCapable && path != "" && exists b :: b in pool.allBlocks && b.va <= address < b.va + b.size && b.exported
    ensures r.None? ==> block == null
    ensures r.Some? ==>
              && block != null && block in pool.allBlocks && (forall b | b in pool.allBlocks && b.va <= address < b.va + b.size :: b == block)
              && r.value == Descriptor(n, deviceId, true, Key(pid, block.blockId), block.size, path, block.currentUid)
              && block.currentUid == (if old(block.currentUid) == 0 then drawn else old(block.currentUid))
              && (block.hasMeta && old(block.currentUid) == 0 ==> block.sharedUid == r.value.uid && block.stamp == now)
  {
    block := null;
    if !pool.ipcCapable {
      return None, block;
    }
    var found := pool.FindBlockForVa(address);
    if found.None? || !found.value.exported || path == "" {
      return None, block;
    }
    block := found.value;
    var uid := pool.AssignUid(found.value, drawn, now);
    return Some(Descriptor(n, deviceId, true, Key(pid, found.value.blockId), found.value.size, path, uid)), block;
  }

  /** A leased buffer described by one process and imported by another, from the
      cache or not: the mapping covers the buffer. */
  method ImportDescribed(pool: CudaMemoryPool, ghost block: VmmBlock, address: Size, n: Size, deviceId: int, pid: int,
                         path: string, drawn: Size, now: Size, importer: Importer, localDevice: int, world: World,
                         ghost sizeOf: Key -> Size)
    returns (r: Option<Imported>)
    requires pool.Valid() && block in pool.leased && address == block.va && 0 < n <= block.size && drawn != 0
    requires importer.Agrees(sizeOf) && forall b | b in pool.allBlocks :: sizeOf(Key(pid, b.blockId)) == b.size
    modifies pool.allBlocks, importer, importer.MetaOf(Key(pid, block.blockId), world)
    ensures pool.Valid() && importer.Agrees(sizeOf)
    ensures r.Some? ==>
              var key := Key(pid, block.blockId);
              && key in importer.cache && r.value.va == importer.cache[key].va && n <= importer.cache[key].size
              && (key in old(importer.cache) ==> r.value.va == old(importer.cache)[key].va)
              && (key !in old(importer.cache) ==> world.va == Some(r.value.va))
  {
    assert block.va <= address < block.va + block.size;
    ghost var found;
    var described: Option<Descriptor>;
    described, found := DescribeBuffer(pool, address, n, deviceId, pid, path, drawn, now);
    if described.None? {
      return None;
    }
    var imported := importer.FromDescriptor(described.value, localDevice, world, sizeOf);
    return if imported.Ok? then Some(imported.value) else None;
  }
}
