/**
  The publisher's pool of GPU blocks: size buckets of returned blocks, the scan
  for a ready one with swap-and-pop removal, creation, and lookup by address.

  The driver's answers (addresses, failures) and the clock are parameters.
 */
module BlockPool {
  import opened Outcomes
  import opened MachineIntegers
  import opened Granularity

  const ID_LIMIT := 0x1_0000_0000

  /** One block, with its metadata segment as this process maps it. */
  class VmmBlock {
    const va: Size
    const size: Size
    const blockId: nat
    ghost const serial: nat  // how many blocks were started before this one
    const exported: bool   // a descriptor for sharing was exported
    const hasMeta: bool
    var refcount: int
    var sharedUid: Size
    var stamp: Size
    var currentUid: Size

    constructor (va: Size, size: Size, blockId: nat, exported: bool, hasMeta: bool, ghost serial: nat)
      ensures this.va == va && this.size == size && this.blockId == blockId && this.serial == serial
      ensures this.exported == exported && this.hasMeta == hasMeta
      ensures refcount == 0 && sharedUid == 0 && stamp == 0 && currentUid == 0
    {
      this.va, this.size, this.blockId, this.serial := va, size, blockId, serial;
      this.exported, this.hasMeta := exported, hasMeta;
      refcount, sharedUid, stamp, currentUid := 0, 0, 0, 0;
    }
  }

  // ---------------------------------------------------------------- buckets

  type Buckets = map<nat, seq<VmmBlock>>

  /** `vec[i] = vec.back(); vec.pop_back()`. */
  function SwapPop<T>(vec: seq<T>, i: nat): seq<T>
    requires i < |vec|
  {
    vec[i := vec[|vec| - 1]][..|vec| - 1]
  }

  /** Swap-and-pop removes the chosen element and nothing else. */
  lemma SwapPopRemovesOne<T>(vec: seq<T>, i: nat)
    requires i < |vec|
    ensures multiset(SwapPop(vec, i)) == multiset(vec) - multiset{vec[i]}
    ensures forall x | x in SwapPop(vec, i) :: x in vec
  {
    var last := |vec| - 1;
    var swapped := vec[i := vec[last]];
    assert vec == vec[..last] + [vec[last]];
    assert swapped == swapped[..last] + [swapped[last]];
    if i != last {
      assert multiset(swapped) == multiset(vec) - multiset{vec[i]} + multiset{vec[last]};
    }
    forall x | x in SwapPop(vec, i) ensures x in vec {
      assert x in multiset(SwapPop(vec, i));
      assert x in multiset(vec);
    }
  }

  ghost predicate Distinct<T>(s: seq<T>) {
    forall i, j | 0 <= i < j < |s| :: s[i] != s[j]
  }

  lemma SwapPopDistinct<T>(vec: seq<T>, i: nat)
    requires i < |vec| && Distinct(vec)
    ensures Distinct(SwapPop(vec, i))
    ensures forall x :: x in SwapPop(vec, i) <==> x in vec && x != vec[i]
  {
    var popped := SwapPop(vec, i);
    forall x ensures x in popped <==> x in vec && x != vec[i] {
      if x in vec && x != vec[i] {
        var j :| 0 <= j < |vec| && vec[j] == x;
        assert popped[if j == |vec| - 1 then i else j] == x;
      }
    }
  }

  lemma {:induction false} LowerBoundExists(keys: set<nat>, key: nat, some: nat) returns (least: nat)
    requires some in keys && key <= some
    ensures least in keys && key <= least && forall k | k in keys && key <= k :: least <= k
    decreases some
  {
    if k: nat :| k in keys && key <= k < some {
      least := LowerBoundExists(keys, key, k);
    } else {
      least := some;
    }
  }

  /** The driver's answer to a request for a new block. */
  datatype Driver = Failed | Created(va: Size, exported: bool, hasMeta: bool)

  ghost predicate Apart(a: VmmBlock, b: VmmBlock) {
    a.va + a.size <= b.va || b.va + b.size <= a.va
  }

  /** `is_block_ready` at time `now`. */
  predicate IsReady(block: VmmBlock, now: nat, grace: nat)
    reads block
    ensures IsReady(block, now, grace) <==>
              !block.hasMeta || (block.refcount <= 0 && (block.stamp == 0 || block.stamp + grace <= now))
  {
    if !block.hasMeta then true
    else if block.refcount > 0 then false
    else if block.stamp == 0 then true
    else if now < block.stamp then false
    else now - block.stamp >= grace
  }

  class CudaMemoryPool {
    const granularity: Size
    const grace: nat
    const ipcCapable: bool
    var freeBlocks: Buckets
    var allBlocks: seq<VmmBlock>
    var nextBlockId: nat
    ghost var started: nat
    ghost var leased: set<VmmBlock>

    constructor (granularity: Size, grace: nat, ipcCapable: bool)
      requires 0 < granularity
      ensures Valid() && allBlocks == [] && freeBlocks == map[] && leased == {} && started == 0
      ensures this.granularity == granularity && this.grace == grace && this.ipcCapable == ipcCapable
    {
      this.granularity, this.grace, this.ipcCapable := granularity, grace, ipcCapable;
      freeBlocks, allBlocks, nextBlockId := map[], [], 0;
      started, leased := 0, {};
    }

    /** Every block is either leased or in the bucket of its size, once. */
    ghost predicate Partition()
      reads this
    {
      && (forall b | b in leased :: b in allBlocks)
      && (forall k | k in freeBlocks ::
            && freeBlocks[k] != [] && Distinct(freeBlocks[k])
            && forall b | b in freeBlocks[k] :: b in allBlocks && b !in leased && b.size == k)
      && (forall b | b in allBlocks && b !in leased :: b.size in freeBlocks && b in freeBlocks[b.size])
    }

    ghost predicate Valid()
      reads this
    {
      && 0 < granularity
      && Partition()
      && (forall i, j | 0 <= i < j < |allBlocks| :: Apart(allBlocks[i], allBlocks[j]) && allBlocks[i].serial < allBlocks[j].serial)
      && (forall b | b in allBlocks :: b.va + b.size <= SIZE_MAX && b.serial < started && b.blockId == b.serial % ID_LIMIT)
      && nextBlockId == started % ID_LIMIT
    }

    /** `block` leaves its place `i` in bucket `key`. */
    function TakeFrom(free: Buckets, key: nat, i: nat): (r: Buckets)
      requires key in free && i < |free[key]|
      ensures forall k | k != key :: (k in r <==> k in free) && (k in r ==> r[k] == free[k])
      ensures key in r <==> |free[key]| > 1
      ensures key in r ==>
                && |r[key]| == |free[key]| - 1
                && forall j | 0 <= j < |r[key]| :: r[key][j] == free[key][if j == i then |r[key]| else j]
    {
      if |free[key]| == 1 then free - {key} else free[key := SwapPop(free[key], i)]
    }

    /** The scan of `allocate`: the position of the first ready block. */
    method FirstReady(vec: seq<VmmBlock>, clock: nat -> nat) returns (i: nat)
      ensures i <= |vec|
      ensures forall j: nat | j < i :: vec[j].hasMeta && (vec[j].refcount > 0 || (vec[j].stamp != 0 && clock(j) < vec[j].stamp + grace))
      ensures i < |vec| ==> !vec[i].hasMeta || (vec[i].refcount <= 0 && (vec[i].stamp == 0 || vec[i].stamp + grace <= clock(i)))
    {
      i := 0;
      while i < |vec|
        invariant i <= |vec|
        invariant forall j: nat | j < i :: !IsReady(vec[j], clock(j), grace)
      {
        if IsReady(vec[i], clock(i), grace) {
          return;
        }
        i := i + 1;
      }
    }

    /** Removal of a found block from its bucket, and the start of its lease. */
    method Take(key: nat, i: nat) returns (block: VmmBlock)
      requires Valid() && key in freeBlocks && i < |freeBlocks[key]|
      modifies this`freeBlocks, this`leased, freeBlocks[key][i]
      ensures Valid() && block == old(freeBlocks[key][i]) && freeBlocks == TakeFrom(old(freeBlocks), key, i)
      ensures leased == old(leased) + {block} && block !in old(leased)
      ensures block.currentUid == 0 && (block.hasMeta ==> block.stamp == 0)
      ensures block.refcount == old(block.refcount) && block.sharedUid == old(block.sharedUid)
    {
      block := freeBlocks[key][i];
      SwapPopDistinct(freeBlocks[key], i);
      freeBlocks := TakeFrom(freeBlocks, key, i);
      leased := leased + {block};
      block.currentUid := 0;
      if block.hasMeta {
        block.stamp := 0;
      }
    }

    /** `lower_bound`: the smallest bucket that is large enough. */
    method SmallestBucket(aligned: Size) returns (key: Option<nat>)
      ensures key.Some? ==> key.value in freeBlocks && aligned <= key.value
      ensures key.Some? ==> forall k | k in freeBlocks.Keys && aligned <= k :: key.value <= k
      ensures key.None? ==> forall k | k in freeBlocks.Keys :: k < aligned
    {
      if some: nat :| some in freeBlocks && aligned <= some {
        ghost var least := LowerBoundExists(freeBlocks.Keys, aligned, some);
        var bucket: nat :| bucket in freeBlocks && aligned <= bucket && forall k | k in freeBlocks.Keys && aligned <= k :: bucket <= k;
        return Some(bucket);
      }
      return None;
    }

    /** The part of `allocate` that looks for a block to recycle. */
    method Recycle(aligned: Size, clock: nat -> nat) returns (r: Option<VmmBlock>, ghost key: nat, ghost at: nat)
      requires Valid()
      modifies this`freeBlocks, this`leased, allBlocks
      ensures Valid()
      // The block is ready, no ready one stands before it, and its bucket is the
      // smallest that is large enough.
      ensures r.Some? ==>
                && key in old(freeBlocks) && aligned <= key && (forall k | k in old(freeBlocks).Keys && aligned <= k :: key <= k)
                && at < |old(freeBlocks)[key]| && r == Some(old(freeBlocks)[key][at])
                && old(!r.value.hasMeta || (r.value.refcount <= 0 && (r.value.stamp == 0 || r.value.stamp + grace <= clock(at))))
                && forall j: nat | j < at :: old(
                     var b := freeBlocks[key][j]; b.hasMeta && (b.refcount > 0 || (b.stamp != 0 && clock(j) < b.stamp + grace)))
      ensures r.Some? ==>
                && freeBlocks == TakeFrom(old(freeBlocks), key, at)
                && leased == old(leased) + {r.value} && r.value !in old(leased)
                && r.value.currentUid == 0 && (r.value.hasMeta ==> r.value.stamp == 0)
                && r.value.refcount == old(r.value.refcount) && r.value.sharedUid == old(r.value.sharedUid)
      // Without a result, all blocks of that bucket are unready.
      ensures r.None? ==>
                && freeBlocks == old(freeBlocks) && leased == old(leased)
                && forall k: nat, j: nat |
                     && k in old(freeBlocks) && aligned <= k && (forall k' | k' in old(freeBlocks).Keys && aligned <= k' :: k <= k')
                     && j < |old(freeBlocks)[k]| :: old(
                       var b := freeBlocks[k][j]; b.hasMeta && (b.refcount > 0 || (b.stamp != 0 && clock(j) < b.stamp + grace)))
      ensures forall b | b in allBlocks && Some(b) != r :: unchanged(b)
    {
      key, at := 0, 0;
      var found := SmallestBucket(aligned);
      if found.Some? {
        var bucket := found.value;
        var i := FirstReady(freeBlocks[bucket], clock);
        if i < |freeBlocks[bucket]| {
          assert freeBlocks[bucket][i] in allBlocks;
          var block := Take(bucket, i);
          return Some(block), bucket, i;
        }
      }
      r := None;
    }

    /** `allocate`.  If `reused`, the request was served by block `at` of bucket
        `key`. */
    method Allocate(byteSize: Size, clock: nat -> nat, driver: Driver) returns (r: Option<VmmBlock>, ghost reused: bool, ghost key: nat, ghost at: nat)
      requires Valid()
      requires driver.Created? ==> RangeFree(driver.va, RoundToGranularity(byteSize, granularity))
      modifies this, allBlocks
      ensures Valid()
      // A recycled block is the first ready one of the smallest bucket that is
      // large enough ...
      ensures var aligned := RoundToGranularity(byteSize, granularity);
              reused ==>
                && key in old(freeBlocks) && aligned <= key && (forall k | k in old(freeBlocks).Keys && aligned <= k :: key <= k)
                && at < |old(freeBlocks)[key]| && r == Some(old(freeBlocks)[key][at])
                && old(!r.value.hasMeta || (r.value.refcount <= 0 && (r.value.stamp == 0 || r.value.stamp + grace <= clock(at))))
                && forall j: nat | j < at :: old(
                     var b := freeBlocks[key][j]; b.hasMeta && (b.refcount > 0 || (b.stamp != 0 && clock(j) < b.stamp + grace)))
      ensures reused ==>
                && freeBlocks == TakeFrom(old(freeBlocks), key, at)
                && allBlocks == old(allBlocks) && started == old(started)
                && r.value.refcount == old(r.value.refcount) && r.value.sharedUid == old(r.value.sharedUid)
      // ... and a new one is made, or refused by the driver, only if all its
      // blocks are unready.
      ensures var aligned := RoundToGranularity(byteSize, granularity);
              !reused ==> forall k: nat, j: nat |
                && k in old(freeBlocks) && aligned <= k && (forall k' | k' in old(freeBlocks).Keys && aligned <= k' :: k <= k')
                && j < |old(freeBlocks)[k]| :: old(
                  var b := freeBlocks[k][j]; b.hasMeta && (b.refcount > 0 || (b.stamp != 0 && clock(j) < b.stamp + grace)))
      ensures !reused ==>
                && freeBlocks == old(freeBlocks) && started == old(started) + 1
                && (r.None? <==> driver.Failed?)
                && (r.None? ==> allBlocks == old(allBlocks))
                && (r.Some? ==>
                      && fresh(r.value) && allBlocks == old(allBlocks) + [r.value] && r.value.va == driver.va
                      && r.value.hasMeta == (ipcCapable && driver.hasMeta) && r.value.exported == (ipcCapable && driver.exported))
      ensures r.None? ==> leased == old(leased)
      ensures r.Some? ==>
                && leased == old(leased) + {r.value} && r.value !in old(leased)
                && r.value.size >= RoundToGranularity(byteSize, granularity)
                && (byteSize + granularity - 1 <= SIZE_MAX ==> r.value.size >= byteSize)
                && r.value.currentUid == 0 && (r.value.hasMeta ==> r.value.stamp == 0)
      ensures forall b | b in old(allBlocks) && Some(b) != r :: unchanged(b)
    {
      var aligned := RoundToGranularity(byteSize, granularity);
      RoundingExact(byteSize, granularity);
      r, key, at := Recycle(aligned, clock);
      reused := r.Some?;
      if r.None? {
        r := CreateBlock(aligned, driver);
      }
    }

    /** The driver never hands out an address range that is in use. */
    ghost predicate RangeFree(va: Size, size: Size)
      reads this
    {
      va + size <= SIZE_MAX && forall b | b in allBlocks :: va + size <= b.va || b.va + b.size <= va
    }

    /** `create_block`: the id is spent even if the driver refuses. */
    method CreateBlock(aligned: Size, driver: Driver) returns (r: Option<VmmBlock>)
      requires Valid()
      requires driver.Created? ==> RangeFree(driver.va, aligned)
      modifies this
      ensures Valid() && freeBlocks == old(freeBlocks) && started == old(started) + 1
      ensures r.None? <==> driver.Failed?
      ensures r.None? ==> allBlocks == old(allBlocks) && leased == old(leased)
      ensures r.Some? ==>
                && fresh(r.value) && allBlocks == old(allBlocks) + [r.value] && leased == old(leased) + {r.value}
                && r.value.size == aligned && r.value.va == driver.va
                && r.value.hasMeta == (ipcCapable && driver.hasMeta) && r.value.exported == (ipcCapable && driver.exported)
                && r.value.currentUid == 0 && r.value.stamp == 0
    {
      ghost var serial := started;
      var id := nextBlockId;
      nextBlockId := (nextBlockId + 1) % ID_LIMIT;
      started := started + 1;
      if driver.Failed? {
        return None;
      }
      var block := new VmmBlock(driver.va, aligned, id, ipcCapable && driver.exported, ipcCapable && driver.hasMeta, serial);
      allBlocks := allBlocks + [block];
      leased := leased + {block};
      return Some(block);
    }

    /** `free`, for a lease that is given back once. */
    method Free(block: VmmBlock)
      requires Valid() && block in leased
      modifies this`freeBlocks, this`leased
      ensures Valid() && leased == old(leased) - {block}
      ensures freeBlocks == old(freeBlocks)[block.size :=
                (if block.size in old(freeBlocks) then old(freeBlocks)[block.size] else []) + [block]]
    {
      var bucket := if block.size in freeBlocks then freeBlocks[block.size] else [];
      freeBlocks := freeBlocks[block.size := bucket + [block]];
      leased := leased - {block};
    }

    /** `assign_uid`; `fresh` is the drawn uid.  A second publication of the same
        lease keeps both the uid and the first publish time. */
    method AssignUid(block: VmmBlock, drawn: Size, now: Size) returns (uid: Size)
      requires drawn != 0
      modifies block
      ensures uid != 0 && block.currentUid == uid && block.refcount == old(block.refcount)
      ensures old(block.currentUid) != 0 ==> uid == old(block.currentUid) && unchanged(block)
      ensures old(block.currentUid) == 0 ==>
                && uid == drawn
                && (block.hasMeta ==> block.sharedUid == drawn && block.stamp == now)
                && (!block.hasMeta ==> block.sharedUid == old(block.sharedUid) && block.stamp == old(block.stamp))
    {
      if block.currentUid != 0 {
        return block.currentUid;
      }
      uid := drawn;
      block.currentUid := uid;
      if block.hasMeta {
        block.sharedUid := uid;
        block.stamp := now;
      }
    }

    /** An address names at most one block. */
    lemma AddressNamesOneBlock(a: VmmBlock, b: VmmBlock, va: Size)
      requires Valid() && a in allBlocks && b in allBlocks
      requires a.va <= va < a.va + a.size && b.va <= va < b.va + b.size
      ensures a == b
    {
    }

    /** `find_block_for_va`: any address inside a block finds exactly that block. */
    method FindBlockForVa(va: Size) returns (r: Option<VmmBlock>)
      requires Valid()
      ensures r.Some? ==> r.value in allBlocks && r.value.va <= va < r.value.va + r.value.size
      ensures forall b | b in allBlocks && b.va <= va < b.va + b.size :: r == Some(b)
      ensures r.None? <==> forall b | b in allBlocks :: !(b.va <= va < b.va + b.size)
    {
      for i := 0 to |allBlocks|
        invariant forall j | 0 <= j < i :: !(allBlocks[j].va <= va < allBlocks[j].va + allBlocks[j].size)
      {
        if va >= allBlocks[i].va && va < allBlocks[i].va + allBlocks[i].size {
          forall b | b in allBlocks && b.va <= va < b.va + b.size ensures b == allBlocks[i] {
            AddressNamesOneBlock(b, allBlocks[i], va);
          }
          return Some(allBlocks[i]);
        }
      }
      return None;
    }

    /** A block that is not leased has exactly one place in exactly one bucket. */
    lemma OnePlaceEach(b: VmmBlock)
      requires Valid() && b in allBlocks
      ensures b !in leased <==> exists k: nat, i: nat :: k in freeBlocks && i < |freeBlocks[k]| && freeBlocks[k][i] == b
      ensures forall k: nat, i: nat, k': nat, i': nat |
                && k in freeBlocks && i < |freeBlocks[k]| && freeBlocks[k][i] == b
                && k' in freeBlocks && i' < |freeBlocks[k']| && freeBlocks[k'][i'] == b ::
                k == k' && i == i'
    {
    }

    /** Block ids repeat exactly after 2^32 creations. */
    lemma IdsRepeatAfterLimit(a: VmmBlock, b: VmmBlock)
      requires Valid() && a in allBlocks && b in allBlocks
      ensures a.blockId == b.blockId <==> (a.serial - b.serial) % ID_LIMIT == 0
      ensures started <= ID_LIMIT && a != b ==> a.blockId != b.blockId
    {
    }
  }
}
