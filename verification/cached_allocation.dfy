/** Allocating and freeing blocks through the cache (kernel/src/ext2.rs:424-454): a block that is not in use is never
    cached, so a block just allocated reads as zeros although its old contents may still be on the device. */
module CachedAllocation {
  import opened Basics
  import BlockCache
  import BlockAllocator

  class Blocks {
    const cache: BlockCache.Cache
    const alloc: BlockAllocator.Allocator

    /** No block of the volume that is free is cached. */
    ghost predicate FreeUncached()
      reads cache, alloc
      requires cache.Valid() && alloc.Valid()
    {
      forall b: nat :: alloc.firstData <= b < alloc.blocks && BlockCache.Cached(cache.S(), b) ==> alloc.InUse(b)
    }

    ghost predicate Valid()
      reads this, cache, alloc
    {
      cache.Valid() && alloc.Valid() && alloc.blocks <= BlockCache.U32 && FreeUncached()
    }

    /** What the file system sees in a block. */
    ghost function Contents(b: nat): BlockCache.Block
      reads cache
      requires cache.Valid()
    {
      BlockCache.Logical(cache.S(), b)
    }

    /** A mounted volume: nothing is cached yet. */
    constructor (cache: BlockCache.Cache, alloc: BlockAllocator.Allocator)
      requires cache.Valid() && alloc.Valid() && alloc.blocks <= BlockCache.U32
      requires forall b: nat :: !BlockCache.Cached(cache.S(), b)
      ensures Valid() && this.cache == cache && this.alloc == alloc
    {
      this.cache, this.alloc := cache, alloc;
    }

    /** alloc_block: a block that was free reads as zeros now, and no other block changes. */
    method AllocBlock(goal: nat) returns (r: Option<nat>)
      requires Valid()
      modifies cache, alloc
      ensures Valid()
      ensures r.Some? ==> alloc.firstData <= r.value < alloc.blocks && !old(alloc.InUse(r.value)) && alloc.InUse(r.value)
      ensures r.Some? ==> forall x: nat :: Contents(x) == if x == r.value then cache.zero else old(Contents(x))
      ensures r.None? ==> forall x: nat :: Contents(x) == old(Contents(x))
      ensures cache.healthy && old(BlockCache.Inside(cache.S())) && alloc.blocks <= old(|cache.disk|) ==>
                (r.None? <==> forall x: nat :: alloc.firstData <= x < alloc.blocks ==> old(alloc.InUse(x)))
    {
      hide BlockCache.Logical, BlockCache.Cached, BlockCache.Inside;
      var b := alloc.AllocBlock(goal);
      if b.None? { return None; }
      assert !BlockCache.Cached(cache.S(), b.value);
      var slot := cache.Bget(b.value, false);
      return if slot.Some? then b else None;
    }

    /** free_block: the block is forgotten, so it cannot come back with old contents. */
    method FreeBlock(b: nat)
      requires Valid()
      modifies cache, alloc
      ensures Valid()
      ensures forall x: nat :: alloc.InUse(x) <==> old(alloc.InUse(x)) && x != b
      ensures forall x: nat :: x != b ==> Contents(x) == old(Contents(x))
    {
      hide BlockCache.Logical, BlockCache.Cached;
      if b < alloc.firstData || b >= alloc.blocks {
        alloc.FreeBlock(b);
        return;
      }
      alloc.FreeBlock(b);
      cache.Bforget(b);
    }

    /** Reading a block that is in use. */
    method Bget(b: nat) returns (slot: Option<nat>)
      requires Valid() && b < BlockCache.U32 && (alloc.firstData <= b < alloc.blocks ==> alloc.InUse(b))
      modifies cache
      ensures Valid() && forall x: nat :: Contents(x) == old(Contents(x))
      ensures slot.Some? ==> slot.value < BlockCache.SLOTS && BlockCache.Holds(cache.S(), slot.value, b)
    {
      hide BlockCache.Logical, BlockCache.Cached;
      slot := cache.Bget(b, true);
    }

    /** Reading ahead blocks that are in use, as read does with the next blocks of a file. */
    method Prefetch(b: nat, n: nat)
      requires Valid() && b + n <= BlockCache.U32
      requires forall x :: b <= x < b + n && alloc.firstData <= x < alloc.blocks ==> alloc.InUse(x)
      modifies cache
      ensures Valid() && forall x: nat :: Contents(x) == old(Contents(x))
    {
      hide BlockCache.Logical, BlockCache.Cached;
      var k := cache.Prefetch(b, n);
    }

    /** Writing to a block that a slot holds. */
    method Update(i: nat, b: nat, c: BlockCache.Block)
      requires Valid() && i < BlockCache.SLOTS && BlockCache.Holds(cache.S(), i, b)
      modifies cache
      ensures Valid() && forall x: nat :: Contents(x) == if x == b then c else old(Contents(x))
    {
      hide BlockCache.Logical, BlockCache.Cached;
      cache.Update(i, b, c);
    }

    method Flush() returns (ok: bool)
      requires Valid()
      modifies cache
      ensures Valid() && forall x: nat :: Contents(x) == old(Contents(x))
      ensures ok ==> forall x: nat :: x < |cache.disk| ==> cache.disk[x] == Contents(x)
    {
      hide BlockCache.Logical, BlockCache.Cached;
      ok := cache.Flush();
    }
  }
}
