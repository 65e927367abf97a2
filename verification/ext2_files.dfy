/** Regular files of the ext2 driver over the logical disk: block mapping, growth, truncation, reading
    and writing (kernel/src/ext2.rs:594-818). Every block these operations touch is in use, so a block
    that was freed and forgotten is not cached when it is allocated again, and starts zeroed. */
module Ext2Files {
  import opened Basics
  import opened BlockTree
  import opened BlockRoutes
  import opened BlockAllocator
  import opened InodeMap
  import opened Truncation

  const EISDIR: nat := 21
  const EFBIG: nat := 27
  const ENOSPC: nat := 28
  const U32: nat := 0x1_0000_0000
  const U64: nat := 0x1_0000_0000_0000_0000

  /** The part of an inode that matters here: the size, the 512-byte sectors it accounts for and its
      block pointers. */
  datatype Inode = Inode(size: nat, blocks512: nat, blk: seq<nat>)

  /** `k` blocks in 512-byte sectors. */
  function Sectors(bs: nat, k: nat): nat
  {
    bs / 512 * k
  }

  lemma SectorsAdd(bs: nat, a: nat, b: nat)
    ensures Sectors(bs, a + b) == Sectors(bs, a) + Sectors(bs, b)
    ensures Sectors(bs, 1) == bs / 512
  {
  }

  function SatSub(x: nat, y: nat): nat { if x < y then 0 else x - y }

  lemma SizeBelow(d: Disk, b: nat, level: nat, i: nat, bs: nat)
    requires Sized(d, bs) && b != 0 && level > 0 && Sound(d, Nodes(d, b, level)) && i < bs / 4
    ensures b < |d| && |Ptrs(d[b])| == bs / 4
    ensures |Nodes(d, Ptrs(d[b])[i], level - 1)| + 1 <= |Nodes(d, b, level)|
  {
    hide Nodes, Forest, Ptrs;
    SoundBelow(d, b, level, bs);
    var c, f := Nodes(d, Ptrs(d[b])[i], level - 1), Forest(d, Ptrs(d[b]), level - 1);
    forall x: nat ensures c[x] <= f[x] { ForestMember(d, Ptrs(d[b]), i, level - 1, x); }
    assert f == c + (f - c);
  }

  /** Growth of a file on the way to the route (s, path): it gains exactly the blocks that came into use,
      keeps what it had, and nobody else's blocks change. */
  ghost predicate Growth(d: Disk, blk: seq<nat>, u: set<nat>, e: Disk, blk': seq<nat>, u': set<nat>,
                         s: nat, path: seq<nat>, bs: nat)
    requires |blk| == |blk'| == SLOTS
  {
    && |d| == |e| && u <= u'
    && Kept(d, blk, e, blk', s, path, bs)
    && (forall x :: x in Owned(e, blk') <==> x in Owned(d, blk) || x in u' - u)
    && (forall x :: 0 <= x < |d| && x in u && x !in Owned(d, blk) ==> e[x] == d[x])
  }

  lemma GrowthReflexive(d: Disk, blk: seq<nat>, u: set<nat>, s: nat, path: seq<nat>, bs: nat)
    requires |blk| == SLOTS
    ensures Growth(d, blk, u, d, blk, u, s, path, bs)
  {
    hide Roots, Follow;
    KeptReflexive(d, blk, s, path, bs);
  }

  lemma GrowthTransitive(d: Disk, blk: seq<nat>, u: set<nat>, e: Disk, blk': seq<nat>, u': set<nat>,
                         f: Disk, blk'': seq<nat>, u'': set<nat>, s: nat, path: seq<nat>, bs: nat)
    requires |blk| == |blk'| == |blk''| == SLOTS
    requires Growth(d, blk, u, e, blk', u', s, path, bs) && Growth(e, blk', u', f, blk'', u'', s, path, bs)
    ensures Growth(d, blk, u, f, blk'', u'', s, path, bs)
  {
    hide Roots, Follow, Kept;
    KeptTransitive(d, blk, e, blk', f, blk'', s, path, bs);
    forall x | 0 <= x < |d| && x in u && x !in Owned(d, blk) ensures f[x] == d[x] {
      assert x !in Owned(e, blk');
    }
  }

  /** The blocks of a file are in use and all accounted for. */
  ghost predicate Accounted(d: Disk, n: Inode, u: set<nat>, bs: nat)
  {
    && SoundFile(d, n.blk, bs)
    && (forall x :: x in Owned(d, n.blk) ==> x in u)
    && n.blocks512 == Sectors(bs, |Owned(d, n.blk)|)
  }

  /** One block that was free joined the file. */
  lemma OneMore(d: Disk, n: Inode, u: set<nat>, e: Disk, n': Inode, u': set<nat>, x: nat, s: nat, path: seq<nat>, bs: nat)
    requires Accounted(d, n, u, bs) && SoundFile(e, n'.blk, bs) && |e| == |d|
    requires x !in u && u' == u + {x} && Kept(d, n.blk, e, n'.blk, s, path, bs)
    requires Owned(e, n'.blk) == Owned(d, n.blk) + multiset{x}
    requires n'.blocks512 == n.blocks512 + bs / 512
    requires forall y :: 0 <= y < |d| && y != x && y !in Owned(d, n.blk) ==> e[y] == d[y]
    ensures Growth(d, n.blk, u, e, n'.blk, u', s, path, bs) && Accounted(e, n', u', bs)
  {
    hide Owned, Kept, Sound;
    var a, b := Owned(d, n.blk), Owned(e, n'.blk);
    assert |b| == |a| + 1;
    SectorsAdd(bs, |a|, 1);
    assert u' - u == {x};
  }

  class Ext2 {
    const bs: nat
    const alloc: Allocator
    var disk: Disk

    /** Pointers per block. */
    function P(): nat { bs / 4 }

    /** The blocks in use. */
    ghost function Used(): set<nat>
      requires alloc.Valid()
      reads alloc
    {
      set x: nat | x < alloc.blocks && alloc.InUse(x)
    }

    ghost predicate Valid()
      reads this, alloc
    {
      && alloc.Valid() && bs in {1024, 2048, 4096}
      && Sized(disk, bs) && |disk| == alloc.blocks < U32
      && (alloc.firstData == 0 ==> 0 in Used())
    }

    /** The file's blocks are distinct, in use and all accounted for. */
    ghost predicate FileOk(n: Inode)
      requires alloc.Valid()
      reads this, alloc
    {
      Accounted(disk, n, Used(), bs)
    }

    /** A mounted volume. */
    constructor (bs: nat, alloc: Allocator, disk: Disk)
      requires alloc.Valid() && bs in {1024, 2048, 4096} && Sized(disk, bs) && |disk| == alloc.blocks < U32
      requires alloc.firstData == 0 ==> alloc.InUse(0)
      ensures Valid() && this.bs == bs && this.alloc == alloc && this.disk == disk
    {
      this.bs := bs;
      this.alloc := alloc;
      this.disk := disk;
    }

    /** alloc_block: a free block, zeroed. */
    method AllocBlock(goal: nat) returns (r: Option<nat>)
      requires Valid()
      modifies this`disk, alloc
      ensures Valid()
      ensures r.None? ==> Used() == old(Used()) && disk == old(disk)
      ensures r.None? ==> forall x: nat :: alloc.firstData <= x < alloc.blocks ==> x in Used()
      ensures r.Some? ==> 0 < r.value < |disk| && r.value !in old(Used())
      ensures r.Some? ==> Used() == old(Used()) + {r.value} && disk == old(disk)[r.value := Zeros(bs)]
    {
      r := alloc.AllocBlock(goal);
      if r.Some? { disk := disk[r.value := Zeros(bs)]; }
    }

    method GrowRoot(n: Inode, goal: nat, s: nat, ghost path: seq<nat>) returns (n': Inode, ok: bool)
      requires Valid() && FileOk(n) && s < SLOTS && n.blk[s] == 0 && |path| == SlotLevel(s) && IsPath(path, bs)
      modifies this`disk, alloc
      ensures Valid() && FileOk(n') && n'.size == n.size
      ensures Growth(old(disk), n.blk, old(Used()), disk, n'.blk, Used(), s, path, bs)
      ensures !ok ==> n' == n && disk == old(disk) && forall x: nat :: alloc.firstData <= x < alloc.blocks ==> x in Used()
      ensures ok ==> n'.blk[s] != 0 && Follow(disk, n'.blk[s], path) == if path == [] then n'.blk[s] else 0
      ensures ok && path == [] ==> n'.blk[s] < |disk| && disk[n'.blk[s]] == Zeros(bs)
    {
      hide Owned, Follow, Kept, Zeros, Growth, Sound;
      var b := AllocBlock(goal);
      if b.None? {
        GrowthReflexive(disk, n.blk, Used(), s, path, bs);
        return n, false;
      }
      var x := b.value;
      GraftRoot(old(disk), disk, n.blk, s, x, path, bs);
      n' := n.(blk := n.blk[s := x], blocks512 := n.blocks512 + bs / 512);
      OneMore(old(disk), n, old(Used()), disk, n', Used(), x, s, path, bs);
      ok := true;
    }

    /** rd32 and wr32 of pointer `i` of block `b`. */
    method ReadPtr(b: nat, i: nat) returns (v: nat)
      requires Valid() && b < |disk| && b in Used() && i < P()
      ensures v == Ptrs(disk[b])[i]
    {
      v := Ptr(disk[b], i);
    }

    method WritePtr(b: nat, i: nat, v: nat)
      requires Valid() && b < |disk| && b in Used() && i < P() && v < U32
      modifies this`disk
      ensures Valid() && |disk| == |old(disk)|
      ensures Ptrs(disk[b]) == Ptrs(old(disk)[b])[i := v] && |disk[b]| == bs
      ensures forall x :: 0 <= x < |disk| && x != b ==> disk[x] == old(disk)[x]
    {
      PtrsSet(disk[b], i, v);
      disk := disk[b := SetPtr(disk[b], i, v)];
    }

    /** The next block on the way down is missing: allocates it and hangs it on its pointer. */
    method GrowBelow(n: Inode, goal: nat, s: nat, path: seq<nat>, k: nat, b: nat) returns (n': Inode, x: nat)
      requires Valid() && FileOk(n) && s < SLOTS && |path| == SlotLevel(s) && IsPath(path, bs) && k < |path|
      requires b == Follow(disk, n.blk[s], path[..k]) && b != 0 && b < |disk| && b in Used() && b in Owned(disk, n.blk)
      requires Ptrs(disk[b])[path[k]] == 0
      modifies this`disk, alloc
      ensures Valid() && FileOk(n') && n'.size == n.size && n'.blk == n.blk
      ensures Growth(old(disk), n.blk, old(Used()), disk, n.blk, Used(), s, path, bs)
      ensures x == 0 ==> n' == n && disk == old(disk) && forall x: nat :: alloc.firstData <= x < alloc.blocks ==> x in Used()
      ensures x != 0 ==> x < |disk| && Follow(disk, n.blk[s], path[..k + 1]) == x && disk[x] == Zeros(bs)
      ensures x != 0 ==> Follow(disk, n.blk[s], path) == if k + 1 == |path| then x else 0
    {
      hide Owned, Follow, Kept, Zeros, Growth, Sound, Ptrs;
      var a := AllocBlock(goal);
      if a.None? {
        GrowthReflexive(disk, n.blk, Used(), s, path, bs);
        return n, 0;
      }
      x := a.value;
      WritePtr(b, path[k], x);
      FollowEnds(old(disk), n.blk[s], path[..k]);
      GraftBelow(old(disk), disk, n.blk, s, k, x, path, bs);
      n' := n.(blocks512 := n.blocks512 + bs / 512);
      OneMore(old(disk), n, old(Used()), disk, n', Used(), x, s, path, bs);
    }

    /** The block a walk has reached is one of the file's. */
    lemma OnTheWay(n: Inode, s: nat, path: seq<nat>, k: nat)
      requires Valid() && FileOk(n) && s < SLOTS && |path| == SlotLevel(s) && IsPath(path, bs) && k <= |path|
      requires Follow(disk, n.blk[s], path[..k]) != 0
      ensures var b := Follow(disk, n.blk[s], path[..k]); b in Owned(disk, n.blk) && b < |disk| && b in Used()
      ensures k < |path| ==>
                Follow(disk, n.blk[s], path[..k + 1]) == Ptrs(disk[Follow(disk, n.blk[s], path[..k])])[path[k]]
    {
      hide Nodes, Follow, Roots;
      SoundSlot(disk, n.blk, s);
      FollowInNodes(disk, n.blk[s], path[..k], SlotLevel(s), bs);
      if k < |path| {
        assert path[..k + 1] == path[..k] + [path[k]];
        FollowAppend(disk, n.blk[s], path[..k], path[k]);
      }
    }

    /** The physical block of logical block `l`, allocated with whatever is missing above it. Only `l`
        may change from a hole to a block; ENOSPC means that every block is in use. */
    method BmapAlloc(n: Inode, goal: nat, l: nat) returns (n': Inode, r: Result<nat, nat>)
      requires Valid() && FileOk(n)
      modifies this`disk, alloc
      ensures Valid() && FileOk(n') && n'.size == n.size
      ensures RouteOf(P(), l).None? ==> r == Err(EFBIG) && n' == n && disk == old(disk) && Used() == old(Used())
      ensures RouteOf(P(), l).Some? ==>
                var t := RouteOf(P(), l).value;
                && Growth(old(disk), n.blk, old(Used()), disk, n'.blk, Used(), t.slot, t.path, bs)
                && (r.Err? ==> r.error == ENOSPC && forall x: nat :: alloc.firstData <= x < alloc.blocks ==> x in Used())
                && (r.Err? ==> Map(disk, n'.blk, l, P()) == old(Map(disk, n.blk, l, P())) == 0)
                && (r.Ok? ==> r.value == Map(disk, n'.blk, l, P()) && r.value != 0 && r.value < |disk|)
                && (r.Ok? && old(Map(disk, n.blk, l, P())) == 0 ==> disk[r.value] == Zeros(bs))
    {
      hide Owned, Follow, Kept, Zeros, Growth, Sound, Ptrs, RouteOf, Accounted;
      var route := RouteOf(P(), l);
      if route.None? { return n, Err(EFBIG); }
      RouteMeaning(P(), l);
      n', r := AllocRoute(n, goal, route.value.slot, route.value.path);
    }

    /** bmap_alloc along a route of the right depth. */
    method AllocRoute(n: Inode, goal: nat, s: nat, path: seq<nat>) returns (n': Inode, r: Result<nat, nat>)
      requires Valid() && FileOk(n) && s < SLOTS && |path| == SlotLevel(s) && IsPath(path, bs)
      modifies this`disk, alloc
      ensures Valid() && FileOk(n') && n'.size == n.size
      ensures Growth(old(disk), n.blk, old(Used()), disk, n'.blk, Used(), s, path, bs)
      ensures r.Err? ==> r.error == ENOSPC && forall x: nat :: alloc.firstData <= x < alloc.blocks ==> x in Used()
      ensures r.Err? ==> Follow(disk, n'.blk[s], path) == Follow(old(disk), n.blk[s], path) == 0
      ensures r.Ok? ==> r.value == Follow(disk, n'.blk[s], path) && r.value != 0 && r.value < |disk|
      ensures r.Ok? && Follow(old(disk), n.blk[s], path) == 0 ==> disk[r.value] == Zeros(bs)
    {
      hide Owned, Follow, Kept, Zeros, Growth, Sound, Ptrs;
      n' := n;
      FollowEnds(disk, 0, path);
      if n.blk[s] == 0 {
        var ok;
        n', ok := GrowRoot(n, goal, s, path);
        if !ok { return n', Err(ENOSPC); }
      } else {
        GrowthReflexive(disk, n.blk, Used(), s, path, bs);
      }
      ghost var d, m, u := disk, n', Used();
      if path == [] {
        FollowEnds(disk, n'.blk[s], path);
        OnTheWay(n', s, path, 0);
        return n', Ok(n'.blk[s]);
      }
      n', r := Descend(n', goal, s, path);
      GrowthTransitive(old(disk), n.blk, old(Used()), d, m.blk, u, disk, n'.blk, Used(), s, path, bs);
      GrowthKeeps(old(disk), n.blk, old(Used()), disk, n'.blk, Used(), s, path, bs);
      GrowthKeeps(old(disk), n.blk, old(Used()), d, m.blk, u, s, path, bs);
    }

    /** The levels below the inode. */
    method Descend(n: Inode, goal: nat, s: nat, path: seq<nat>) returns (n': Inode, r: Result<nat, nat>)
      requires Valid() && FileOk(n) && s < SLOTS && |path| == SlotLevel(s) && IsPath(path, bs) && path != []
      requires n.blk[s] != 0
      modifies this`disk, alloc
      ensures Valid() && FileOk(n') && n'.size == n.size
      ensures Growth(old(disk), n.blk, old(Used()), disk, n'.blk, Used(), s, path, bs)
      ensures r.Err? ==> r.error == ENOSPC && forall x: nat :: alloc.firstData <= x < alloc.blocks ==> x in Used()
      ensures r.Err? ==> Follow(disk, n'.blk[s], path) == Follow(old(disk), n.blk[s], path) == 0
      ensures r.Ok? ==> r.value == Follow(disk, n'.blk[s], path) && r.value != 0 && r.value < |disk|
      ensures r.Ok? && Follow(old(disk), n.blk[s], path) == 0 ==> disk[r.value] == Zeros(bs)
    {
      hide Owned, Follow, Kept, Zeros, Growth, Sound, Ptrs;
      n' := n;
      GrowthReflexive(disk, n.blk, Used(), s, path, bs);
      ghost var hole := Follow(disk, n.blk[s], path) == 0;
      var b := n.blk[s];
      FollowEnds(disk, b, path[..0]);
      var k := 0;
      while k < |path|
        invariant Valid() && FileOk(n') && n'.size == n.size && n'.blk == n.blk && 0 <= k <= |path|
        invariant b != 0 && b == Follow(disk, n.blk[s], path[..k])
        invariant Growth(old(disk), n.blk, old(Used()), disk, n.blk, Used(), s, path, bs)
        invariant hole && k < |path| ==> Follow(disk, n.blk[s], path) == 0
        invariant hole && k == |path| ==> b < |disk| && disk[b] == Zeros(bs)
      {
        OnTheWay(n', s, path, k);
        var next := ReadPtr(b, path[k]);
        assert path[..|path|] == path;
        if next == 0 {
          ghost var d, u := disk, Used();
          n', next := GrowBelow(n', goal, s, path, k, b);
          GrowthTransitive(old(disk), n.blk, old(Used()), d, n.blk, u, disk, n.blk, Used(), s, path, bs);
          if next == 0 {
            StillHole(d, n.blk[s], path, k);
            GrowthKeeps(old(disk), n.blk, old(Used()), disk, n.blk, Used(), s, path, bs);
            return n', Err(ENOSPC);
          }
        }
        b := next;
        k := k + 1;
      }
      assert path[..k] == path;
      OnTheWay(n', s, path, k);
      r := Ok(b);
    }

    /** free_block and bforget: the contents of a freed block no longer matter. */
    method FreeBlock(c: nat)
      requires Valid() && 0 < c < |disk| && c in Used()
      modifies this`disk, alloc
      ensures Valid() && Used() == old(Used()) - {c} && |disk| == |old(disk)|
      ensures forall x :: 0 <= x < |disk| && x != c ==> disk[x] == old(disk)[x]
    {
      alloc.FreeBlock(c);
      var junk: Block := *;
      if |junk| == bs { disk := disk[c := junk]; }
    }

    /** A tree about to be cut short: its blocks are distinct, in use and paid for. */
    ghost predicate Target(d: Disk, u: set<nat>, b: nat, level: nat, n512: nat)
    {
      && Sized(d, bs) && bs in {1024, 2048, 4096} && 1 <= level && 0 < b < |d| && Sound(d, Nodes(d, b, level))
      && (forall x :: x in Nodes(d, b, level) ==> x in u)
      && Sectors(bs, |Nodes(d, b, level)|) <= n512
    }

    /** The children before `i` are done, and the sectors add up. */
    ghost predicate Progress(d: Disk, u: set<nat>, b: nat, level: nat, base: nat, keep: nat, i: nat,
                             n512: nat, m: nat, freed: multiset<nat>)
      reads this, alloc
    {
      && Valid() && |disk| == |d|
      && Underway(d, u, disk, Used(), b, level, base, keep, bs, i, freed)
      && m + Sectors(bs, |freed|) == n512
    }

    /** Frees what lies at or past logical block `keep` below the indirect block `b`. True: nothing is left
        below `b`. */
    method TruncInd(b: nat, level: nat, base: nat, keep: nat, n512: nat) returns (empty: bool, m: nat, ghost freed: multiset<nat>)
      requires Valid() && Target(disk, Used(), b, level, n512)
      modifies this`disk, alloc
      ensures Progress(old(disk), old(Used()), b, level, base, keep, P(), n512, m, freed)
      ensures empty <==> NullsBelow(disk, b, P())
      ensures PackedBelow(disk, b, level, base, keep, bs, P())
      decreases level, 2
    {
      hide Progress, Target, NullsBelow, Packed;
      empty, m, freed := true, n512, multiset{};
      Begin(b, level, base, keep, n512);
      for i := 0 to P()
        invariant Progress(old(disk), old(Used()), b, level, base, keep, i, n512, m, freed)
        invariant empty <==> NullsBelow(disk, b, i)
        invariant PackedBelow(disk, b, level, base, keep, bs, i)
      {
        ghost var e := disk;
        var hit;
        hit, m, freed := TruncStep(old(disk), old(Used()), b, level, base, keep, i, n512, m, freed);
        NullsStep(e, disk, b, i, hit);
        if hit { empty := false; }
      }
    }

    lemma Begin(b: nat, level: nat, base: nat, keep: nat, n512: nat)
      requires Valid() && Target(disk, Used(), b, level, n512)
      ensures Progress(disk, Used(), b, level, base, keep, 0, n512, n512, multiset{}) && NullsBelow(disk, b, 0)
      ensures PackedBelow(disk, b, level, base, keep, bs, 0)
    {
      hide Nodes, Ptrs, Follow, Underway;
      UnderwayStart(disk, Used(), b, level, base, keep, bs);
    }

    /** One turn of the loop over the children of `b`. */
    method TruncStep(ghost d: Disk, ghost u: set<nat>, b: nat, level: nat, base: nat, keep: nat, i: nat,
                     ghost n512: nat, m0: nat, ghost freed0: multiset<nat>)
      returns (hit: bool, m: nat, ghost freed: multiset<nat>)
      requires Target(d, u, b, level, n512) && Progress(d, u, b, level, base, keep, i, n512, m0, freed0) && i < P()
      requires PackedBelow(disk, b, level, base, keep, bs, i)
      modifies this`disk, alloc
      ensures Progress(d, u, b, level, base, keep, i + 1, n512, m, freed)
      ensures PointerDone(old(disk), disk, b, i, hit)
      ensures PackedBelow(disk, b, level, base, keep, bs, i + 1)
      decreases level, 1
    {
      hide PackedBelow, Nodes, Forest, Follow, Ptrs, Span, Progress, Target, Underway, Sectors;
      Facts(d, u, b, level, base, keep, i, n512, m0, freed0);
      var child := ReadPtr(b, i);
      m, freed, hit := m0, freed0, child != 0;
      if child == 0 || ChildBase(base, i, level, bs) + Span(P(), level - 1) <= keep {
        SkipStep(d, u, b, level, base, keep, i, n512, m0, freed0);
        SkipPacked(disk, b, level, base, keep, i);
      } else {
        var gone;
        gone, m, freed := TruncChild(d, u, b, level, base, keep, i, child, n512, m0, freed0);
        hit := !gone;
      }
    }

    /** What the loop may use of its invariant. */
    lemma Facts(d: Disk, u: set<nat>, b: nat, level: nat, base: nat, keep: nat, i: nat, n512: nat, m: nat, freed: multiset<nat>)
      requires Target(d, u, b, level, n512) && Progress(d, u, b, level, base, keep, i, n512, m, freed) && i < P()
      ensures Valid() && 1 <= level && 0 < b < |disk| == |d| && b in Used() && |Ptrs(disk[b])| == |Ptrs(d[b])| == P()
      ensures Ptrs(d[b])[i] == Ptrs(disk[b])[i]
      ensures Underway(d, u, disk, Used(), b, level, base, keep, bs, i, freed) && m + Sectors(bs, |freed|) == n512
    {
      hide Nodes, Follow, Ptrs, Underway, Sectors;
      OwnUsed(d, u, b, level, base, keep, i, freed);
      Pending(d, u, disk, Used(), b, level, base, keep, bs, i, freed);
    }

    lemma SkipStep(d: Disk, u: set<nat>, b: nat, level: nat, base: nat, keep: nat, i: nat, n512: nat, m: nat, freed: multiset<nat>)
      requires Target(d, u, b, level, n512) && Progress(d, u, b, level, base, keep, i, n512, m, freed) && i < P()
      requires b < |d| && i < |Ptrs(d[b])|
      requires Ptrs(d[b])[i] == 0 || ChildBase(base, i, level, bs) + Span(P(), level - 1) <= keep
      ensures Progress(d, u, b, level, base, keep, i + 1, n512, m, freed)
    {
      hide Nodes, Follow, Ptrs, Underway, Sectors, Span;
      SkipChild(d, u, disk, Used(), b, level, base, keep, bs, i, freed);
    }

    lemma SkipPacked(d: Disk, b: nat, level: nat, base: nat, keep: nat, i: nat)
      requires level > 0 && PackedBelow(d, b, level, base, keep, bs, i) && b < |d| && i < |Ptrs(d[b])|
      requires Ptrs(d[b])[i] == 0 || ChildBase(base, i, level, bs) + Span(P(), level - 1) <= keep
      ensures PackedBelow(d, b, level, base, keep, bs, i + 1)
    {
      hide Nodes, Ptrs, PackedBelow, Span;
      PackedStep(d, b, level, base, keep, bs, i);
    }

    /** A child that reaches past the cut: cut short itself, and dropped if nothing is left of it. */
    method TruncChild(ghost d: Disk, ghost u: set<nat>, b: nat, level: nat, base: nat, keep: nat, i: nat, child: nat,
                      ghost n512: nat, m0: nat, ghost freed0: multiset<nat>)
      returns (gone: bool, m: nat, ghost freed: multiset<nat>)
      requires Target(d, u, b, level, n512) && Progress(d, u, b, level, base, keep, i, n512, m0, freed0) && i < P()
      requires b < |disk| && i < |Ptrs(disk[b])| && child == Ptrs(disk[b])[i] && child != 0
      requires !(ChildBase(base, i, level, bs) + Span(P(), level - 1) <= keep)
      requires PackedBelow(disk, b, level, base, keep, bs, i)
      modifies this`disk, alloc
      ensures Progress(d, u, b, level, base, keep, i + 1, n512, m, freed)
      ensures PackedBelow(disk, b, level, base, keep, bs, i + 1)
      ensures b < |disk| && Ptrs(disk[b]) == if gone then Ptrs(old(disk)[b])[i := 0] else Ptrs(old(disk)[b])
      decreases level, 0
    {
      hide Nodes, Forest, Follow, Ptrs, Sectors, Span, Off, Progress, Target, Droppable, NullsBelow, Underway, PackedBelow;
      Facts(d, u, b, level, base, keep, i, n512, m0, freed0);
      if level == 1 {
        gone := ChildBase(base, i, level, bs) >= keep;
        LevelOne(P(), base, i, keep, bs);
        PastCutDirect(d, u, b, base, keep, i, n512, m0, freed0, child);
        m, freed := DropChild(d, u, b, level, base, keep, i, child, n512, m0, freed0);
        return;
      }
      ghost var e, v, more := disk, Used(), multiset{};
      ChildTarget(d, u, b, level, base, keep, i, n512, m0, freed0, child);
      gone, m, more := TruncInd(child, level - 1, ChildBase(base, i, level, bs), keep, m0);
      AfterChild(d, u, e, v, b, level, base, keep, i, n512, m0, m, freed0, more, child);
      ChildPacked(e, v, b, level, base, keep, i, m0, m, more, child, gone);
      freed := freed0 + more;
      if gone {
        PastCutBelow(d, u, b, level, base, keep, i, n512, m, freed, child);
        m, freed := DropChild(d, u, b, level, base, keep, i, child, n512, m, freed);
      }
    }

    /** State in which child `i` owns nothing but itself and nothing through it is to be kept. */
    ghost predicate Droppable(d: Disk, u: set<nat>, b: nat, level: nat, base: nat, keep: nat, i: nat,
                              n512: nat, m: nat, freed: multiset<nat>, child: nat)
      reads this, alloc
    {
      && Valid() && |disk| == |d| && i < P()
      && Between(d, u, disk, Used(), b, level, base, keep, bs, i, freed)
      && m + Sectors(bs, |freed|) == n512
      && child == Ptrs(disk[b])[i] && child != 0 && Nodes(disk, child, level - 1) == multiset{child}
      && (forall q :: |q| == level && IsPath(q, bs) && q[0] == i && base + Off(bs / 4, q) < keep ==> Follow(d, b, q) == 0)
    }

    lemma PastCutDirect(d: Disk, u: set<nat>, b: nat, base: nat, keep: nat, i: nat,
                        n512: nat, m: nat, freed: multiset<nat>, child: nat)
      requires Progress(d, u, b, 1, base, keep, i, n512, m, freed) && i < P() && base + i >= keep
      requires b < |disk| && i < |Ptrs(disk[b])| && child == Ptrs(disk[b])[i] && child != 0
      ensures Droppable(d, u, b, 1, base, keep, i, n512, m, freed, child)
    {
      hide Nodes, Forest, Follow, Ptrs, Sectors, Off, Underway, Between;
      LeafNodes(disk, child);
      UnderwayBetween(d, u, disk, Used(), b, 1, base, keep, bs, i, freed);
      NothingKeptDirect(d, b, base, keep, bs, i);
      Lengths(d, u, disk, Used(), b, 1, base, keep, bs, i, freed);
    }

    lemma PastCutBelow(d: Disk, u: set<nat>, b: nat, level: nat, base: nat, keep: nat, i: nat,
                       n512: nat, m: nat, freed: multiset<nat>, child: nat)
      requires level > 1 && b != 0 && Progress(d, u, b, level, base, keep, i + 1, n512, m, freed) && i < P()
      requires b < |disk| && i < |Ptrs(disk[b])| && child == Ptrs(disk[b])[i] && child != 0
      requires NullsBelow(disk, child, P())
      ensures Droppable(d, u, b, level, base, keep, i, n512, m, freed, child)
    {
      hide Nodes, Forest, Follow, Ptrs, Sectors, Off, Between, TrimmedAt, Released, Untouched;
      UnderwayBetween(d, u, disk, Used(), b, level, base, keep, bs, i, freed);
      AllNull(disk, child, level, bs);
      NothingKeptBelow(d, disk, b, level, base, keep, bs, i, child);
    }

    /** The child of a tree about to be cut short is one itself. */
    lemma ChildTarget(d: Disk, u: set<nat>, b: nat, level: nat, base: nat, keep: nat, i: nat,
                      n512: nat, m: nat, freed: multiset<nat>, child: nat)
      requires level > 1 && Target(d, u, b, level, n512) && Progress(d, u, b, level, base, keep, i, n512, m, freed) && i < P()
      requires b < |disk| && i < |Ptrs(disk[b])| && child == Ptrs(disk[b])[i] && child != 0
      ensures Valid() && Target(disk, Used(), child, level - 1, m) && Sound(disk, Nodes(disk, b, level))
    {
      hide Nodes, Forest, Follow, Ptrs, Sectors, Underway;
      OwnUsed(d, u, b, level, base, keep, i, freed);
      SoundChild(disk, b, level, i, bs);
      RootInNodes(disk, child, level - 1);
      Budget(disk, d, b, level, i, n512, m, freed);
    }

    lemma AfterChild(d: Disk, u: set<nat>, e: Disk, v: set<nat>, b: nat, level: nat, base: nat, keep: nat, i: nat,
                     n512: nat, m0: nat, m: nat, freed: multiset<nat>, more: multiset<nat>, child: nat)
      requires level > 1 && Target(d, u, b, level, n512) && i < P() && |d| == |e|
      requires Underway(d, u, e, v, b, level, base, keep, bs, i, freed) && m0 + Sectors(bs, |freed|) == n512
      requires i < |Ptrs(e[b])| && child == Ptrs(e[b])[i]
      requires Progress(e, v, child, level - 1, ChildBase(base, i, level, bs), keep, P(), m0, m, more)
      ensures b < |disk| == |e| && disk[b] == e[b] && Progress(d, u, b, level, base, keep, i + 1, n512, m, freed + more)
    {
      hide Nodes, Forest, Follow, Ptrs, Sectors, Underway, Trimmed, Released;
      var cbase := ChildBase(base, i, level, bs);
      UnderwayDone(e, v, disk, Used(), child, level - 1, cbase, keep, bs, more);
      UnderwayReleased(e, v, disk, Used(), child, level - 1, cbase, keep, bs, P(), more);
      ChildTrimmed(d, u, e, v, disk, Used(), b, level, base, keep, bs, i, freed, more);
      SectorsAdd(bs, |freed|, |more|);
    }

    /** Frees a child that owns nothing but itself and clears its pointer. */
    method DropChild(ghost d: Disk, ghost u: set<nat>, b: nat, level: nat, ghost base: nat, ghost keep: nat, i: nat,
                     child: nat, ghost n512: nat, m0: nat, ghost freed0: multiset<nat>)
      returns (m: nat, ghost freed: multiset<nat>)
      requires Target(d, u, b, level, n512) && Droppable(d, u, b, level, base, keep, i, n512, m0, freed0, child)
      requires PackedBelow(disk, b, level, base, keep, bs, i)
      modifies this`disk, alloc
      ensures Progress(d, u, b, level, base, keep, i + 1, n512, m, freed)
      ensures b < |disk| && Ptrs(disk[b]) == Ptrs(old(disk)[b])[i := 0]
      ensures PackedBelow(disk, b, level, base, keep, bs, i + 1)
    {
      hide PackedBelow, Nodes, Forest, Follow, Ptrs, Sectors, Between, Underway, Off;
      OwnBetween(d, u, b, level, base, keep, i, freed0);
      BudgetLeft(disk, d, b, level, i, n512, m0, freed0, child);
      InNodes(disk, b, level, i, child, bs);
      SoundChild(disk, b, level, i, bs);
      RootInNodes(disk, child, level - 1);
      ghost var f, v := disk, Used();
      FreeBlock(child);
      m := SatSub(m0, bs / 512);
      WritePtr(b, i, 0);
      ChildDropped(d, u, f, v, disk, b, level, base, keep, bs, i, freed0, child);
      DropPacked(f, disk, b, level, base, keep, i, child);
      SectorsAdd(bs, |freed0|, 1);
      freed := freed0 + multiset{child};
    }

    lemma DropPacked(f: Disk, g: Disk, b: nat, level: nat, base: nat, keep: nat, i: nat, child: nat)
      requires Sized(f, bs) && b != 0 && level > 0 && Sound(f, Nodes(f, b, level)) && Cut(f, g, b, i, child)
      requires Nodes(f, child, level - 1) == multiset{child} && i < bs / 4
      requires PackedBelow(f, b, level, base, keep, bs, i)
      ensures PackedBelow(g, b, level, base, keep, bs, i + 1)
    {
      hide Nodes, Ptrs, Sound, ChildBase, Span;
      ChildCut(f, g, b, level, i, child, bs);
      PackedSiblings(f, g, b, level, base, keep, bs, i);
      PackedStep(g, b, level, base, keep, bs, i);
    }

    /** The children before `i` stay packed while child `i` is cut, and so does what is left of it. */
    lemma ChildPacked(e: Disk, v: set<nat>, b: nat, level: nat, base: nat, keep: nat, i: nat,
                      n512: nat, m: nat, more: multiset<nat>, child: nat, gone: bool)
      requires level > 1 && i < P() && b != 0 && b < |e| && Sized(e, bs) && Sound(e, Nodes(e, b, level))
      requires PackedBelow(e, b, level, base, keep, bs, i) && i < |Ptrs(e[b])| && child == Ptrs(e[b])[i]
      requires Progress(e, v, child, level - 1, ChildBase(base, i, level, bs), keep, P(), n512, m, more)
      requires PackedBelow(disk, child, level - 1, ChildBase(base, i, level, bs), keep, bs, P())
      requires gone <==> NullsBelow(disk, child, P())
      ensures PackedBelow(disk, b, level, base, keep, bs, i)
      ensures !gone ==> PackedBelow(disk, b, level, base, keep, bs, i + 1)
    {
      hide Nodes, Ptrs, Sound, Span, ChildBase, Sectors, TrimmedAt, Untouched;
      SoundBelow(e, b, level, bs);
      OnlyBelowChild(e, v, disk, Used(), b, level, bs, i, more);
      ChildChanged(e, disk, b, level, i, bs);
      PackedSiblings(e, disk, b, level, base, keep, bs, i);
      if !gone { PackedStep(disk, b, level, base, keep, bs, i); }
    }

    /** Part way through, what the tree still owns is in use, and is as large as it should be. */
    lemma OwnBetween(d: Disk, u: set<nat>, b: nat, level: nat, base: nat, keep: nat, i: nat, freed: multiset<nat>)
      requires Valid() && Sound(d, Nodes(d, b, level)) && b != 0
      requires forall x :: x in Nodes(d, b, level) ==> x in u
      requires Between(d, u, disk, Used(), b, level, base, keep, bs, i, freed)
      ensures Sound(disk, Nodes(disk, b, level)) && b in Used()
      ensures forall x :: x in Nodes(disk, b, level) ==> x in Used()
      ensures |Nodes(disk, b, level)| + |freed| == |Nodes(d, b, level)|
    {
      hide Nodes, Ptrs, Follow;
      ReleasedSound(d, u, disk, Used(), b, level, bs, freed);
      RootInNodes(disk, b, level);
    }

    lemma Budget(e: Disk, d: Disk, b: nat, level: nat, i: nat, n512: nat, m: nat, freed: multiset<nat>)
      requires Sized(e, bs) && b != 0 && level > 0 && Sound(e, Nodes(e, b, level)) && i < bs / 4
      requires |Nodes(e, b, level)| + |freed| == |Nodes(d, b, level)|
      requires m + Sectors(bs, |freed|) == n512 && Sectors(bs, |Nodes(d, b, level)|) <= n512
      ensures b < |e| && |Ptrs(e[b])| == bs / 4
      ensures Sectors(bs, |Nodes(e, Ptrs(e[b])[i], level - 1)|) <= m
    {
      hide Nodes, Ptrs, Sectors;
      SizeBelow(e, b, level, i, bs);
      var k, c := |Nodes(e, b, level)|, |Nodes(e, Ptrs(e[b])[i], level - 1)|;
      SectorsAdd(bs, k, |freed|);
      SectorsAdd(bs, c, k - c);
    }

    lemma BudgetLeft(e: Disk, d: Disk, b: nat, level: nat, i: nat, n512: nat, m: nat, freed: multiset<nat>, child: nat)
      requires Sized(e, bs) && b != 0 && level > 0 && Sound(e, Nodes(e, b, level)) && i < bs / 4 && b < |e|
      requires |Nodes(e, b, level)| + |freed| == |Nodes(d, b, level)|
      requires m + Sectors(bs, |freed|) == n512 && Sectors(bs, |Nodes(d, b, level)|) <= n512
      requires |Ptrs(e[b])| == bs / 4 && child == Ptrs(e[b])[i] && Nodes(e, child, level - 1) == multiset{child}
      ensures bs / 512 <= m
    {
      hide Nodes, Ptrs, Sectors;
      Budget(e, d, b, level, i, n512, m, freed);
      SectorsAdd(bs, 0, 1);
    }

    lemma OwnUsed(d: Disk, u: set<nat>, b: nat, level: nat, base: nat, keep: nat, i: nat, freed: multiset<nat>)
      requires Valid() && Sound(d, Nodes(d, b, level)) && b != 0
      requires forall x :: x in Nodes(d, b, level) ==> x in u
      requires Underway(d, u, disk, Used(), b, level, base, keep, bs, i, freed)
      ensures Sound(disk, Nodes(disk, b, level)) && b in Used()
      ensures forall x :: x in Nodes(disk, b, level) ==> x in Used()
      ensures |Nodes(disk, b, level)| + |freed| == |Nodes(d, b, level)|
    {
      hide Nodes, Ptrs, Follow;
      ReleasedSound(d, u, disk, Used(), b, level, bs, freed);
      RootInNodes(disk, b, level);
    }

    /** A pointer whose tree may be cut: null, or the root of a sound tree in use and paid for. */
    ghost predicate Root(b: nat, level: nat, n512: nat)
      requires alloc.Valid()
      reads this, alloc
    {
      b != 0 ==> && b < |disk| && Sound(disk, Nodes(disk, b, level)) && Sectors(bs, |Nodes(disk, b, level)|) <= n512
                 && forall x :: x in Nodes(disk, b, level) ==> x in Used()
    }

    /** One of the 12 direct pointers. */
    method CutDirect(b: nat, i: nat, keep: nat, n512: nat) returns (c: nat, m: nat, ghost freed: multiset<nat>)
      requires Valid() && i < 12 && Root(b, 0, n512)
      modifies this`disk, alloc
      ensures Valid() && m + Sectors(bs, |freed|) == n512
      ensures TreeCut(old(disk), old(Used()), b, disk, Used(), c, 0, i, keep, bs, freed)
      ensures Packed(disk, c, 0, i, keep, bs)
    {
      hide Nodes, Follow, Sectors;
      SectorsAdd(bs, 0, 1);
      if i >= keep && b != 0 {
        LeafNodes(disk, b);
        ReleasedNothing(disk, Used(), b, 0, bs);
        ghost var d, u := disk, Used();
        FreeBlock(b);
        OffNil(P());
        TreeDropped(d, u, b, d, u, disk, Used(), 0, i, keep, bs, multiset{});
        return 0, SatSub(n512, bs / 512), multiset{} + multiset{b};
      }
      TreeKept(disk, Used(), b, 0, i, keep, bs);
      return b, n512, multiset{};
    }

    /** One of the three indirect pointers; an indirect block left empty goes too. */
    method CutIndirect(b: nat, lvl: nat, base: nat, keep: nat, n512: nat) returns (c: nat, m: nat, ghost freed: multiset<nat>)
      requires Valid() && 1 <= lvl <= 3 && Root(b, lvl, n512)
      modifies this`disk, alloc
      ensures Valid() && m + Sectors(bs, |freed|) == n512
      ensures TreeCut(old(disk), old(Used()), b, disk, Used(), c, lvl, base, keep, bs, freed)
      ensures Packed(disk, c, lvl, base, keep, bs)
    {
      hide Nodes, Follow, Sectors, NullsBelow, Released, Trimmed, Sound, PackedBelow;
      SectorsAdd(bs, 0, 0);
      if b == 0 {
        TreeKept(disk, Used(), b, lvl, base, keep, bs);
        return b, n512, multiset{};
      }
      RootTarget(b, lvl, n512);
      ghost var d, u := disk, Used();
      var empty;
      empty, m, freed := TruncInd(b, lvl, base, keep, n512);
      TreeDone(d, u, b, lvl, base, keep, n512, m, freed);
      c := b;
      RootPacked(d, u, b, lvl, base, keep, n512, m, freed, empty);
      if empty {
        EmptiedRoot(d, u, b, lvl, base, keep, n512, m, freed);
        ghost var e, v := disk, Used();
        FreeBlock(b);
        c, m := 0, SatSub(m, bs / 512);
        TreeDropped(d, u, b, e, v, disk, Used(), lvl, base, keep, bs, freed);
        SectorsAdd(bs, |freed|, 1);
        freed := freed + multiset{b};
      }
    }

    lemma RootTarget(b: nat, lvl: nat, n512: nat)
      requires Valid() && b != 0 && 1 <= lvl && Root(b, lvl, n512)
      ensures Target(disk, Used(), b, lvl, n512)
    {
    }

    lemma RootPacked(d: Disk, u: set<nat>, b: nat, lvl: nat, base: nat, keep: nat, n512: nat, m: nat, freed: multiset<nat>, empty: bool)
      requires 1 <= lvl && Progress(d, u, b, lvl, base, keep, P(), n512, m, freed)
      requires PackedBelow(disk, b, lvl, base, keep, bs, P()) && (empty <==> NullsBelow(disk, b, P()))
      ensures !empty ==> Packed(disk, b, lvl, base, keep, bs)
    {
      hide Nodes, Ptrs, Span, Sectors, TrimmedAt, Untouched, Released;
    }

    lemma TreeDone(d: Disk, u: set<nat>, b: nat, lvl: nat, base: nat, keep: nat, n512: nat, m: nat, freed: multiset<nat>)
      requires Target(d, u, b, lvl, n512) && Progress(d, u, b, lvl, base, keep, P(), n512, m, freed)
      ensures Released(d, u, disk, Used(), b, lvl, bs, freed) && Trimmed(d, disk, b, lvl, base, keep, bs)
      ensures TreeCut(d, u, b, disk, Used(), b, lvl, base, keep, bs, freed)
    {
      hide Nodes, Follow, Underway, Released, Trimmed, TreeCut;
      UnderwayDone(d, u, disk, Used(), b, lvl, base, keep, bs, freed);
      UnderwayReleased(d, u, disk, Used(), b, lvl, base, keep, bs, P(), freed);
      TreeTrimmed(d, u, b, disk, Used(), lvl, base, keep, bs, freed);
    }

    /** What makes an emptied root droppable. */
    lemma EmptiedRoot(d: Disk, u: set<nat>, b: nat, lvl: nat, base: nat, keep: nat, n512: nat, m: nat, freed: multiset<nat>)
      requires Target(d, u, b, lvl, n512) && Progress(d, u, b, lvl, base, keep, P(), n512, m, freed)
      requires NullsBelow(disk, b, P())
      ensures Nodes(disk, b, lvl) == multiset{b} && b in Nodes(d, b, lvl) && b in Used() && bs / 512 <= m
      ensures forall q :: |q| == lvl && IsPath(q, bs) && base + Off(bs / 4, q) < keep ==> Follow(d, b, q) == 0
    {
      hide Nodes, Follow, Released, Ptrs, Off, Sectors;
      AllNull(disk, b, lvl + 1, bs);
      RootInNodes(d, b, lvl);
      OwnUsed(d, u, b, lvl, base, keep, P(), freed);
      SectorsAdd(bs, 1, |freed|);
      assert |multiset{b}| == 1;
      forall q | |q| == lvl && IsPath(q, bs) && base + Off(bs / 4, q) < keep ensures Follow(d, b, q) == 0 {
        assert TrimmedAt(d, disk, b, base, keep, bs, q);
        FollowStep(disk, b, q);
        FollowEnds(disk, 0, q[1..]);
      }
    }

    /** bmap: the physical block of logical block `l`, 0 for a hole or a block no route reaches. */
    method Bmap(n: Inode, l: nat) returns (b: nat)
      requires Valid() && FileOk(n)
      ensures b == Map(disk, n.blk, l, P())
      ensures Answers(disk, n.blk, P(), l, b)
    {
      hide Owned, Follow, Sound, Ptrs, RouteOf, Off, Base, Answers;
      MapAnswers(disk, n.blk, P(), l);
      var route := RouteOf(P(), l);
      if route.None? { return 0; }
      RouteMeaning(P(), l);
      var s, path := route.value.slot, route.value.path;
      b := n.blk[s];
      FollowEnds(disk, b, path[..0]);
      for k := 0 to |path|
        invariant b == Follow(disk, n.blk[s], path[..k])
      {
        if b == 0 {
          FollowPrefix(disk, n.blk[s], path, k);
          return 0;
        }
        OnTheWay(n, s, path, k);
        b := ReadPtr(b, path[k]);
      }
      assert path[..|path|] == path;
    }

    /** Stores bytes into a data block. */
    method WriteBytes(b: nat, i: nat, src: Block)
      requires Valid() && b < |disk| && b in Used() && i + |src| <= bs
      modifies this`disk
      ensures Valid() && disk == old(disk)[b := old(disk)[b][..i] + src + old(disk)[b][i + |src|..]]
    {
      disk := disk[b := disk[b][..i] + src + disk[b][i + |src|..]];
    }

    /** Cuts every pointer of the inode at logical block `keep`. */
    method CutPointers(n: Inode, keep: nat) returns (n': Inode, ghost freed: multiset<nat>)
      requires Valid() && FileOk(n)
      modifies this`disk, alloc
      ensures Valid() && FileOk(n') && n'.size == n.size
      ensures FileUnderway(old(disk), old(Used()), n.blk, disk, Used(), n'.blk, keep, bs, SLOTS, freed)
      ensures FilePacked(disk, n'.blk, keep, bs, SLOTS)
    {
      hide Owned, Nodes, Follow, Sectors, FileUnderway, TreeCut, Root, Packed;
      n', freed := n, multiset{};
      FileStart(disk, Used(), n.blk, keep, bs);
      StartProgress(n, keep);
      var m: nat;
      ghost var more;
      for i := 0 to 12
        invariant FileProgress(old(disk), old(Used()), n, keep, i, n', freed) && FilePacked(disk, n'.blk, keep, bs, i)
      {
        ghost var e, v := disk, Used();
        SlotRoot(old(disk), old(Used()), n, keep, i, n', freed);
        var c;
        c, m, more := CutDirect(n'.blk[i], i, keep, n'.blocks512);
        SlotPacked(e, v, n'.blk, disk, Used(), c, keep, bs, i, more);
        SlotProgress(old(disk), old(Used()), n, keep, i, n', freed, e, v, c, m, more);
        n', freed := n'.(blk := n'.blk[i := c], blocks512 := m), freed + more;
      }
      var bases := [12, 12 + P(), 12 + P() + P() * P()];
      for lvl := 1 to 4
        invariant FileProgress(old(disk), old(Used()), n, keep, 11 + lvl, n', freed)
        invariant FilePacked(disk, n'.blk, keep, bs, 11 + lvl)
      {
        var s := 11 + lvl;
        ghost var e, v := disk, Used();
        SlotRoot(old(disk), old(Used()), n, keep, s, n', freed);
        var c;
        c, m, more := CutIndirect(n'.blk[s], lvl, bases[lvl - 1], keep, n'.blocks512);
        SlotPacked(e, v, n'.blk, disk, Used(), c, keep, bs, s, more);
        SlotProgress(old(disk), old(Used()), n, keep, s, n', freed, e, v, c, m, more);
        n', freed := n'.(blk := n'.blk[s := c], blocks512 := m), freed + more;
      }
      FileDone(old(disk), old(Used()), n, keep, n', freed);
    }

    /** The pointers before `s` are cut, and the sectors add up. */
    ghost predicate FileProgress(d: Disk, u: set<nat>, n: Inode, keep: nat, s: nat, n': Inode, freed: multiset<nat>)
      reads this, alloc
    {
      && Valid() && Accounted(d, n, u, bs) && n'.size == n.size && |n'.blk| == SLOTS && |disk| == |d|
      && FileUnderway(d, u, n.blk, disk, Used(), n'.blk, keep, bs, s, freed)
      && n'.blocks512 + Sectors(bs, |freed|) == n.blocks512
    }

    lemma StartProgress(n: Inode, keep: nat)
      requires Valid() && FileOk(n) && FileUnderway(disk, Used(), n.blk, disk, Used(), n.blk, keep, bs, 0, multiset{})
      ensures FileProgress(disk, Used(), n, keep, 0, n, multiset{})
    {
    }

    lemma SlotRoot(d: Disk, u: set<nat>, n: Inode, keep: nat, s: nat, n': Inode, freed: multiset<nat>)
      requires FileProgress(d, u, n, keep, s, n', freed) && s < SLOTS
      ensures Valid() && |n'.blk| == SLOTS && Root(n'.blk[s], SlotLevel(s), n'.blocks512) && SoundFile(disk, n'.blk, bs)
    {
      hide Nodes, Roots, Follow, Sectors, SlotUntouched, FileRouteCut;
      FileSound(d, u, n.blk, disk, Used(), n'.blk, keep, bs, s, freed);
      SoundSlot(disk, n'.blk, s);
      var b, k := n'.blk[s], |Owned(disk, n'.blk)|;
      if b != 0 {
        RootInNodes(disk, b, SlotLevel(s));
        var c := Nodes(disk, b, SlotLevel(s));
        forall x: nat ensures c[x] <= Owned(disk, n'.blk)[x] { RootsMember(disk, n'.blk, SLOTS, s, x); }
        assert Owned(disk, n'.blk) == c + (Owned(disk, n'.blk) - c);
        SectorsAdd(bs, k, |freed|);
        SectorsAdd(bs, |c|, k - |c|);
      }
    }

    lemma SlotProgress(d: Disk, u: set<nat>, n: Inode, keep: nat, s: nat, n': Inode, freed: multiset<nat>,
                       e: Disk, v: set<nat>, c: nat, m: nat, more: multiset<nat>)
      requires Valid() && s < SLOTS && Accounted(d, n, u, bs) && n'.size == n.size && |n'.blk| == SLOTS
      requires |d| == |e| == |disk| && FileUnderway(d, u, n.blk, e, v, n'.blk, keep, bs, s, freed)
      requires n'.blocks512 + Sectors(bs, |freed|) == n.blocks512 && m + Sectors(bs, |more|) == n'.blocks512
      requires TreeCut(e, v, n'.blk[s], disk, Used(), c, SlotLevel(s), Base(P(), s), keep, bs, more)
      ensures FileProgress(d, u, n, keep, s + 1, n'.(blk := n'.blk[s := c], blocks512 := m), freed + more)
    {
      hide Owned, Nodes, Roots, Follow, Sectors, FileUnderway, TreeCut;
      SlotCut(d, u, n.blk, e, v, n'.blk, disk, Used(), c, keep, bs, s, freed, more);
      SectorsAdd(bs, |freed|, |more|);
    }

    lemma FileDone(d: Disk, u: set<nat>, n: Inode, keep: nat, n': Inode, freed: multiset<nat>)
      requires FileProgress(d, u, n, keep, SLOTS, n', freed)
      ensures Valid() && FileOk(n') && n'.size == n.size
      ensures FileUnderway(d, u, n.blk, disk, Used(), n'.blk, keep, bs, SLOTS, freed)
    {
      hide Nodes, Roots, Follow, Sectors, SlotUntouched, FileRouteCut;
      FileSound(d, u, n.blk, disk, Used(), n'.blk, keep, bs, SLOTS, freed);
      SectorsAdd(bs, |Owned(disk, n'.blk)|, |freed|);
    }
  }

  /** A mapped route stays mapped to the same block. */
  lemma GrowthKeeps(d: Disk, blk: seq<nat>, u: set<nat>, e: Disk, blk': seq<nat>, u': set<nat>, s: nat, path: seq<nat>, bs: nat)
    requires |blk| == |blk'| == SLOTS && s < SLOTS && |path| == SlotLevel(s) && IsPath(path, bs)
    requires Growth(d, blk, u, e, blk', u', s, path, bs)
    ensures Follow(d, blk[s], path) != 0 ==> Follow(e, blk'[s], path) == Follow(d, blk[s], path)
  {
    hide Owned, Follow;
    assert RouteKept(d, blk, e, blk', s, path, s, path);
  }

  lemma FollowPrefix(d: Disk, b: nat, path: seq<nat>, k: nat)
    requires k <= |path| && Follow(d, b, path[..k]) == 0
    ensures Follow(d, b, path) == 0
  {
    if k == 0 { FollowEnds(d, 0, path); } else { StillHole(d, b, path, k - 1); }
  }

  /** Nothing lies beyond a null pointer. */
  lemma {:induction false} StillHole(d: Disk, b: nat, path: seq<nat>, k: nat)
    requires k < |path| && Follow(d, b, path[..k + 1]) == 0
    ensures Follow(d, b, path) == 0
    decreases k
  {
    if b != 0 && b < |d| && path[0] < |Ptrs(d[b])| {
      if k == 0 {
        assert path[..1][1..] == [];
        FollowEnds(d, Ptrs(d[b])[path[0]], path[1..]);
      } else {
        assert path[..k + 1][1..] == path[1..][..k];
        StillHole(d, Ptrs(d[b])[path[0]], path[1..], k - 1);
      }
    }
  }

  lemma Pending(d: Disk, u: set<nat>, e: Disk, u': set<nat>, b: nat, level: nat, base: nat, keep: nat,
                bs: nat, i: nat, freed: multiset<nat>)
    requires Underway(d, u, e, u', b, level, base, keep, bs, i, freed) && i < bs / 4
    ensures level > 0 && b < |d| == |e| && |Ptrs(d[b])| == |Ptrs(e[b])| == bs / 4 && Ptrs(e[b])[i] == Ptrs(d[b])[i]
  {
    hide Nodes, Ptrs, Follow, Released, TrimmedAt;
    assert Untouched(d, e, b, level, i);
  }

  lemma UnderwayReleased(d: Disk, u: set<nat>, e: Disk, u': set<nat>, b: nat, level: nat, base: nat, keep: nat,
                         bs: nat, i: nat, freed: multiset<nat>)
    requires Underway(d, u, e, u', b, level, base, keep, bs, i, freed)
    ensures Released(d, u, e, u', b, level, bs, freed)
  {
    hide Nodes, Ptrs, Follow, Released, Untouched, TrimmedAt;
  }

  lemma Lengths(d: Disk, u: set<nat>, e: Disk, u': set<nat>, b: nat, level: nat, base: nat, keep: nat,
                bs: nat, i: nat, freed: multiset<nat>)
    requires Underway(d, u, e, u', b, level, base, keep, bs, i, freed)
    ensures level > 0 && b < |d| == |e| && |Ptrs(d[b])| == |Ptrs(e[b])| == bs / 4
  {
    hide Nodes, Ptrs, Follow, Released, TrimmedAt;
  }

  /** The first `i` pointers of block `b` are null. */
  ghost predicate NullsBelow(d: Disk, b: nat, i: nat)
  {
    b < |d| && i <= |Ptrs(d[b])| && forall j :: 0 <= j < i ==> Ptrs(d[b])[j] == 0
  }

  /** Pointer `i` of block `b` is as `hit` says, the others are as in `e`. */
  ghost predicate PointerDone(e: Disk, d: Disk, b: nat, i: nat, hit: bool)
  {
    && b < |d| && b < |e| && i < |Ptrs(e[b])| == |Ptrs(d[b])|
    && (hit <==> Ptrs(d[b])[i] != 0)
    && forall j :: 0 <= j < |Ptrs(d[b])| && j != i ==> Ptrs(d[b])[j] == Ptrs(e[b])[j]
  }

  lemma NullsStep(e: Disk, d: Disk, b: nat, i: nat, hit: bool)
    requires PointerDone(e, d, b, i, hit)
    ensures NullsBelow(d, b, i + 1) <==> NullsBelow(e, b, i) && !hit
  {
    hide Ptrs;
    if NullsBelow(d, b, i + 1) {
      assert Ptrs(d[b])[i] == 0;
      forall j | 0 <= j < i ensures Ptrs(e[b])[j] == 0 { assert Ptrs(d[b])[j] == 0; }
    }
  }

  lemma LevelOne(p: nat, base: nat, i: nat, keep: nat, bs: nat)
    requires p == bs / 4
    ensures ChildBase(base, i, 1, bs) == base + i && Span(p, 0) == 1
  {
  }

  lemma UnderwayBetween(d: Disk, u: set<nat>, e: Disk, u': set<nat>, b: nat, level: nat, base: nat, keep: nat,
                        bs: nat, i: nat, freed: multiset<nat>)
    requires Underway(d, u, e, u', b, level, base, keep, bs, i, freed)
             || Underway(d, u, e, u', b, level, base, keep, bs, i + 1, freed)
    ensures Between(d, u, e, u', b, level, base, keep, bs, i, freed)
  {
    hide Nodes, Ptrs, Follow, Released, Untouched, TrimmedAt;
  }

  /** No path through a data block at or past the cut is to be kept. */
  lemma NothingKeptDirect(d: Disk, b: nat, base: nat, keep: nat, bs: nat, i: nat)
    requires base + i >= keep
    ensures forall q :: |q| == 1 && IsPath(q, bs) && q[0] == i && base + Off(bs / 4, q) < keep ==> Follow(d, b, q) == 0
  {
    hide Follow, Off;
    forall q | |q| == 1 && q[0] == i ensures Off(bs / 4, q) == i {
      assert q == [i];
      Off1(bs / 4, i);
    }
  }

  lemma AllNull(d: Disk, c: nat, level: nat, bs: nat)
    requires level > 1 && 0 < c < |d| && Sized(d, bs) && forall j :: 0 <= j < bs / 4 ==> j < |Ptrs(d[c])| && Ptrs(d[c])[j] == 0
    ensures Nodes(d, c, level - 1) == multiset{c}
  {
    hide Nodes;
    PtrsLength(d[c]);
    EmptyNodes(d, c, level - 1);
  }

  /** Nothing through an emptied indirect block was to be kept. */
  lemma NothingKeptBelow(d: Disk, f: Disk, b: nat, level: nat, base: nat, keep: nat, bs: nat, i: nat, c: nat)
    requires level > 1 && b != 0 && b < |f| && |Ptrs(f[b])| == bs / 4 && i < bs / 4 && c == Ptrs(f[b])[i] && 0 < c < |f|
    requires forall j :: 0 <= j < bs / 4 ==> j < |Ptrs(f[c])| && Ptrs(f[c])[j] == 0
    requires forall q :: |q| == level && IsPath(q, bs) && q[0] < i + 1 ==> TrimmedAt(d, f, b, base, keep, bs, q)
    ensures forall q :: |q| == level && IsPath(q, bs) && q[0] == i && base + Off(bs / 4, q) < keep ==> Follow(d, b, q) == 0
  {
    hide Follow, Off, Ptrs;
    forall q | |q| == level && IsPath(q, bs) && q[0] == i && base + Off(bs / 4, q) < keep ensures Follow(d, b, q) == 0 {
      assert TrimmedAt(d, f, b, base, keep, bs, q);
      FollowStep(f, b, q);
      var r := q[1..];
      FollowStep(f, c, r);
      assert r[0] < bs / 4;
      FollowEnds(f, 0, r[1..]);
    }
  }

  lemma OffNil(p: nat)
    ensures forall q :: |q| == 0 ==> Off(p, q) == 0
  {
  }

  lemma ReleasedNothing(d: Disk, u: set<nat>, b: nat, level: nat, bs: nat)
    requires Sized(d, bs)
    ensures Released(d, u, d, u, b, level, bs, multiset{})
  {
    hide Nodes;
  }
}
