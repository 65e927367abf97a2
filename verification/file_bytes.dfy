/** The byte sequence behind the block map of a regular file, and what each kind of change to the disk
    does to it (kernel/src/ext2.rs:608-740). */
module FileBytes {
  import opened Basics
  import opened BlockTree
  import opened BlockRoutes
  import opened InodeMap
  import opened Truncation
  import opened Ext2Files

  ghost function ByteIn(d: Disk, b: nat, i: nat): byte
  {
    if b == 0 || b >= |d| || i >= |d[b]| then 0 else d[b][i]
  }

  /** Byte `pos` of the block map; holes read as zeros. */
  ghost function Byte(d: Disk, blk: seq<nat>, bs: nat, pos: nat): byte
    requires |blk| == SLOTS && bs >= 4
  {
    ByteIn(d, Map(d, blk, Div(pos, bs), bs / 4), Mod(pos, bs))
  }

  /** The contents of a file. */
  ghost function Contents(d: Disk, n: Inode, bs: nat): (r: seq<byte>)
    requires |n.blk| == SLOTS && bs >= 4
    ensures |r| == n.size
  {
    seq(n.size, pos requires 0 <= pos => Byte(d, n.blk, bs, pos))
  }

  /** Nothing shows past the end, so that growing the file exposes zeros. */
  ghost predicate TailZero(d: Disk, n: Inode, bs: nat)
    requires |n.blk| == SLOTS && bs >= 4
  {
    forall pos: nat :: pos >= n.size ==> Byte(d, n.blk, bs, pos) == 0
  }

  /** The same bytes at every position. */
  ghost predicate SameBytes(d: Disk, blk: seq<nat>, e: Disk, blk': seq<nat>, bs: nat)
    requires |blk| == |blk'| == SLOTS && bs >= 4
  {
    forall pos: nat :: Byte(e, blk', bs, pos) == Byte(d, blk, bs, pos)
  }

  // ---------------------------------------------------------------- files as byte sequences

  /** Cut off at `k` bytes or extended to `k` bytes with zeros. */
  function Resized(s: seq<byte>, k: nat): (r: seq<byte>)
    ensures |r| == k && forall i :: 0 <= i < k ==> r[i] == if i < |s| then s[i] else 0
  {
    if k <= |s| then s[..k] else s + Zeros(k - |s|)
  }

  /** `src` at `off`, with zeros between the end and `off` when the file was shorter. */
  function Overwritten(s: seq<byte>, off: nat, src: seq<byte>): (r: seq<byte>)
    ensures |r| == if |s| < off + |src| then off + |src| else |s|
    ensures r[off..off + |src|] == src
    ensures forall i :: 0 <= i < |r| && !(off <= i < off + |src|) ==> r[i] == if i < |s| then s[i] else 0
  {
    var t := Resized(s, if |s| < off + |src| then off + |src| else |s|);
    t[..off] + src + t[off + |src|..]
  }

  /** Writing nothing is not always nothing: past the end it grows the file, though the call fails. */
  lemma WriteOfNothing(s: seq<byte>, off: nat)
    ensures Overwritten(s, off, []) == s <==> off <= |s|
    ensures Overwritten(s, off, []) == Resized(s, if |s| < off then off else |s|)
  {
  }

  /** Two writes in a row are one write of both. */
  lemma WritesJoin(s: seq<byte>, off: nat, a: seq<byte>, b: seq<byte>)
    ensures Overwritten(Overwritten(s, off, a), off + |a|, b) == Overwritten(s, off, a + b)
  {
    var l, r := Overwritten(Overwritten(s, off, a), off + |a|, b), Overwritten(s, off, a + b);
    forall i | 0 <= i < |l| ensures l[i] == r[i] {
      if off <= i < off + |a| {
        assert Overwritten(s, off, a)[off..off + |a|][i - off] == a[i - off];
        assert r[off..off + |a + b|][i - off] == (a + b)[i - off];
      } else if off + |a| <= i < off + |a| + |b| {
        assert l[off + |a|..off + |a| + |b|][i - off - |a|] == b[i - off - |a|];
        assert r[off..off + |a + b|][i - off] == (a + b)[i - off];
      }
    }
  }

  /** What a cut removed does not come back: shrinking and growing again reads as zeros. */
  lemma ShrinkThenGrow(s: seq<byte>, k: nat, m: nat)
    requires k <= |s|
    ensures forall i :: 0 <= i < m ==> Resized(Resized(s, k), m)[i] == if i < k then s[i] else 0
  {
  }

  // ---------------------------------------------------------------- positions

  /** A chunk that starts at `pos` and stays in its block covers the positions it seems to. */
  lemma ChunkRange(bs: nat, pos: nat, k: nat, p: nat)
    requires bs > 0 && Mod(pos, bs) + k <= bs
    ensures Div(p, bs) == Div(pos, bs) && Mod(pos, bs) <= Mod(p, bs) < Mod(pos, bs) + k <==> pos <= p < pos + k
    ensures pos <= p < pos + k ==> Mod(p, bs) == Mod(pos, bs) + (p - pos)
  {
    var l, i := Div(pos, bs), Mod(pos, bs);
    assert pos == bs * l + i && p == bs * Div(p, bs) + Mod(p, bs);
    if pos <= p < pos + k { DivUnique(p, bs, l, i + (p - pos)); }
  }

  /** Where position `p` lies relative to a cut at `size`. */
  lemma CutRange(bs: nat, size: nat, p: nat)
    requires bs > 0
    ensures p < size ==> Div(p, bs) < DivCeil(size, bs)
    ensures Div(p, bs) < DivCeil(size, bs) && p >= size ==> Div(p, bs) == Div(size, bs) && Mod(p, bs) >= Mod(size, bs) > 0
    ensures Div(p, bs) == Div(size, bs) && Mod(p, bs) >= Mod(size, bs) ==> p >= size
  {
    var l, k := Div(p, bs), Div(size, bs);
    assert p == bs * l + Mod(p, bs) && size == bs * k + Mod(size, bs);
    if l > k { MulMono(bs, k + 1, l); } else if l < k { MulMono(bs, l + 1, k); }
  }

  function DivCeil(a: nat, b: nat): nat
    requires b > 0
  {
    Div(a, b) + if Mod(a, b) == 0 then 0 else 1
  }

  // ---------------------------------------------------------------- growth

  /** Growing at logical block `l` leaves every other block and every mapped one. */
  lemma GrowthMap(d: Disk, blk: seq<nat>, u: set<nat>, e: Disk, blk': seq<nat>, u': set<nat>, bs: nat, l: nat, m: nat)
    requires |blk| == |blk'| == SLOTS && bs >= 4 && RouteOf(bs / 4, l).Some?
    requires Growth(d, blk, u, e, blk', u', RouteOf(bs / 4, l).value.slot, RouteOf(bs / 4, l).value.path, bs)
    ensures m != l ==> Map(e, blk', m, bs / 4) == Map(d, blk, m, bs / 4)
    ensures var x := Map(d, blk, m, bs / 4); x != 0 ==> Map(e, blk', m, bs / 4) == x && (x < |d| ==> e[x] == d[x])
  {
    hide Owned, Follow, RouteOf, Off, Base;
    if RouteOf(bs / 4, m).Some? {
      RouteMeaning(bs / 4, l);
      RouteMeaning(bs / 4, m);
      var r, t := RouteOf(bs / 4, l).value, RouteOf(bs / 4, m).value;
      assert RouteKept(d, blk, e, blk', r.slot, r.path, t.slot, t.path);
    }
  }

  lemma GrowthBytes(d: Disk, blk: seq<nat>, u: set<nat>, e: Disk, blk': seq<nat>, u': set<nat>, bs: nat, l: nat)
    requires |blk| == |blk'| == SLOTS && bs >= 4 && RouteOf(bs / 4, l).Some?
    requires Growth(d, blk, u, e, blk', u', RouteOf(bs / 4, l).value.slot, RouteOf(bs / 4, l).value.path, bs)
    requires var x := Map(e, blk', l, bs / 4); Map(d, blk, l, bs / 4) == 0 ==> x == 0 || (x < |e| && e[x] == Zeros(bs))
    ensures SameBytes(d, blk, e, blk', bs)
  {
    forall pos: nat ensures Byte(e, blk', bs, pos) == Byte(d, blk, bs, pos) {
      hide Map, Kept, RouteOf, Owned;
      GrowthMap(d, blk, u, e, blk', u', bs, l, Div(pos, bs));
    }
  }

  // ---------------------------------------------------------------- data

  /** `e` is `d` with `src` written into block `b` at byte `i`. */
  ghost predicate Patched(d: Disk, e: Disk, b: nat, i: nat, src: seq<byte>)
  {
    && b < |d| && i + |src| <= |d[b]|
    && e == d[b := d[b][..i] + src + d[b][i + |src|..]]
  }

  /** Different logical blocks never share a physical one. */
  lemma MapDistinct(d: Disk, blk: seq<nat>, bs: nat, l: nat, m: nat)
    requires SoundFile(d, blk, bs) && l != m && Map(d, blk, l, bs / 4) != 0
    ensures Map(d, blk, m, bs / 4) != Map(d, blk, l, bs / 4)
    ensures Map(d, blk, l, bs / 4) in Owned(d, blk) && Map(d, blk, l, bs / 4) < |d|
  {
    hide Nodes, Follow, Roots, RouteOf, Off, Base;
    RouteMeaning(bs / 4, l);
    var r := RouteOf(bs / 4, l).value;
    SoundSlot(d, blk, r.slot);
    FollowInNodes(d, blk[r.slot], r.path, SlotLevel(r.slot), bs);
    if Map(d, blk, m, bs / 4) != 0 {
      RouteMeaning(bs / 4, m);
      var t := RouteOf(bs / 4, m).value;
      if t.slot == r.slot {
        FollowDistinct(d, blk[r.slot], SlotLevel(r.slot), r.path, t.path, bs);
      } else {
        SoundSlot(d, blk, t.slot);
        FollowInNodes(d, blk[t.slot], t.path, SlotLevel(t.slot), bs);
        RootsDisjoint(d, blk, r.slot, t.slot, Map(d, blk, l, bs / 4));
      }
    }
  }

  /** Writing into a data block changes neither the tree nor the map. */
  lemma LeafKeepsMap(d: Disk, e: Disk, blk: seq<nat>, bs: nat, l: nat)
    requires SoundFile(d, blk, bs) && Map(d, blk, l, bs / 4) != 0 && |e| == |d| && Sized(e, bs)
    requires forall y :: 0 <= y < |d| && y != Map(d, blk, l, bs / 4) ==> e[y] == d[y]
    ensures SoundFile(e, blk, bs) && Owned(e, blk) == Owned(d, blk)
    ensures forall m: nat :: Map(e, blk, m, bs / 4) == Map(d, blk, m, bs / 4)
  {
    hide Nodes, Follow, Roots, RouteOf, Off, Base;
    RouteMeaning(bs / 4, l);
    var r := RouteOf(bs / 4, l).value;
    SoundSlot(d, blk, r.slot);
    FollowInNodes(d, blk[r.slot], r.path, SlotLevel(r.slot), bs);
    forall t | 0 <= t < SLOTS ensures Nodes(e, blk[t], SlotLevel(t)) == Nodes(d, blk[t], SlotLevel(t)) {
      if t == r.slot { LeafWrite(d, e, blk[t], r.path, bs, []); } else { OtherSlot(d, e, blk, bs, r.slot, t); }
    }
    RootsSame(d, e, blk, SLOTS);
    forall m: nat ensures Map(e, blk, m, bs / 4) == Map(d, blk, m, bs / 4) {
      if RouteOf(bs / 4, m).Some? {
        RouteMeaning(bs / 4, m);
        var t := RouteOf(bs / 4, m).value;
        if t.slot == r.slot {
          LeafWrite(d, e, blk[r.slot], r.path, bs, t.path);
        } else {
          OtherSlot(d, e, blk, bs, r.slot, t.slot);
        }
      }
    }
  }

  lemma {:induction false} RootsSame(d: Disk, e: Disk, blk: seq<nat>, k: nat)
    requires k <= |blk|
    requires forall t :: 0 <= t < |blk| ==> Nodes(e, blk[t], SlotLevel(t)) == Nodes(d, blk[t], SlotLevel(t))
    ensures Roots(e, blk, k) == Roots(d, blk, k)
  {
    hide Nodes;
    if k > 0 { RootsSame(d, e, blk, k - 1); }
  }

  /** Writing a chunk into the block of its position changes exactly the bytes of the chunk. */
  lemma ChunkWritten(d: Disk, e: Disk, blk: seq<nat>, bs: nat, pos: nat, src: seq<byte>)
    requires SoundFile(d, blk, bs) && Map(d, blk, Div(pos, bs), bs / 4) != 0 && Mod(pos, bs) + |src| <= bs
    requires Patched(d, e, Map(d, blk, Div(pos, bs), bs / 4), Mod(pos, bs), src)
    ensures SoundFile(e, blk, bs) && Owned(e, blk) == Owned(d, blk)
    ensures forall m: nat :: Map(e, blk, m, bs / 4) == Map(d, blk, m, bs / 4)
    ensures forall p: nat ::
              Byte(e, blk, bs, p) == if pos <= p < pos + |src| then src[p - pos] else Byte(d, blk, bs, p)
  {
    hide Owned, Map, NoAlias;
    var l := Div(pos, bs);
    LeafKeepsMap(d, e, blk, bs, l);
    forall p: nat
      ensures Byte(e, blk, bs, p) == if pos <= p < pos + |src| then src[p - pos] else Byte(d, blk, bs, p)
    {
      ChunkRange(bs, pos, |src|, p);
      if Div(p, bs) != l { MapDistinct(d, blk, bs, l, Div(p, bs)); }
    }
  }

  // ---------------------------------------------------------------- the cut

  /** After the pointers were cut at block `keep`, the map is the old one before it and empty from there. */
  lemma CutMap(d: Disk, u: set<nat>, blk: seq<nat>, e: Disk, u': set<nat>, blk': seq<nat>, keep: nat, bs: nat,
               freed: multiset<nat>, l: nat)
    requires |blk| == |blk'| == SLOTS && bs >= 4
    requires FileUnderway(d, u, blk, e, u', blk', keep, bs, SLOTS, freed)
    ensures |d| == |e|
    ensures var x := Map(d, blk, l, bs / 4);
            if l < keep then Map(e, blk', l, bs / 4) == x && (x != 0 && x < |d| ==> e[x] == d[x])
            else Map(e, blk', l, bs / 4) == 0
  {
    hide Owned, Follow, RouteOf, Off, Base, SlotUntouched;
    if RouteOf(bs / 4, l).Some? {
      RouteMeaning(bs / 4, l);
      var r := RouteOf(bs / 4, l).value;
      assert FileRouteCut(d, blk, e, blk', keep, bs, r.slot, r.path);
    }
  }

  lemma CutBytes(d: Disk, u: set<nat>, blk: seq<nat>, e: Disk, u': set<nat>, blk': seq<nat>, size: nat, bs: nat,
                 freed: multiset<nat>)
    requires |blk| == |blk'| == SLOTS && bs >= 4
    requires FileUnderway(d, u, blk, e, u', blk', DivCeil(size, bs), bs, SLOTS, freed)
    ensures forall p: nat :: p < size ==> Byte(e, blk', bs, p) == Byte(d, blk, bs, p)
    ensures forall p: nat :: p >= size && (Mod(size, bs) == 0 || Map(e, blk', Div(size, bs), bs / 4) == 0) ==>
                               Byte(e, blk', bs, p) == 0
    ensures forall p: nat :: p >= size && !(Div(p, bs) == Div(size, bs) && Mod(p, bs) >= Mod(size, bs)) ==>
                               Byte(e, blk', bs, p) == 0
  {
    hide Map, FileUnderway, DivCeil;
    forall p: nat
      ensures p < size ==> Byte(e, blk', bs, p) == Byte(d, blk, bs, p)
      ensures p >= size && (Mod(size, bs) == 0 || Map(e, blk', Div(size, bs), bs / 4) == 0) ==> Byte(e, blk', bs, p) == 0
      ensures p >= size && !(Div(p, bs) == Div(size, bs) && Mod(p, bs) >= Mod(size, bs)) ==> Byte(e, blk', bs, p) == 0
    {
      CutRange(bs, size, p);
      CutMap(d, u, blk, e, u', blk', DivCeil(size, bs), bs, freed, Div(p, bs));
    }
  }

  // ---------------------------------------------------------------- other files

  /** A change that keeps to the blocks of one file and to blocks nobody used. */
  ghost predicate Confined(d: Disk, u: set<nat>, blk: seq<nat>, e: Disk, u': set<nat>, blk': seq<nat>)
    requires |blk| == |blk'| == SLOTS
  {
    && |d| == |e|
    && (forall x: nat :: x < |d| && x in u && x !in Owned(d, blk) ==> e[x] == d[x])
    && (forall x :: x in u && x !in Owned(d, blk) ==> x in u')
    && (forall x :: x in Owned(e, blk') && x in u ==> x in Owned(d, blk))
  }

  lemma ConfinedTransitive(d: Disk, u: set<nat>, blk: seq<nat>, e: Disk, u': set<nat>, blk': seq<nat>,
                           f: Disk, u'': set<nat>, blk'': seq<nat>)
    requires |blk| == |blk'| == |blk''| == SLOTS
    requires Confined(d, u, blk, e, u', blk') && Confined(e, u', blk', f, u'', blk'')
    ensures Confined(d, u, blk, f, u'', blk'')
  {
    hide Owned;
    forall x: nat | x < |d| && x in u && x !in Owned(d, blk) ensures f[x] == d[x] {
      assert e[x] == d[x] && x in u' && x !in Owned(e, blk');
    }
    forall x | x in u && x !in Owned(d, blk) ensures x in u'' { assert x in u' && x !in Owned(e, blk'); }
  }

  lemma GrowthConfined(d: Disk, blk: seq<nat>, u: set<nat>, e: Disk, blk': seq<nat>, u': set<nat>, s: nat, path: seq<nat>, bs: nat)
    requires |blk| == |blk'| == SLOTS && Growth(d, blk, u, e, blk', u', s, path, bs)
    ensures Confined(d, u, blk, e, u', blk')
  {
    hide Owned, Kept;
  }

  lemma CutConfined(d: Disk, u: set<nat>, blk: seq<nat>, e: Disk, u': set<nat>, blk': seq<nat>, keep: nat, bs: nat,
                    freed: multiset<nat>)
    requires |blk| == |blk'| == SLOTS && SoundFile(d, blk, bs)
    requires FileUnderway(d, u, blk, e, u', blk', keep, bs, SLOTS, freed)
    ensures Confined(d, u, blk, e, u', blk')
  {
    FileSound(d, u, blk, e, u', blk', keep, bs, SLOTS, freed);
    hide Owned, FileRouteCut, SlotUntouched, SoundFile;
    forall x | x in u && x !in Owned(d, blk) ensures x in u' {
      assert (Owned(e, blk') + freed)[x] == Owned(d, blk)[x];
    }
  }

  /** A file that shared no block with the changed one keeps its blocks and every byte, and still shares none. */
  lemma Bystander(d: Disk, u: set<nat>, blk: seq<nat>, e: Disk, u': set<nat>, blk': seq<nat>, m: Inode, bs: nat)
    requires |blk| == |blk'| == SLOTS && Confined(d, u, blk, e, u', blk') && Sized(e, bs)
    requires Accounted(d, m, u, bs) && forall x :: x in Owned(d, m.blk) ==> x !in Owned(d, blk)
    ensures Accounted(e, m, u', bs) && Owned(e, m.blk) == Owned(d, m.blk)
    ensures forall x :: x in Owned(e, m.blk) ==> x !in Owned(e, blk')
    ensures SameBytes(d, m.blk, e, m.blk, bs)
  {
    hide Nodes, Follow, Roots, RouteOf, Sectors;
    forall t | 0 <= t < SLOTS
      ensures Agree(d, e, Nodes(d, m.blk[t], SlotLevel(t))) && Nodes(e, m.blk[t], SlotLevel(t)) == Nodes(d, m.blk[t], SlotLevel(t))
    {
      SoundSlot(d, m.blk, t);
      NodesFrame(d, e, m.blk[t], SlotLevel(t));
    }
    RootsSame(d, e, m.blk, SLOTS);
    forall p: nat ensures Byte(e, m.blk, bs, p) == Byte(d, m.blk, bs, p) {
      BystanderMap(d, e, m.blk, bs, Div(p, bs));
    }
  }

  lemma BystanderMap(d: Disk, e: Disk, blk: seq<nat>, bs: nat, l: nat)
    requires SoundFile(d, blk, bs) && |d| == |e|
    requires forall t :: 0 <= t < SLOTS ==> Agree(d, e, Nodes(d, blk[t], SlotLevel(t)))
    ensures Map(e, blk, l, bs / 4) == Map(d, blk, l, bs / 4)
    ensures var x := Map(d, blk, l, bs / 4); x != 0 && x < |d| ==> e[x] == d[x]
  {
    hide Nodes, Follow, Roots, RouteOf, Off, Base;
    if RouteOf(bs / 4, l).Some? {
      RouteMeaning(bs / 4, l);
      var r := RouteOf(bs / 4, l).value;
      FollowFrame(d, e, blk[r.slot], r.path, SlotLevel(r.slot));
      if Follow(d, blk[r.slot], r.path) != 0 {
        SoundSlot(d, blk, r.slot);
        FollowInNodes(d, blk[r.slot], r.path, SlotLevel(r.slot), bs);
      }
    }
  }
}
