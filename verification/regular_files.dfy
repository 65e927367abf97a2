/** The files of a volume: read, write and truncate refine operations on byte sequences, one per inode
    (kernel/src/ext2.rs:666-818). */
module RegularFiles {
  import opened Basics
  import opened BlockTree
  import opened BlockRoutes
  import opened InodeMap
  import opened Truncation
  import opened Ext2Files
  import opened FileBytes

  datatype File = File(dir: bool, node: Inode)

  type Table = map<nat, File>

  /** Largest direct disk request of the loader. */
  const RUN_BYTES: nat := 0x10_0000

  ghost predicate Good(d: Disk, u: set<nat>, n: Inode, bs: nat)
  {
    Accounted(d, n, u, bs) && TailZero(d, n, bs)
  }

  ghost predicate Apart(d: Disk, a: Inode, b: Inode)
    requires |a.blk| == |b.blk| == SLOTS
  {
    forall x :: x in Owned(d, a.blk) ==> x !in Owned(d, b.blk)
  }

  /** Every file is sound and no two share a block. */
  ghost predicate Volume(d: Disk, u: set<nat>, files: Table, bs: nat)
  {
    && (forall i :: i in files ==> Good(d, u, files[i].node, bs))
    && (forall i, j :: i in files && j in files && i != j ==> Apart(d, files[i].node, files[j].node))
  }

  /** A confined change to one file: the volume stays sound and the other files keep every byte. */
  lemma VolumeStep(d: Disk, u: set<nat>, files: Table, e: Disk, u': set<nat>, i: nat, n: Inode, bs: nat)
    requires Volume(d, u, files, bs) && i in files && Good(e, u', n, bs)
    requires Confined(d, u, files[i].node.blk, e, u', n.blk)
    ensures Volume(e, u', files[i := files[i].(node := n)], bs)
    ensures forall j :: j in files && j != i ==>
              |files[j].node.blk| == SLOTS && Contents(e, files[j].node, bs) == Contents(d, files[j].node, bs)
  {
    hide Owned, Sectors, Byte, Confined;
    forall j | j in files && j != i
      ensures Good(e, u', files[j].node, bs) && Owned(e, files[j].node.blk) == Owned(d, files[j].node.blk)
      ensures Apart(e, files[j].node, n) && Apart(e, n, files[j].node)
      ensures Contents(e, files[j].node, bs) == Contents(d, files[j].node, bs)
    {
      assert Apart(d, files[j].node, files[i].node);
      Bystander(d, u, files[i].node.blk, e, u', n.blk, files[j].node, bs);
    }
    var after := files[i := files[i].(node := n)];
    forall j, k | j in after && k in after && j != k ensures Apart(e, after[j].node, after[k].node) {
      if j != i && k != i { assert Apart(d, files[j].node, files[k].node); }
    }
  }

  // ---------------------------------------------------------------- a write on its way

  /** The first `done` bytes of `src` are at `off`, every other position reads as before. */
  ghost predicate Wrote(d: Disk, u: set<nat>, n: Inode, e: Disk, u': set<nat>, n': Inode, bs: nat,
                        off: nat, src: seq<byte>, done: nat)
  {
    && |n.blk| == |n'.blk| == SLOTS && bs >= 4 && done <= |src| && n'.size == n.size
    && Accounted(e, n', u', bs) && Confined(d, u, n.blk, e, u', n'.blk)
    && forall p: nat :: Byte(e, n'.blk, bs, p) == if off <= p < off + done then src[p - off] else Byte(d, n.blk, bs, p)
  }

  lemma WroteNothing(d: Disk, u: set<nat>, n: Inode, bs: nat, off: nat, src: seq<byte>)
    requires Accounted(d, n, u, bs)
    ensures Wrote(d, u, n, d, u, n, bs, off, src, 0)
  {
    hide Owned, Byte;
  }

  lemma WroteMore(d: Disk, u: set<nat>, n: Inode, e: Disk, u': set<nat>, n': Inode, f: Disk, u'': set<nat>, n'': Inode,
                  bs: nat, off: nat, src: seq<byte>, done: nat, k: nat)
    requires Wrote(d, u, n, e, u', n', bs, off, src, done) && done + k <= |src|
    requires Wrote(e, u', n', f, u'', n'', bs, off + done, src[done..done + k], k)
    ensures Wrote(d, u, n, f, u'', n'', bs, off, src, done + k)
  {
    hide Owned, Byte, Confined, Accounted;
    ConfinedTransitive(d, u, n.blk, e, u', n'.blk, f, u'', n''.blk);
  }

  /** A finished write as an operation on the byte sequence. */
  lemma WroteContents(d: Disk, u: set<nat>, n: Inode, e: Disk, u': set<nat>, n': Inode, bs: nat,
                      off: nat, src: seq<byte>, done: nat, size: nat)
    requires Wrote(d, u, n, e, u', n', bs, off, src, done) && TailZero(d, n, bs)
    requires size == if n.size < off + done then off + done else n.size
    ensures Good(e, u', n'.(size := size), bs)
    ensures Contents(e, n'.(size := size), bs) == Overwritten(Contents(d, n, bs), off, src[..done])
  {
    hide Owned, Byte, Confined, Sectors;
    var s, r := Contents(d, n, bs), Contents(e, n'.(size := size), bs);
    var t := Overwritten(s, off, src[..done]);
    forall p | 0 <= p < size ensures r[p] == t[p] {
      if off <= p < off + done { assert t[off..off + done][p - off] == src[p - off]; }
    }
  }

  /** The growth that makes room for a chunk. */
  lemma RoomMade(d: Disk, u: set<nat>, n: Inode, e: Disk, u': set<nat>, n': Inode, bs: nat, off: nat, src: seq<byte>)
    requires |n.blk| == |n'.blk| == SLOTS && bs >= 4 && n'.size == n.size && Accounted(e, n', u', bs)
    requires Confined(d, u, n.blk, e, u', n'.blk) && SameBytes(d, n.blk, e, n'.blk, bs)
    ensures Wrote(d, u, n, e, u', n', bs, off, src, 0)
  {
    hide Owned, Byte, Confined, Accounted;
  }

  lemma ChunkStored(d: Disk, u: set<nat>, n: Inode, e: Disk, u': set<nat>, n': Inode, f: Disk, bs: nat, pos: nat, src: seq<byte>)
    requires Wrote(d, u, n, e, u', n', bs, pos, src, 0) && Mod(pos, bs) + |src| <= bs
    requires Map(e, n'.blk, Div(pos, bs), bs / 4) != 0
    requires Patched(e, f, Map(e, n'.blk, Div(pos, bs), bs / 4), Mod(pos, bs), src)
    ensures Wrote(d, u, n, f, u', n', bs, pos, src, |src|)
  {
    hide Owned, Byte, NoAlias, Map, Sectors;
    ChunkWritten(e, f, n'.blk, bs, pos, src);
    MapDistinct(e, n'.blk, bs, Div(pos, bs), Div(pos, bs) + 1);
  }

  // ---------------------------------------------------------------- a truncation on its way

  /** The file was cut to `size` bytes: positions before it read as before, the others as zero, and the
      blocks that left it, and only those, went out of use. */
  ghost predicate CutTo(d: Disk, u: set<nat>, n: Inode, e: Disk, u': set<nat>, n': Inode, bs: nat, size: nat)
  {
    && |n.blk| == |n'.blk| == SLOTS && bs >= 4
    && Accounted(e, n', u', bs) && Confined(d, u, n.blk, e, u', n'.blk)
    && (forall x :: x in u' <==> x in u && !(x in Owned(d, n.blk) && x !in Owned(e, n'.blk)))
    && forall p: nat :: Byte(e, n'.blk, bs, p) == if p < size then Byte(d, n.blk, bs, p) else 0
  }

  lemma CutContents(d: Disk, u: set<nat>, n: Inode, e: Disk, u': set<nat>, n': Inode, bs: nat, size: nat)
    requires CutTo(d, u, n, e, u', n', bs, size) && size <= n.size
    ensures Good(e, u', n'.(size := size), bs)
    ensures Contents(e, n'.(size := size), bs) == Resized(Contents(d, n, bs), size)
  {
    hide Owned, Byte, Confined, Sectors;
  }

  lemma GrownContents(d: Disk, u: set<nat>, n: Inode, bs: nat, size: nat)
    requires Good(d, u, n, bs) && n.size <= size
    ensures Good(d, u, n.(size := size), bs)
    ensures Contents(d, n.(size := size), bs) == Resized(Contents(d, n, bs), size)
  {
    hide Owned, Byte, Sectors;
  }

  /** The pointers were cut at the block after `size` and the rest of the last block is a hole or zeroed. */
  lemma CutDone(d: Disk, u: set<nat>, n: Inode, e: Disk, u': set<nat>, n': Inode, bs: nat, size: nat,
                freed: multiset<nat>, f: Disk)
    requires Accounted(d, n, u, bs) && Accounted(e, n', u', bs) && bs >= 4
    requires FileUnderway(d, u, n.blk, e, u', n'.blk, DivCeil(size, bs), bs, SLOTS, freed)
    requires var b := Map(e, n'.blk, Div(size, bs), bs / 4);
             if Mod(size, bs) == 0 || b == 0 then f == e
             else Patched(e, f, b, Mod(size, bs), Zeros(bs - Mod(size, bs)))
    ensures CutTo(d, u, n, f, u', n', bs, size)
  {
    hide Owned, Byte, NoAlias, Map, Sectors, FileUnderway, DivCeil, Patched, Confined;
    CutBytes(d, u, n.blk, e, u', n'.blk, size, bs, freed);
    CutConfined(d, u, n.blk, e, u', n'.blk, DivCeil(size, bs), bs, freed);
    CutReleases(d, u, n.blk, e, u', n'.blk, DivCeil(size, bs), bs, freed);
    if Mod(size, bs) != 0 && Map(e, n'.blk, Div(size, bs), bs / 4) != 0 {
      var zs := Zeros(bs - Mod(size, bs));
      ChunkWritten(e, f, n'.blk, bs, size, zs);
      PatchConfined(d, u, n.blk, e, u', n'.blk, f, bs, Div(size, bs), Mod(size, bs), zs);
      forall p: nat ensures Byte(f, n'.blk, bs, p) == if p < size then Byte(d, n.blk, bs, p) else 0 {
        ChunkRange(bs, size, |zs|, p);
        assert Mod(p, bs) < bs;
      }
    }
  }

  lemma CutReleases(d: Disk, u: set<nat>, blk: seq<nat>, e: Disk, u': set<nat>, blk': seq<nat>, keep: nat, bs: nat,
                    freed: multiset<nat>)
    requires |blk| == |blk'| == SLOTS && SoundFile(d, blk, bs)
    requires FileUnderway(d, u, blk, e, u', blk', keep, bs, SLOTS, freed)
    ensures forall x :: x in u' <==> x in u && !(x in Owned(d, blk) && x !in Owned(e, blk'))
  {
    FileSound(d, u, blk, e, u', blk', keep, bs, SLOTS, freed);
    hide Owned, FileRouteCut, SlotUntouched;
    forall x ensures x in u' <==> x in u && !(x in Owned(d, blk) && x !in Owned(e, blk')) {
      assert (Owned(e, blk') + freed)[x] == Owned(d, blk)[x];
    }
  }

  lemma PatchConfined(d: Disk, u: set<nat>, blk: seq<nat>, e: Disk, u': set<nat>, blk': seq<nat>, f: Disk, bs: nat,
                      l: nat, i: nat, src: seq<byte>)
    requires |blk| == |blk'| == SLOTS && Confined(d, u, blk, e, u', blk') && SoundFile(e, blk', bs)
    requires Map(e, blk', l, bs / 4) != 0 && Patched(e, f, Map(e, blk', l, bs / 4), i, src)
    requires Owned(f, blk') == Owned(e, blk')
    ensures Confined(d, u, blk, f, u', blk')
  {
    hide Owned, NoAlias, Map;
    MapDistinct(e, blk', bs, l, l + 1);
  }

  // ---------------------------------------------------------------- the loader's direct read

  function Blocks(bs: nat, k: nat): nat
  {
    bs * k
  }

  lemma BlocksAdd(bs: nat, a: nat, b: nat)
    ensures Blocks(bs, a + b) == Blocks(bs, a) + Blocks(bs, b)
    ensures Blocks(bs, 0) == 0 && Blocks(bs, 1) == bs
  {
  }

  lemma BlocksMono(bs: nat, a: nat, b: nat)
    requires a <= b
    ensures Blocks(bs, a) <= Blocks(bs, b)
  {
    MulMono(bs, a, b);
  }

  lemma BlocksIndex(bs: nat, l: nat, i: nat)
    requires bs > 0 && i < bs
    ensures Div(Blocks(bs, l) + i, bs) == l && Mod(Blocks(bs, l) + i, bs) == i
  {
    DivUnique(Blocks(bs, l) + i, bs, l, i);
    assert Blocks(bs, l) + i == bs * Div(Blocks(bs, l) + i, bs) + Mod(Blocks(bs, l) + i, bs);
  }

  lemma BlocksCover(bs: nat, size: nat)
    requires bs > 0
    ensures size <= Blocks(bs, DivCeil(size, bs))
  {
    assert size == bs * Div(size, bs) + Mod(size, bs);
    BlocksAdd(bs, Div(size, bs), 1);
  }

  /** Byte `pos` as the raw device holds it: the map comes from the logical disk, the data from `raw`. */
  ghost function RawByte(d: Disk, raw: Disk, blk: seq<nat>, bs: nat, pos: nat): byte
    requires |blk| == SLOTS && bs >= 4
  {
    ByteIn(raw, Map(d, blk, Div(pos, bs), bs / 4), Mod(pos, bs))
  }

  /** Reading the device directly gives the file's bytes once the device holds what the cache shows. */
  lemma RawIsContents(d: Disk, raw: Disk, n: Inode, bs: nat, bytes: seq<byte>)
    requires |n.blk| == SLOTS && bs >= 4 && n.size <= |bytes|
    requires forall p :: 0 <= p < |bytes| ==> bytes[p] == RawByte(d, raw, n.blk, bs, p)
    requires forall l: nat :: var x := Map(d, n.blk, l, bs / 4); x != 0 && x < |d| ==> x < |raw| && raw[x] == d[x]
    requires SoundFile(d, n.blk, bs)
    ensures bytes[..n.size] == Contents(d, n, bs)
  {
    hide Owned, NoAlias, Map;
    forall p | 0 <= p < n.size ensures bytes[p] == Byte(d, n.blk, bs, p) {
      var l := Div(p, bs);
      if Map(d, n.blk, l, bs / 4) != 0 { MapDistinct(d, n.blk, bs, l, l + 1); }
    }
  }

  class Files {
    const fs: Ext2
    /** The inode table. */
    var inodes: Table

    ghost predicate Valid()
      reads this, fs, fs.alloc
    {
      fs.Valid() && Volume(fs.disk, fs.Used(), inodes, fs.bs)
    }

    /** What file `i` holds. */
    ghost function Text(i: nat): seq<byte>
      requires Valid() && i in inodes
      reads this, fs, fs.alloc
    {
      Contents(fs.disk, inodes[i].node, fs.bs)
    }

    /** What every file holds. */
    ghost function Texts(): map<nat, seq<byte>>
      requires Valid()
      reads this, fs, fs.alloc
    {
      map i | i in inodes :: Text(i)
    }

    /** Every block of the data area is taken. */
    ghost predicate Full()
      requires fs.alloc.Valid()
      reads this, fs, fs.alloc
    {
      forall x: nat :: fs.alloc.firstData <= x < fs.alloc.blocks ==> x in fs.Used()
    }

    /** A volume with no files yet. */
    constructor (fs: Ext2)
      requires fs.Valid()
      ensures Valid() && this.fs == fs && inodes == map[]
    {
      this.fs := fs;
      this.inodes := map[];
    }

    /** A new inode (kernel/src/ext2.rs:1237-1262): an empty file; all others are as they were. */
    method Create(ino: nat)
      requires Valid() && ino !in inodes
      modifies this`inodes
      ensures Valid() && inodes == old(inodes)[ino := File(false, Inode(0, 0, Nulls(SLOTS)))]
      ensures Texts() == old(Texts())[ino := []]
    {
      hide Owned, Sectors, Byte, Apart, Volume, Good, Contents, Nulls;
      BlankJoins(fs.disk, fs.Used(), inodes, ino, fs.bs);
      inodes := inodes[ino := File(false, Inode(0, 0, Nulls(SLOTS)))];
    }

    /** read: as many of the `len` bytes at `off` as the file has, into the front of `dst`. */
    method Read(ino: nat, off: nat, dst: array<byte>, len: nat) returns (count: nat)
      requires Valid() && ino in inodes && len <= dst.Length
      modifies dst
      ensures Valid() && Text(ino) == old(Text(ino))
      ensures count == if off >= |Text(ino)| then 0 else if len < |Text(ino)| - off then len else |Text(ino)| - off
      ensures count > 0 ==> dst[..count] == Text(ino)[off..off + count]
      ensures dst[count..] == old(dst[count..])
    {
      hide Owned, Sectors, Byte, Apart, Volume;
      var n := inodes[ino].node;
      VolumeMember(fs.disk, fs.Used(), inodes, fs.bs, ino);
      if off >= n.size { return 0; }
      count := if len < n.size - off then len else n.size - off;
      ReadAll(n, off, dst, count);
    }

    method ReadAll(n: Inode, off: nat, dst: array<byte>, count: nat)
      requires fs.Valid() && fs.FileOk(n) && count <= dst.Length
      modifies dst
      ensures forall k :: 0 <= k < count ==> dst[k] == Byte(fs.disk, n.blk, fs.bs, off + k)
      ensures forall k :: count <= k < dst.Length ==> dst[k] == old(dst[k])
    {
      hide Owned, Sectors, Byte, NoAlias;
      var done := 0;
      while done < count
        invariant 0 <= done <= count && fs.Valid() && fs.FileOk(n)
        invariant forall k :: 0 <= k < done ==> dst[k] == Byte(fs.disk, n.blk, fs.bs, off + k)
        invariant forall k :: done <= k < dst.Length ==> dst[k] == old(dst[k])
      {
        var chunk := Chunk(off + done, count - done);
        ReadChunk(n, off + done, dst, done, chunk);
        done := done + chunk;
      }
    }

    /** Bytes up to the end of the block, and no more than wanted. */
    function Chunk(pos: nat, left: nat): (k: nat)
      requires fs.bs > 0
      ensures Mod(pos, fs.bs) + k <= fs.bs && k <= left && (left > 0 ==> k > 0)
      ensures k < left ==> Mod(pos, fs.bs) + k == fs.bs
    {
      var room := fs.bs - Mod(pos, fs.bs);
      if room < left then room else left
    }

    method ReadChunk(n: Inode, pos: nat, dst: array<byte>, at: nat, chunk: nat)
      requires fs.Valid() && fs.FileOk(n) && Mod(pos, fs.bs) + chunk <= fs.bs && at + chunk <= dst.Length
      modifies dst
      ensures forall k :: at <= k < at + chunk ==> dst[k] == Byte(fs.disk, n.blk, fs.bs, pos + (k - at))
      ensures forall k :: 0 <= k < dst.Length && !(at <= k < at + chunk) ==> dst[k] == old(dst[k])
    {
      hide Owned, Sectors, Map, NoAlias;
      var l, i := Div(pos, fs.bs), Mod(pos, fs.bs);
      var b := fs.Bmap(n, l);
      if b == 0 {
        forall k | 0 <= k < chunk { dst[at + k] := 0; }
      } else {
        MapDistinct(fs.disk, n.blk, fs.bs, l, l + 1);
        forall k | 0 <= k < chunk { dst[at + k] := fs.disk[b][i + k]; }
      }
      forall k | at <= k < at + chunk ensures dst[k] == Byte(fs.disk, n.blk, fs.bs, pos + (k - at)) {
        ChunkRange(fs.bs, pos, chunk, pos + (k - at));
        assert dst[at + (k - at)] == if b == 0 then 0 else fs.disk[b][i + (k - at)];
      }
    }

    /** write: stores a prefix of `src` at `off`. It falls short only at a block no route reaches or on a
        full volume, and fails only when it stored nothing. Other files keep every byte. */
    method Write(ino: nat, goal: nat, off: nat, src: seq<byte>) returns (r: Result<nat, nat>, ghost done: nat)
      requires Valid() && ino in inodes
      modifies this`inodes, fs`disk, fs.alloc
      ensures Valid() && done <= |src|
      ensures old(inodes[ino].dir) ==> r == Err(EISDIR) && Texts() == old(Texts())
      ensures !old(inodes[ino].dir) && off + |src| >= U64 ==> r == Err(EFBIG) && Texts() == old(Texts())
      ensures !old(inodes[ino].dir) && off + |src| < U64 ==>
                && Texts() == old(Texts())[ino := Overwritten(old(Text(ino)), off, src[..done])]
                && (r.Ok? ==> r.value == done)
                && (r.Err? <==> done == 0 && src != [])
                && (done < |src| ==> RouteOf(fs.P(), Div(off + done, fs.bs)).None? || Full())
      ensures forall i :: i in inodes <==> i in old(inodes)
    {
      hide Owned, Sectors, Byte, Apart, Volume, Wrote, Overwritten, RouteOf, Good, Contents, Confined, Div;
      done := 0;
      if inodes[ino].dir { return Err(EISDIR), 0; }
      if off + |src| >= U64 { return Err(EFBIG), 0; }
      var n := inodes[ino].node;
      VolumeMember(fs.disk, fs.Used(), inodes, fs.bs, ino);
      var n', count, err := WriteAll(n, goal, off, src);
      done := count;
      var size := if off + count > n'.size then off + count else n'.size;
      WroteSize(old(fs.disk), old(fs.Used()), n, fs.disk, fs.Used(), n', fs.bs, off, src, done);
      WroteContents(old(fs.disk), old(fs.Used()), n, fs.disk, fs.Used(), n', fs.bs, off, src, done, size);
      Store(old(fs.disk), old(fs.Used()), ino, n'.(size := size));
      r := if err.Some? && count == 0 then Err(err.value) else Ok(count);
    }

    /** write_inode, after a change confined to one file. */
    method Store(ghost d: Disk, ghost u: set<nat>, ino: nat, n: Inode)
      requires fs.Valid() && ino in inodes && Volume(d, u, inodes, fs.bs) && Good(fs.disk, fs.Used(), n, fs.bs)
      requires Confined(d, u, inodes[ino].node.blk, fs.disk, fs.Used(), n.blk)
      modifies this`inodes
      ensures Valid() && inodes == old(inodes)[ino := old(inodes)[ino].(node := n)]
      ensures forall j :: j in inodes && j != ino ==> |old(inodes)[j].node.blk| == SLOTS
                                                      && Text(j) == Contents(d, old(inodes)[j].node, fs.bs)
      ensures Text(ino) == Contents(fs.disk, n, fs.bs)
    {
      hide Owned, Sectors, Byte, Apart, Volume, Good, Contents;
      VolumeStep(d, u, inodes, fs.disk, fs.Used(), ino, n, fs.bs);
      inodes := inodes[ino := inodes[ino].(node := n)];
    }

    method WriteAll(n: Inode, goal: nat, off: nat, src: seq<byte>) returns (n': Inode, done: nat, err: Option<nat>)
      requires fs.Valid() && fs.FileOk(n)
      modifies fs`disk, fs.alloc
      ensures fs.Valid() && Wrote(old(fs.disk), old(fs.Used()), n, fs.disk, fs.Used(), n', fs.bs, off, src, done)
      ensures err.Some? <==> done < |src|
      ensures done < |src| ==> RouteOf(fs.P(), Div(off + done, fs.bs)).None? || Full()
    {
      hide Owned, Sectors, Byte, Wrote, RouteOf, Accounted;
      n', done, err := n, 0, None;
      WroteNothing(fs.disk, fs.Used(), n, fs.bs, off, src);
      while done < |src|
        invariant 0 <= done <= |src| && fs.Valid() && fs.FileOk(n')
        invariant Wrote(old(fs.disk), old(fs.Used()), n, fs.disk, fs.Used(), n', fs.bs, off, src, done)
        invariant err == None
      {
        var chunk := Chunk(off + done, |src| - done);
        ghost var d, u, m := fs.disk, fs.Used(), n';
        var r;
        n', r := WriteChunk(n', goal, off + done, src[done..done + chunk]);
        ghost var k := if r.Err? then 0 else chunk;
        assert src[done..done + chunk][..k] == src[done..done + k] && src[done..done + chunk][..0] == src[done..done + 0];
        assert Wrote(d, u, m, fs.disk, fs.Used(), n', fs.bs, off + done, src[done..done + k], k);
        WroteMore(old(fs.disk), old(fs.Used()), n, d, u, m, fs.disk, fs.Used(), n', fs.bs, off, src, done, k);
        if r.Err? { return n', done, Some(r.error); }
        done := done + chunk;
      }
    }

    /** One chunk: its block is mapped, or allocated zeroed, and the bytes go in. */
    method WriteChunk(n: Inode, goal: nat, pos: nat, src: seq<byte>) returns (n': Inode, r: Result<nat, nat>)
      requires fs.Valid() && fs.FileOk(n) && Mod(pos, fs.bs) + |src| <= fs.bs
      modifies fs`disk, fs.alloc
      ensures fs.Valid() && fs.FileOk(n')
      ensures r.Err? ==> Wrote(old(fs.disk), old(fs.Used()), n, fs.disk, fs.Used(), n', fs.bs, pos, src[..0], 0)
      ensures r.Ok? ==> Wrote(old(fs.disk), old(fs.Used()), n, fs.disk, fs.Used(), n', fs.bs, pos, src, |src|)
      ensures r.Err? ==> RouteOf(fs.P(), Div(pos, fs.bs)).None? || Full()
    {
      hide Owned, Sectors, Byte, Wrote, RouteOf, Map, Growth, NoAlias, Confined;
      var l := Div(pos, fs.bs);
      n', r := fs.BmapAlloc(n, goal, l);
      if RouteOf(fs.P(), l).None? {
        WroteNothing(fs.disk, fs.Used(), n, fs.bs, pos, src[..0]);
        return;
      }
      ghost var t := RouteOf(fs.P(), l).value;
      GrowthBytes(old(fs.disk), n.blk, old(fs.Used()), fs.disk, n'.blk, fs.Used(), fs.bs, l);
      GrowthConfined(old(fs.disk), n.blk, old(fs.Used()), fs.disk, n'.blk, fs.Used(), t.slot, t.path, fs.bs);
      RoomMade(old(fs.disk), old(fs.Used()), n, fs.disk, fs.Used(), n', fs.bs, pos, src);
      RoomMade(old(fs.disk), old(fs.Used()), n, fs.disk, fs.Used(), n', fs.bs, pos, src[..0]);
      if r.Err? { return; }
      MapDistinct(fs.disk, n'.blk, fs.bs, l, l + 1);
      ghost var e, v := fs.disk, fs.Used();
      fs.WriteBytes(r.value, Mod(pos, fs.bs), src);
      ChunkStored(old(fs.disk), old(fs.Used()), n, e, v, n', fs.disk, fs.bs, pos, src);
      WroteAccounted(old(fs.disk), old(fs.Used()), n, fs.disk, fs.Used(), n', fs.bs, pos, src, |src|);
    }

    /** truncate: cuts the file or extends it with a hole. */
    method Truncate(ino: nat, size: nat) returns (r: Result<nat, nat>)
      requires Valid() && ino in inodes
      modifies this`inodes, fs`disk, fs.alloc
      ensures Valid()
      ensures old(inodes[ino].dir) ==> r == Err(EISDIR) && Texts() == old(Texts())
      ensures !old(inodes[ino].dir) ==> r.Ok? && Texts() == old(Texts())[ino := Resized(old(Text(ino)), size)]
      ensures forall i :: i in inodes <==> i in old(inodes)
    {
      hide Owned, Sectors, Byte, Apart, Volume, Resized, Confined, Good, Contents;
      if inodes[ino].dir { return Err(EISDIR); }
      VolumeMember(fs.disk, fs.Used(), inodes, fs.bs, ino);
      var n := TruncateInode(inodes[ino].node, size);
      Store(old(fs.disk), old(fs.Used()), ino, n);
      r := Ok(0);
    }

    /** truncate_inode. */
    method TruncateInode(n: Inode, size: nat) returns (n': Inode)
      requires fs.Valid() && Good(fs.disk, fs.Used(), n, fs.bs)
      modifies fs`disk, fs.alloc
      ensures fs.Valid() && Good(fs.disk, fs.Used(), n', fs.bs) && n'.size == size
      ensures Contents(fs.disk, n', fs.bs) == Resized(old(Contents(fs.disk, n, fs.bs)), size)
      ensures Confined(old(fs.disk), old(fs.Used()), n.blk, fs.disk, fs.Used(), n'.blk)
      ensures size >= n.size ==> n' == n.(size := size) && fs.disk == old(fs.disk) && fs.Used() == old(fs.Used())
      ensures forall x :: x in fs.Used() <==>
                x in old(fs.Used()) && !(x in Owned(old(fs.disk), n.blk) && x !in Owned(fs.disk, n'.blk))
      ensures size < n.size ==> FilePacked(fs.disk, n'.blk, DivCeil(size, fs.bs), fs.bs, SLOTS)
      ensures size == 0 && n.size > 0 ==> n'.blk == Nulls(SLOTS) && n'.blocks512 == 0
      ensures forall l: nat :: Map(fs.disk, n'.blk, l, fs.P()) ==
                               if l < DivCeil(size, fs.bs) || size >= n.size then old(Map(fs.disk, n.blk, l, fs.P())) else 0
    {
      hide Owned, Sectors, Byte, Resized, Confined, CutTo, FileUnderway, Map, NoAlias, DivCeil, FilePacked, Patched, Nulls, Contents;
      if size >= n.size {
        GrownContents(fs.disk, fs.Used(), n, fs.bs, size);
        ConfinedReflexive(fs.disk, fs.Used(), n.blk);
        return n.(size := size);
      }
      ghost var freed;
      n', freed := fs.CutPointers(n, DivCeil(size, fs.bs));
      ghost var e, v := fs.disk, fs.Used();
      CutMaps(old(fs.disk), old(fs.Used()), n.blk, e, v, n'.blk, DivCeil(size, fs.bs), fs.bs, freed);
      ZeroTail(n', size, DivCeil(size, fs.bs));
      CutDone(old(fs.disk), old(fs.Used()), n, e, v, n', fs.bs, size, freed, fs.disk);
      CutContents(old(fs.disk), old(fs.Used()), n, fs.disk, fs.Used(), n', fs.bs, size);
      CutParts(old(fs.disk), old(fs.Used()), n, fs.disk, fs.Used(), n', fs.bs, size);
      if size == 0 { CutToNothing(old(fs.disk), old(fs.Used()), n, e, v, n', fs.disk, fs.Used(), fs.bs, freed); }
      n' := n'.(size := size);
    }

    /** Clears what the last block holds past `size`. */
    method ZeroTail(n: Inode, size: nat, ghost keep: nat)
      requires fs.Valid() && fs.FileOk(n) && FilePacked(fs.disk, n.blk, keep, fs.bs, SLOTS)
      modifies fs`disk
      ensures fs.Valid() && FilePacked(fs.disk, n.blk, keep, fs.bs, SLOTS)
      ensures forall l: nat :: Map(fs.disk, n.blk, l, fs.P()) == Map(old(fs.disk), n.blk, l, fs.P())
      ensures var b := Map(old(fs.disk), n.blk, Div(size, fs.bs), fs.bs / 4);
              if Mod(size, fs.bs) == 0 || b == 0 then fs.disk == old(fs.disk)
              else Patched(old(fs.disk), fs.disk, b, Mod(size, fs.bs), Zeros(fs.bs - Mod(size, fs.bs)))
    {
      hide Owned, Sectors, Map, NoAlias, FilePacked;
      var i := Mod(size, fs.bs);
      if i == 0 { return; }
      var l := Div(size, fs.bs);
      var b := fs.Bmap(n, l);
      if b == 0 { return; }
      MapDistinct(fs.disk, n.blk, fs.bs, l, l + 1);
      fs.WriteBytes(b, i, Zeros(fs.bs - i));
      ChunkWritten(old(fs.disk), fs.disk, n.blk, fs.bs, size, Zeros(fs.bs - i));
      FilePackedLeaf(old(fs.disk), fs.disk, n.blk, keep, fs.bs, l);
    }

    /** read_all_phys: whole blocks straight from the device `raw`, one request per run of neighbours. */
    method ReadAllPhys(ino: nat, raw: Disk, dst: array<byte>) returns (size: nat)
      requires Valid() && ino in inodes && |raw| == |fs.disk| && Sized(raw, fs.bs)
      requires Blocks(fs.bs, DivCeil(inodes[ino].node.size, fs.bs)) <= dst.Length
      modifies dst
      ensures Valid() && Text(ino) == old(Text(ino)) && size == |Text(ino)| <= dst.Length
      ensures forall p :: 0 <= p < Blocks(fs.bs, DivCeil(size, fs.bs)) ==>
                dst[p] == RawByte(fs.disk, raw, inodes[ino].node.blk, fs.bs, p)
      ensures forall p :: Blocks(fs.bs, DivCeil(size, fs.bs)) <= p < dst.Length ==> dst[p] == old(dst[p])
      ensures raw == fs.disk ==> dst[..size] == Text(ino)
    {
      hide Owned, Sectors, Byte, RawByte, Apart, Volume, Map, Blocks, DivCeil, NoAlias;
      var n := inodes[ino].node;
      VolumeMember(fs.disk, fs.Used(), inodes, fs.bs, ino);
      size := n.size;
      var nblk, l := DivCeil(size, fs.bs), 0;
      BlocksAdd(fs.bs, 0, 0);
      BlocksMono(fs.bs, 0, nblk);
      while l < nblk
        invariant 0 <= l <= nblk && Valid() && Blocks(fs.bs, l) <= Blocks(fs.bs, nblk) <= dst.Length
        invariant forall p :: 0 <= p < Blocks(fs.bs, l) ==> dst[p] == RawByte(fs.disk, raw, n.blk, fs.bs, p)
        invariant forall p :: Blocks(fs.bs, l) <= p < dst.Length ==> dst[p] == old(dst[p])
      {
        var b := fs.Bmap(n, l);
        var run := 1;
        if b != 0 { run := RunFrom(n, l, b, nblk); }
        BlocksAdd(fs.bs, l, run);
        BlocksMono(fs.bs, l + run, nblk);
        LoadRun(n, raw, dst, l, b, run);
        l := l + run;
      }
      BlocksCover(fs.bs, size);
      if raw == fs.disk {
        RawIsContents(fs.disk, raw, n, fs.bs, dst[..Blocks(fs.bs, nblk)]);
        assert dst[..Blocks(fs.bs, nblk)][..size] == dst[..size];
      }
    }

    /** How many blocks from `l` are neighbours on the disk, up to 1 MiB. */
    method RunFrom(n: Inode, l: nat, b: nat, nblk: nat) returns (run: nat)
      requires fs.Valid() && fs.FileOk(n) && l < nblk && b == Map(fs.disk, n.blk, l, fs.P()) && b != 0
      ensures 1 <= run && l + run <= nblk && Blocks(fs.bs, run) <= RUN_BYTES
      ensures forall m :: l <= m < l + run ==> Map(fs.disk, n.blk, m, fs.P()) == b + (m - l)
    {
      hide Owned, Sectors, Map, Blocks, NoAlias;
      run := 1;
      BlocksAdd(fs.bs, 0, 1);
      while l + run < nblk && Blocks(fs.bs, run) < RUN_BYTES
        invariant 1 <= run && l + run <= nblk && Blocks(fs.bs, run) <= RUN_BYTES
        invariant forall m :: l <= m < l + run ==> Map(fs.disk, n.blk, m, fs.P()) == b + (m - l)
      {
        var c := fs.Bmap(n, l + run);
        if c != b + run { return; }
        RunFits(fs.bs, run);
        run := run + 1;
      }
    }

    /** One request to the device, or zeros for a hole. */
    method LoadRun(n: Inode, raw: Disk, dst: array<byte>, l: nat, b: nat, run: nat)
      requires fs.Valid() && fs.FileOk(n) && |raw| == |fs.disk| && Sized(raw, fs.bs) && run >= 1
      requires Blocks(fs.bs, l) + Blocks(fs.bs, run) <= dst.Length
      requires b == 0 ==> run == 1 && Map(fs.disk, n.blk, l, fs.P()) == 0
      requires b != 0 ==> forall m :: l <= m < l + run ==> Map(fs.disk, n.blk, m, fs.P()) == b + (m - l)
      modifies dst
      ensures forall p :: Blocks(fs.bs, l) <= p < Blocks(fs.bs, l) + Blocks(fs.bs, run) ==>
                dst[p] == RawByte(fs.disk, raw, n.blk, fs.bs, p)
      ensures forall p :: 0 <= p < dst.Length && !(Blocks(fs.bs, l) <= p < Blocks(fs.bs, l) + Blocks(fs.bs, run)) ==>
                dst[p] == old(dst[p])
    {
      hide Owned, Sectors, Map, Blocks, NoAlias;
      var at, i := Blocks(fs.bs, l), 0;
      BlocksAdd(fs.bs, 0, 0);
      BlocksMono(fs.bs, 0, run);
      while i < run
        invariant 0 <= i <= run && at == Blocks(fs.bs, l) && at + Blocks(fs.bs, i) <= at + Blocks(fs.bs, run) <= dst.Length
        invariant forall p :: at <= p < at + Blocks(fs.bs, i) ==> dst[p] == RawByte(fs.disk, raw, n.blk, fs.bs, p)
        invariant forall p :: 0 <= p < dst.Length && !(at <= p < at + Blocks(fs.bs, i)) ==> dst[p] == old(dst[p])
      {
        BlocksAdd(fs.bs, i, 1);
        BlocksMono(fs.bs, i + 1, run);
        BlocksAdd(fs.bs, l, i);
        LoadBlock(n, raw, dst, l + i, if b == 0 then 0 else b + i);
        i := i + 1;
      }
    }

    method LoadBlock(n: Inode, raw: Disk, dst: array<byte>, l: nat, b: nat)
      requires fs.Valid() && fs.FileOk(n) && |raw| == |fs.disk| && Sized(raw, fs.bs)
      requires Blocks(fs.bs, l) + fs.bs <= dst.Length && b == Map(fs.disk, n.blk, l, fs.P())
      modifies dst
      ensures forall p :: Blocks(fs.bs, l) <= p < Blocks(fs.bs, l) + fs.bs ==> dst[p] == RawByte(fs.disk, raw, n.blk, fs.bs, p)
      ensures forall p :: 0 <= p < dst.Length && !(Blocks(fs.bs, l) <= p < Blocks(fs.bs, l) + fs.bs) ==> dst[p] == old(dst[p])
    {
      hide Owned, Sectors, Map, Blocks, NoAlias;
      var at := Blocks(fs.bs, l);
      if b == 0 {
        forall k | 0 <= k < fs.bs { dst[at + k] := 0; }
      } else {
        MapDistinct(fs.disk, n.blk, fs.bs, l, l + 1);
        forall k | 0 <= k < fs.bs { dst[at + k] := raw[b][k]; }
      }
      forall p | at <= p < at + fs.bs ensures dst[p] == RawByte(fs.disk, raw, n.blk, fs.bs, p) {
        BlocksIndex(fs.bs, l, p - at);
        assert dst[at + (p - at)] == if b == 0 then 0 else raw[b][p - at];
      }
    }
  }

  /** Runs grow block by block up to the largest request. */
  lemma RunFits(bs: nat, run: nat)
    requires bs in {1024, 2048, 4096} && Blocks(bs, run) < RUN_BYTES
    ensures Blocks(bs, run + 1) <= RUN_BYTES
  {
  }

  lemma VolumeMember(d: Disk, u: set<nat>, files: Table, bs: nat, i: nat)
    requires Volume(d, u, files, bs) && i in files
    ensures Good(d, u, files[i].node, bs)
  {
  }

  lemma WroteSize(d: Disk, u: set<nat>, n: Inode, e: Disk, u': set<nat>, n': Inode, bs: nat, off: nat, src: seq<byte>, done: nat)
    requires Wrote(d, u, n, e, u', n', bs, off, src, done)
    ensures n'.size == n.size && done <= |src| && |n.blk| == |n'.blk| == SLOTS && Confined(d, u, n.blk, e, u', n'.blk)
  {
  }

  lemma WroteAccounted(d: Disk, u: set<nat>, n: Inode, e: Disk, u': set<nat>, n': Inode, bs: nat, off: nat, src: seq<byte>, done: nat)
    requires Wrote(d, u, n, e, u', n', bs, off, src, done)
    ensures Accounted(e, n', u', bs)
  {
  }

  lemma ConfinedReflexive(d: Disk, u: set<nat>, blk: seq<nat>)
    requires |blk| == SLOTS
    ensures Confined(d, u, blk, d, u, blk)
  {
    hide Owned;
  }

  /** A cut to nothing leaves no pointer and no sector. */
  lemma CutToNothing(d: Disk, u: set<nat>, n: Inode, e: Disk, u': set<nat>, n': Inode, f: Disk, v: set<nat>, bs: nat, freed: multiset<nat>)
    requires |n.blk| == |n'.blk| == SLOTS && bs >= 4 && Accounted(f, n', v, bs)
    requires FileUnderway(d, u, n.blk, e, u', n'.blk, DivCeil(0, bs), bs, SLOTS, freed)
    requires FilePacked(e, n'.blk, DivCeil(0, bs), bs, SLOTS)
    ensures n'.blk == Nulls(SLOTS) && n'.blocks512 == 0
  {
    hide FileUnderway, FilePacked;
    CeilNothing(bs);
    forall s | 0 <= s < SLOTS ensures n'.blk[s] == 0 {
      PastCutGone(d, u, n.blk, e, u', n'.blk, 0, bs, freed, s);
    }
    NoRoots(f, SLOTS);
    assert n'.blk == Nulls(SLOTS);
  }

  lemma CeilNothing(bs: nat)
    requires bs > 0
    ensures DivCeil(0, bs) == 0
  {
  }

  lemma {:induction false} NoRoots(d: Disk, k: nat)
    requires k <= SLOTS
    ensures Roots(d, Nulls(SLOTS), k) == multiset{}
  {
    hide Nodes;
    if k > 0 {
      NoRoots(d, k - 1);
      NoNodes(d, SlotLevel(k - 1));
    }
  }

  /** An inode without blocks. */
  lemma BlankFile(d: Disk, u: set<nat>, bs: nat)
    requires Sized(d, bs) && bs in {1024, 2048, 4096}
    ensures var n := Inode(0, 0, Nulls(SLOTS)); Good(d, u, n, bs) && Owned(d, n.blk) == multiset{} && Contents(d, n, bs) == []
  {
    hide Roots, Nulls;
    var n := Inode(0, 0, Nulls(SLOTS));
    NoRoots(d, SLOTS);
    assert Sectors(bs, 0) == 0;
    forall l: nat ensures Map(d, n.blk, l, bs / 4) == 0 {
      if RouteOf(bs / 4, l).Some? { RouteMeaning(bs / 4, l); }
    }
    forall pos: nat ensures Byte(d, n.blk, bs, pos) == 0 {}
  }

  lemma BlankJoins(d: Disk, u: set<nat>, files: Table, ino: nat, bs: nat)
    requires Volume(d, u, files, bs) && ino !in files && Sized(d, bs) && bs in {1024, 2048, 4096}
    ensures Volume(d, u, files[ino := File(false, Inode(0, 0, Nulls(SLOTS)))], bs)
    ensures Contents(d, Inode(0, 0, Nulls(SLOTS)), bs) == []
  {
    hide Owned, Contents, TailZero, Accounted, Nulls;
    BlankFile(d, u, bs);
    var n := Inode(0, 0, Nulls(SLOTS));
    var after := files[ino := File(false, n)];
    forall i, j | i in after && j in after && i != j ensures |after[i].node.blk| == |after[j].node.blk| == SLOTS && Apart(d, after[i].node, after[j].node) {
      if i in files { assert Good(d, u, files[i].node, bs); GoodSlots(d, u, files[i].node, bs); }
      if j in files { assert Good(d, u, files[j].node, bs); GoodSlots(d, u, files[j].node, bs); }
    }
  }

  lemma GoodSlots(d: Disk, u: set<nat>, n: Inode, bs: nat)
    requires Good(d, u, n, bs)
    ensures |n.blk| == SLOTS
  {
  }

  lemma CutParts(d: Disk, u: set<nat>, n: Inode, e: Disk, u': set<nat>, n': Inode, bs: nat, size: nat)
    requires CutTo(d, u, n, e, u', n', bs, size)
    ensures |n.blk| == |n'.blk| == SLOTS && Confined(d, u, n.blk, e, u', n'.blk)
    ensures forall x :: x in u' <==> x in u && !(x in Owned(d, n.blk) && x !in Owned(e, n'.blk))
  {
    hide Owned, Byte, Confined;
  }

  lemma CutMaps(d: Disk, u: set<nat>, blk: seq<nat>, e: Disk, u': set<nat>, blk': seq<nat>, keep: nat, bs: nat, freed: multiset<nat>)
    requires |blk| == |blk'| == SLOTS && bs >= 4
    requires FileUnderway(d, u, blk, e, u', blk', keep, bs, SLOTS, freed)
    ensures forall l: nat :: Map(e, blk', l, bs / 4) == if l < keep then Map(d, blk, l, bs / 4) else 0
  {
    hide FileUnderway, Map;
    forall l: nat ensures Map(e, blk', l, bs / 4) == if l < keep then Map(d, blk, l, bs / 4) else 0 {
      CutMap(d, u, blk, e, u', blk', keep, bs, freed, l);
    }
  }
}
