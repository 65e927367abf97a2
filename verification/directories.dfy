/** Directories with their name cache: lookup, dir_add, dir_remove, set_dotdot (kernel/src/ext2.rs:822-1085). */
module Directories {
  import opened Basics
  import opened BlockTree
  import opened DirBlocks
  import opened DirListings
  import opened NameCache

  /** Every directory is in good order. */
  ghost predicate TreeSound(tree: Dirs, bs: nat)
  {
    forall d :: d in tree ==> 0 < d < 0x1_0000_0000 && Orderly(tree[d], d, bs)
  }

  lemma TreeUpdate(tree: Dirs, bs: nat, d: nat, l: Listing)
    requires TreeSound(tree, bs) && 0 < d < 0x1_0000_0000 && Orderly(l, d, bs)
    ensures TreeSound(tree[d := l], bs)
  {
    hide Orderly;
  }

  lemma ChangedAt(tree: Dirs, d: nat, l: Listing, name: Name)
    requires d in tree && Alike(tree[d], l, name)
    ensures OnlyChanged(tree, tree[d := l], d, name) && Truth(tree[d := l], d, name) == Ask(l, name)
  {
    hide Ask;
  }

  lemma HitRight(s: seq<Dentry>, i: nat, tree: Dirs, dir: nat, name: Name)
    requires i < |s| && Agrees(s, tree) && Hits(s[i], dir, name)
    ensures !Silent(s, dir, name) && (name != DOTDOT ==> AnswerOf(s[i]) == Truth(tree, dir, name))
  {
    assert Right(s[i], tree);
  }

  lemma OrderOf(tree: Dirs, bs: nat, dir: nat)
    requires TreeSound(tree, bs) && dir in tree
    ensures 0 < dir < 0x1_0000_0000 && Orderly(tree[dir], dir, bs) && Whole(tree[dir], bs)
  {
  }

  /** A full scan's answer, as the cache stores it. */
  lemma ScanRight(tree: Dirs, bs: nat, dir: nat, name: Name)
    requires TreeSound(tree, bs) && dir in tree
    ensures var a := Ask(tree[dir], name);
            Truth(tree, dir, name) == a && AnswerOf(AsDentry(dir, name, a)) == a
  {
    hide Ask, Whole;
    OrderOf(tree, bs, dir);
    AskNonzero(tree[dir], bs, name);
  }

  /** The slot that stores an answer. */
  function AsDentry(dir: nat, name: Name, a: Answer): Dentry
  {
    if a.Found? then Dentry(dir, a.ino, a.ftype, name, true) else Dentry(dir, 0, 0, name, true)
  }

  lemma TruthIn(tree: Dirs, dir: nat, name: Name)
    requires dir in tree
    ensures Truth(tree, dir, name) == Ask(tree[dir], name)
  {
  }

  lemma GoneTruth(tree: Dirs, dir: nat, name: Name)
    requires dir !in tree && name != DOT
    ensures Truth(tree, dir, name) == Absent == AnswerOf(Dentry(dir, 0, 0, name, true))
  {
  }

  lemma RoomAt(d: Listing, d': Listing, l: nat, ino: nat, ftype: byte, name: Name)
    requires PlacedIn(d, d', l, ino, ftype, name)
    ensures l < |d| && HasRoom(d[l], Need(|name|))
  {
  }

  lemma OneBlock(raw: Block, ino: nat, ftype: byte, name: Name)
    requires Need(MAX_NAME) <= |raw| < 0x1_0000 && IsName(name) && 0 < ino < 0x1_0000_0000
    ensures HEADER + |name| <= |raw| && |name| < 0x100
    ensures Tiles(Dirent(raw, 0, ino, |raw|, name, ftype), 0, [Live(|raw|, ino, ftype, name)])
  {
    OneRecordBlock(raw, ino, ftype, name);
  }

  lemma FreshChanged(tree: Dirs, dir: nat, d: Listing, parent: nat)
    requires dir !in tree
    requires forall n: Name :: Ask(d, n) == if n == DOT then Found(dir, FT_DIR) else if n == DOTDOT then Found(parent, FT_DIR) else Absent
    ensures OnlyChanged(tree, tree[dir := d], dir, DOTDOT) && Truth(tree[dir := d], dir, DOTDOT) == Found(parent, FT_DIR)
  {
    hide Ask;
  }

  lemma DotAnswer(d: Listing, self: nat)
    requires Headed(d, self)
    ensures Ask(d, DOT) == Found(self, FT_DIR)
  {
    hide Recs;
    var recs := Recs(d[0].block, 0);
    SearchAppend(recs, All(d[1..]), DOT);
  }

  /** A removed directory: all answers stay but the one for "..". */
  lemma GoneChanged(tree: Dirs, bs: nat, dir: nat)
    requires TreeSound(tree, bs) && dir in tree && Empty(tree[dir])
    ensures TreeSound(tree - {dir}, bs) && OnlyChanged(tree, tree - {dir}, dir, DOTDOT)
  {
    hide Ask, Whole, Unique, Headed;
    OrderOf(tree, bs, dir);
    DotAnswer(tree[dir], dir);
  }

  lemma Unchanged(tree: Dirs, d: nat, name: Name)
    ensures OnlyChanged(tree, tree, d, name)
  {
  }

  class Volume {
    const bs: nat
    var tree: Dirs
    /** Removed directories whose numbers are not in use again: their inodes still say directory. */
    var gone: set<nat>
    const cache: array<Dentry>

    ghost predicate Layout()
      reads this, cache
    {
      && Need(MAX_NAME) <= bs < 0x1_0000 && cache.Length == DCACHE_SLOTS
      && TreeSound(tree, bs) && Housed(cache[..]) && tree.Keys !! gone
    }

    ghost predicate Valid()
      reads this, cache
    {
      Layout() && Agrees(cache[..], tree)
    }

    constructor (bs: nat, tree: Dirs)
      requires Need(MAX_NAME) <= bs < 0x1_0000 && TreeSound(tree, bs)
      ensures Valid() && this.bs == bs && this.tree == tree && gone == {} && fresh(cache)
      ensures forall i :: 0 <= i < DCACHE_SLOTS ==> !cache[i].valid
    {
      this.bs, this.tree, gone := bs, tree, {};
      cache := new Dentry[DCACHE_SLOTS](_ => EMPTY);
    }

    method CachePut(dir: nat, name: Name, ino: nat, ftype: byte)
      requires cache.Length == DCACHE_SLOTS
      modifies cache
      ensures cache[..] == Put(old(cache[..]), dir, name, ino, ftype)
    {
      if |name| > DCACHE_NAME_MAX { return; }
      var i := DcacheIdx(dir, name);
      cache[i] := Dentry(dir, ino, ftype, name, true);
    }

    method CacheInv(dir: nat, name: Name)
      requires cache.Length == DCACHE_SLOTS
      modifies cache
      ensures cache[..] == Invalidated(old(cache[..]), dir, name)
    {
      if |name| > DCACHE_NAME_MAX { return; }
      var i := DcacheIdx(dir, name);
      if Hits(cache[i], dir, name) {
        cache[i] := cache[i].(valid := false);
      }
    }

    /** lookup (kernel/src/ext2.rs:916-953): the cached answer is the one a full scan gives. */
    method Lookup(dir: nat, name: Name, bad: set<nat>) returns (r: Result<Answer, Error>)
      requires Valid() && (dir in gone ==> name != DOT)
      modifies cache
      ensures Valid()
      ensures bad == {} ==> (r, cache[..]) == Looked(old(cache[..]), tree, gone, dir, name)
      ensures r.Ok? && name != DOTDOT ==> r.value == Truth(tree, dir, name)
      ensures r.Ok? && Silent(old(cache[..]), dir, name) ==> r.value == Truth(tree, dir, name)
      ensures dir in tree && bad == {} ==> r.Ok?
      ensures dir !in tree && dir !in gone && Silent(old(cache[..]), dir, name) ==> r == Err(NotDir)
    {
      hide Agrees, TreeSound, Housed, Silent, Truth, AnswerOf, Idx, Ask, Put, Whole, Orderly;
      if |name| <= DCACHE_NAME_MAX {
        var i := DcacheIdx(dir, name);
        var e := cache[i];
        if Hits(e, dir, name) {
          HitRight(cache[..], i, tree, dir, name);
          return Ok(AnswerOf(e));
        }
      }
      if dir in gone {
        GoneTruth(tree, dir, name);
        PutAgrees(cache[..], tree, dir, name, 0, 0);
        PutSlots(cache[..], dir, name, 0, 0);
        CachePut(dir, name, 0, 0);
        return Ok(Absent);
      }
      if dir !in tree { return Err(NotDir); }
      OrderOf(tree, bs, dir);
      r := FindIn(tree[dir], name, bad, bs);
      if r.Err? { return; }
      ScanRight(tree, bs, dir, name);
      var e := AsDentry(dir, name, r.value);
      PutAgrees(cache[..], tree, dir, name, e.ino, e.ftype);
      PutSlots(cache[..], dir, name, e.ino, e.ftype);
      CachePut(dir, name, e.ino, e.ftype);
    }

    /** dir_add (kernel/src/ext2.rs:958-999), for a name the directory does not have. `block` is the new block at the
        end, if one can be had; `stamped` says whether the inode could be written. */
    method DirAdd(dir: nat, name: Name, ino: nat, ftype: byte, bad: set<nat>, block: Result<Block, Error>, stamped: bool)
      returns (r: Result<(), Error>)
      requires Valid() && dir in tree && IsName(name) && name != DOTDOT && 0 < ino < 0x1_0000_0000
      requires Truth(tree, dir, name) == Absent && (block.Ok? ==> |block.value| == bs)
      modifies this, cache
      ensures Layout() && OnlyChanged(old(tree), tree, dir, name) && tree.Keys == old(tree).Keys && gone == old(gone)
      ensures cache[..] == Put(old(cache[..]), dir, name, ino, ftype)
      ensures Truth(tree, dir, name) == Found(ino, ftype) || tree == old(tree)
      ensures Agrees(cache[..], tree) <==> |name| > DCACHE_NAME_MAX || Truth(tree, dir, name) == Found(ino, ftype)
      ensures r.Ok? ==> Valid() && Truth(tree, dir, name) == Found(ino, ftype)
      ensures bad == {} && stamped ==>
                (r.Ok? <==> block.Ok? || exists l :: 0 <= l < |old(tree[dir])| && HasRoom(old(tree[dir])[l], Need(|name|)))
    {
      hide Agrees, TreeSound, Housed, Truth, Idx, Ask, Put, Whole, Orderly, OnlyChanged, HasRoom, Need, Alike, PlacedIn, IsName;
      ghost var before := tree;
      PutSlots(cache[..], dir, name, ino, ftype);
      CachePut(dir, name, ino, ftype);
      OrderOf(tree, bs, dir);
      TruthIn(tree, dir, name);
      var d, placed, at := PlaceIn(tree[dir], ino, ftype, name, bad, bs);
      if placed.Err? {
        r := Err(placed.error);
      } else if placed.value {
        PlacedOrderly(tree[dir], d, dir, bs, at, ino, ftype, name);
        TreeUpdate(tree, bs, dir, d);
        ChangedAt(tree, dir, d, name);
        RoomAt(tree[dir], d, at, ino, ftype, name);
        tree := tree[dir := d];
        r := if stamped then Ok(()) else Err(IoError);
      } else if block.Err? {
        r := Err(block.error);
      } else if !stamped {
        r := Err(IoError);
      } else {
        OneBlock(block.value, ino, ftype, name);
        var k := Dirent(block.value, 0, ino, bs, name, ftype);
        AppendedOrderly(tree[dir], k, dir, bs, ino, ftype, name);
        TreeUpdate(tree, bs, dir, tree[dir] + [Data(k)]);
        ChangedAt(tree, dir, tree[dir] + [Data(k)], name);
        tree := tree[dir := tree[dir] + [Data(k)]];
        r := Ok(());
      }
      if tree == before { Unchanged(tree, dir, name); }
      AnnouncedAgrees(old(cache[..]), before, tree, dir, name, ino, ftype);
    }

    /** dir_remove (kernel/src/ext2.rs:1022-1062) */
    method DirRemove(dir: nat, name: Name, bad: set<nat>, stamped: bool) returns (r: Result<(), Error>)
      requires Valid() && dir in tree && IsName(name) && name != DOT && name != DOTDOT
      modifies this, cache
      ensures Valid() && OnlyChanged(old(tree), tree, dir, name) && tree.Keys == old(tree).Keys && gone == old(gone)
      ensures cache[..] == Invalidated(old(cache[..]), dir, name)
      ensures tree == old(tree) || (Truth(old(tree), dir, name) != Absent && Truth(tree, dir, name) == Absent)
      ensures r.Ok? ==> Truth(old(tree), dir, name) != Absent && Truth(tree, dir, name) == Absent
      ensures r == Err(NoEntry) ==> Truth(old(tree), dir, name) == Absent
      ensures bad == {} && stamped ==> (r.Ok? <==> Truth(old(tree), dir, name) != Absent)
    {
      hide Agrees, TreeSound, Housed, Truth, Idx, Ask, Invalidated, Whole, Orderly, OnlyChanged, Alike, TakenIn, IsName, Silent;
      ghost var before := tree;
      InvalidatedSlots(cache[..], dir, name);
      CacheInv(dir, name);
      OrderOf(tree, bs, dir);
      TruthIn(tree, dir, name);
      var d, taken := TakeFrom(tree[dir], name, bad, bs);
      if taken.Err? {
        Unchanged(tree, dir, name);
        r := Err(taken.error);
      } else {
        TakenOrderly(tree[dir], d, dir, bs, taken.value, name);
        TreeUpdate(tree, bs, dir, d);
        ChangedAt(tree, dir, d, name);
        tree := tree[dir := d];
        r := if stamped then Ok(()) else Err(IoError);
      }
      SilentAgrees(old(cache[..]), cache[..], before, tree, dir, name);
    }

    /** set_dotdot (kernel/src/ext2.rs:1074-1085); `unread` says that the block could not be read. */
    method SetDotdot(dir: nat, parent: nat, unread: bool) returns (r: Result<(), Error>)
      requires Valid() && dir in tree && 0 < parent < 0x1_0000_0000
      modifies this, cache
      ensures Valid() && OnlyChanged(old(tree), tree, dir, DOTDOT) && tree.Keys == old(tree).Keys && gone == old(gone)
      ensures cache[..] == Put(old(cache[..]), dir, DOTDOT, parent, FT_DIR)
      ensures r.Ok? <==> !unread
      ensures if r.Ok? then Truth(tree, dir, DOTDOT) == Found(parent, FT_DIR) else tree == old(tree)
    {
      hide Agrees, TreeSound, Housed, Truth, Idx, Ask, Put, Whole, Orderly, OnlyChanged, Alike;
      PutAgrees(cache[..], tree, dir, DOTDOT, parent, FT_DIR);
      PutSlots(cache[..], dir, DOTDOT, parent, FT_DIR);
      CachePut(dir, DOTDOT, parent, FT_DIR);
      Unchanged(tree, dir, DOTDOT);
      if unread { return Err(IoError); }
      ghost var before := tree;
      OrderOf(tree, bs, dir);
      var d := Redirect(tree[dir], dir, parent, bs);
      TreeUpdate(tree, bs, dir, d);
      ChangedAt(tree, dir, d, DOTDOT);
      tree := tree[dir := d];
      SilentAgrees(cache[..], cache[..], before, tree, dir, DOTDOT);
      return Ok(());
    }

    /** The new directory of mkdir, before its parent names it (kernel/src/ext2.rs:1288-1300). The number may be one
        that a removed directory had: what the cache still says about it is right, except for "..". */
    method MakeDir(dir: nat, parent: nat, raw: Block)
      requires Valid() && dir !in tree && 0 < dir < 0x1_0000_0000 && 0 < parent < 0x1_0000_0000 && |raw| == bs
      modifies this
      ensures Valid() && OnlyChanged(old(tree), tree, dir, DOTDOT) && tree.Keys == old(tree).Keys + {dir}
      ensures Truth(tree, dir, DOTDOT) == Found(parent, FT_DIR) && gone == old(gone) - {dir}
    {
      hide Agrees, TreeSound, Housed, Truth, Idx, Ask, Orderly, OnlyChanged, FreshBlock;
      ghost var before := tree;
      FreshOrderly(raw, dir, parent);
      tree := tree[dir := [Data(FreshBlock(raw, dir, parent))]];
      gone := gone - {dir};
      TreeUpdate(before, bs, dir, tree[dir]);
      FreshChanged(before, dir, tree[dir], parent);
      SilentAgrees(cache[..], cache[..], before, tree, dir, DOTDOT);
    }

    /** A number taken for a new file is no removed directory's any more. */
    method TakeNumber(ino: nat)
      requires Valid() && ino !in tree
      modifies this`gone
      ensures Valid() && gone == old(gone) - {ino}
    {
      gone := gone - {ino};
    }

    /** rmdir's check (kernel/src/ext2.rs:1387): no name but "." and ".." is found. */
    method CheckEmpty(dir: nat, bad: set<nat>) returns (r: Result<bool, Error>)
      requires Valid() && dir in tree
      ensures r.Err? ==> bad != {}
      ensures r.Ok? ==> (r.value <==> Empty(tree[dir]))
    {
      OrderOf(tree, bs, dir);
      r := IsEmpty(tree[dir], bad, bs);
    }

    /** The release of an empty directory (kernel/src/ext2.rs:1389): the cache is left alone. */
    method DropDir(dir: nat)
      requires Valid() && dir in tree && Empty(tree[dir])
      modifies this
      ensures Valid() && OnlyChanged(old(tree), tree, dir, DOTDOT)
      ensures tree == old(tree) - {dir} && gone == old(gone) + {dir}
    {
      hide Agrees, TreeSound, Housed, Truth, Idx, Ask, Orderly, OnlyChanged, Empty, Whole;
      ghost var before := tree;
      tree := tree - {dir};
      gone := gone + {dir};
      GoneChanged(before, bs, dir);
      SilentAgrees(cache[..], cache[..], before, tree, dir, DOTDOT);
    }
  }
}
