/** The operations on the directory tree, once their paths have been resolved to a directory and a name
    (kernel/src/ext2.rs:1209-1444), over the directory blocks and the name cache: what the tree says is what a full
    scan of the directories answers. */
module Namespaces {
  import opened Basics
  import opened NamespaceTrees
  import opened DirBlocks
  import opened DirListings
  import opened NameCache
  import opened Climbs
  import D = Directories
  import B = BlockTree

  const EPERM: nat := 1
  const ENOENT: nat := 2
  const EEXIST: nat := 17
  const EISDIR: nat := 21
  const EINVAL: nat := 22
  const EMLINK: nat := 31
  const ENOTEMPTY: nat := 39
  const MAX_LINKS: nat := 65535
  const FT_REG: byte := 1

  /** A name that an operation may give or take (parent_of, kernel/src/ext2.rs:1222-1235). */
  predicate Proper(n: Name)
  {
    IsName(n) && n != DOT && n != DOTDOT
  }

  predicate IsNumber(i: Ino)
  {
    0 < i < 0x1_0000_0000
  }

  // ---------------------------------------------------------------- the tree and the directories

  /** The answer is what the entry names, with the type recorded for it, or there is neither. */
  predicate Says(a: Answer, entries: map<Key, Ino>, types: map<Key, byte>, k: Key)
  {
    if k in entries then k in types && a == Found(entries[k], types[k]) else a == Absent
  }

  ghost predicate SaysAll(dirs: Dirs, entries: map<Key, Ino>, types: map<Key, byte>)
  {
    forall d: Ino, n: Name :: d in dirs && Proper(n) ==> Says(Truth(dirs, d, n), entries, types, Key(d, n))
  }

  /** An entry that names a directory says so, and no other entry does. */
  ghost predicate Typed(t: Tree, types: map<Key, byte>)
  {
    types.Keys == t.entries.Keys && forall k :: k in t.entries ==> (types[k] == FT_DIR <==> IsDir(t, t.entries[k]))
  }

  ghost predicate ParentsSaid(dirs: Dirs, up: map<Ino, Ino>)
  {
    forall d :: d in dirs ==> d in up && Truth(dirs, d, DOTDOT) == Found(up[d], FT_DIR)
  }

  /** A full scan of the directories answers what the tree says. */
  ghost predicate Mirrors(dirs: Dirs, t: Tree, types: map<Key, byte>)
  {
    && (forall d :: d in dirs <==> IsDir(t, d))
    && SaysAll(dirs, t.entries, types) && ParentsSaid(dirs, t.up) && Typed(t, types)
    && (forall k :: k in t.entries ==> k.dir in dirs && Proper(k.name))
    && (forall i :: i in t.kinds ==> IsNumber(i))
  }

  /** A name came in. */
  lemma NameAdded(before: Dirs, after: Dirs, t: Tree, types: map<Key, byte>, k: Key, i: Ino, ft: byte)
    requires Mirrors(before, t, types) && OnlyChanged(before, after, k.dir, k.name) && after.Keys == before.Keys
    requires k.dir in before && Proper(k.name) && Truth(after, k.dir, k.name) == Found(i, ft) && (ft == FT_DIR <==> IsDir(t, i))
    ensures Mirrors(after, t.(entries := t.entries[k := i]), types[k := ft])
  {
    hide Truth, IsName;
    forall d: Ino, n: Name | d in after && Proper(n) ensures Says(Truth(after, d, n), t.entries[k := i], types[k := ft], Key(d, n)) {
      assert Says(Truth(before, d, n), t.entries, types, Key(d, n));
    }
    assert ParentsSaid(after, t.up);
  }

  /** A name went. */
  lemma NameRemoved(before: Dirs, after: Dirs, t: Tree, types: map<Key, byte>, k: Key)
    requires Mirrors(before, t, types) && OnlyChanged(before, after, k.dir, k.name) && after.Keys == before.Keys
    requires Truth(after, k.dir, k.name) == Absent && Proper(k.name)
    ensures Mirrors(after, t.(entries := t.entries - {k}), types - {k})
  {
    hide Truth, IsName;
    forall d: Ino, n: Name | d in after && Proper(n) ensures Says(Truth(after, d, n), t.entries - {k}, types - {k}, Key(d, n)) {
      assert Says(Truth(before, d, n), t.entries, types, Key(d, n));
    }
    assert ParentsSaid(after, t.up);
  }

  /** A directory records another parent. */
  lemma ParentSet(before: Dirs, after: Dirs, t: Tree, types: map<Key, byte>, d: Ino, p: Ino)
    requires Mirrors(before, t, types) && OnlyChanged(before, after, d, DOTDOT) && after.Keys == before.Keys
    requires Truth(after, d, DOTDOT) == Found(p, FT_DIR)
    ensures Mirrors(after, t.(up := t.up[d := p]), types)
  {
    hide Truth, IsName;
    forall e: Ino, n: Name | e in after && Proper(n) ensures Says(Truth(after, e, n), t.entries, types, Key(e, n)) {
      assert Says(Truth(before, e, n), t.entries, types, Key(e, n));
    }
  }

  /** No entry names the inode. */
  ghost predicate Nameless(t: Tree, i: Ino)
  {
    forall k :: k in t.entries ==> t.entries[k] != i
  }

  lemma UnusedNameless(t: Tree, i: Ino)
    requires TreeOk(t) && i !in t.kinds
    ensures Nameless(t, i)
  {
    hide TreeOk;
    forall k | k in t.entries ensures t.entries[k] != i { EntryAt(t, k); }
  }

  /** Once the only entry of a directory is gone, nothing names it. */
  lemma DirNameless(t: Tree, k: Key)
    requires TreeOk(t) && k in t.entries && IsDir(t, t.entries[k])
    ensures Nameless(t.(entries := t.entries - {k}), t.entries[k])
  {
    hide TreeOk;
    forall j | j in t.entries && t.entries[j] == t.entries[k] ensures j == k { OnlyName(t, k, j); }
  }

  /** A new directory, which nothing names yet. */
  lemma DirBorn(before: Dirs, after: Dirs, t: Tree, types: map<Key, byte>, i: Ino, p: Ino)
    requires Mirrors(before, t, types) && OnlyChanged(before, after, i, DOTDOT) && after.Keys == before.Keys + {i}
    requires i !in before && IsNumber(i) && Truth(after, i, DOTDOT) == Found(p, FT_DIR) && Nameless(t, i)
    ensures Mirrors(after, t.(kinds := t.kinds[i := Directory], up := t.up[i := p]), types)
  {
    hide IsName, Ask;
    forall d: Ino, n: Name | d in after && Proper(n) ensures Says(Truth(after, d, n), t.entries, types, Key(d, n)) {
      if d in before { assert Says(Truth(before, d, n), t.entries, types, Key(d, n)); }
    }
  }

  /** An empty directory is gone. */
  lemma DirGone(before: Dirs, t: Tree, types: map<Key, byte>, i: Ino)
    requires Mirrors(before, t, types) && OnlyChanged(before, before - {i}, i, DOTDOT)
    requires Vacant(t, i) && Nameless(t, i)
    ensures Mirrors(before - {i}, t.(kinds := t.kinds - {i}, up := t.up - {i}), types)
  {
    hide Truth, IsName;
    forall d: Ino, n: Name | d in before - {i} && Proper(n) ensures Says(Truth(before - {i}, d, n), t.entries, types, Key(d, n)) {
      assert Says(Truth(before, d, n), t.entries, types, Key(d, n));
    }
  }

  /** Link counts leave no trace in any directory. */
  lemma LinksOnly(dirs: Dirs, t: Tree, types: map<Key, byte>, links: map<Ino, nat>)
    requires Mirrors(dirs, t, types)
    ensures Mirrors(dirs, t.(links := links), types)
  {
  }

  /** Nor do files that come or go without a name. */
  lemma FileBorn(dirs: Dirs, t: Tree, types: map<Key, byte>, i: Ino, links: map<Ino, nat>)
    requires Mirrors(dirs, t, types) && i !in t.kinds && IsNumber(i)
    ensures Mirrors(dirs, t.(kinds := t.kinds[i := File], links := links), types) && i !in dirs
  {
    hide SaysAll, ParentsSaid, IsName;
    var u := t.(kinds := t.kinds[i := File], links := links);
    forall d ensures d in dirs <==> IsDir(u, d) { assert d in dirs <==> IsDir(t, d); }
  }

  lemma FileGone(dirs: Dirs, t: Tree, types: map<Key, byte>, i: Ino, links: map<Ino, nat>)
    requires Mirrors(dirs, t, types) && !IsDir(t, i)
    ensures Mirrors(dirs, t.(kinds := t.kinds - {i}, links := links), types)
  {
    hide SaysAll, ParentsSaid, IsName;
    var u := t.(kinds := t.kinds - {i}, links := links);
    forall d ensures d in dirs <==> IsDir(u, d) { assert d in dirs <==> IsDir(t, d); }
  }

  /** What the operations use: the directories are those of the tree, and numbers are in range. */
  lemma MirrorDirs(dirs: Dirs, t: Tree, types: map<Key, byte>, d: Ino)
    requires Mirrors(dirs, t, types)
    ensures d in dirs <==> IsDir(t, d)
    ensures d in t.kinds ==> IsNumber(d)
  {
  }

  lemma MirrorProper(dirs: Dirs, t: Tree, types: map<Key, byte>, k: Key)
    requires Mirrors(dirs, t, types) && k in t.entries
    ensures k.dir in dirs && Proper(k.name)
  {
  }

  /** A directory is empty exactly when no entry is in it. */
  lemma EmptyVacant(dirs: Dirs, t: Tree, types: map<Key, byte>, bs: nat, d: Ino)
    requires Mirrors(dirs, t, types) && d in dirs && Whole(dirs[d], bs)
    ensures Empty(dirs[d]) <==> Vacant(t, d)
  {
    hide IsName, Ask, Whole;
    if Empty(dirs[d]) {
      forall k | k in t.entries ensures k.dir != d {
        assert d in dirs && Proper(k.name) ==> Says(Truth(dirs, d, k.name), t.entries, types, Key(d, k.name));
      }
    }
    if Vacant(t, d) {
      forall n: Name | n != DOT && n != DOTDOT ensures Ask(dirs[d], n) == Absent {
        if Proper(n) {
          assert Says(Truth(dirs, d, n), t.entries, types, Key(d, n));
        } else {
          AskProper(dirs[d], bs, n);
        }
      }
    }
  }

  /** The parents that ".." records, in a tree. */
  lemma MirrorRecords(dirs: Dirs, t: Tree, types: map<Key, byte>)
    requires Mirrors(dirs, t, types) && TreeOk(t)
    ensures Records(dirs, t.up)
  {
    hide TreeOk, SaysAll, Ask;
    forall d | d in dirs ensures d in t.up && t.up[d] in dirs && Ask(dirs[d], DOTDOT) == Found(t.up[d], FT_DIR) && t.up[d] != 0 {
      DirAt(t, d);
      assert Truth(dirs, d, DOTDOT) == Found(t.up[d], FT_DIR);
    }
  }

  // ---------------------------------------------------------------- why a rename is refused

  /** A directory would move below itself. */
  ghost predicate IntoItself(t: Tree, s: Key, d: Key)
  {
    s in t.entries && IsDir(t, t.entries[s]) && s.dir != d.dir && Above(t.up, t.entries[s], d.dir)
  }

  /** The directory moves to another one, so its new ancestors are looked at. */
  predicate Climbed(t: Tree, s: Key, d: Key)
  {
    s in t.entries && IsDir(t, t.entries[s]) && s.dir != d.dir
  }

  /** What the climb of a rename will find: it starts once the old name has been looked up. */
  function Foreseen(slots: seq<Dentry>, dirs: Dirs, gone: set<nat>, t: Tree, s: Key, d: Key): Verdict
    requires |slots| == DCACHE_SLOTS
  {
    if Climbed(t, s, d) then Climb(Looked(slots, dirs, gone, s.dir, s.name).1, dirs, gone, t.entries[s], d.dir, CLIMB_MAX).0 else Clear
  }

  /** Both names are of one inode. */
  predicate SameInode(t: Tree, s: Key, d: Key)
  {
    s in t.entries && d in t.entries && t.entries[d] == t.entries[s]
  }

  /** Why a rename is refused, if it is, when the climb finds `v`. */
  ghost function Refusal(t: Tree, v: Verdict, s: Key, d: Key): Option<nat>
  {
    if s !in t.entries then Some(ENOENT)
    else if v == Meets then Some(EINVAL)
    else if v.Broken? then Some(v.error)
    else if d !in t.entries || SameInode(t, s, d) then None
    else if !IsDir(t, t.entries[d]) then (if IsDir(t, t.entries[s]) then Some(ENOTDIR) else None)
    else if !IsDir(t, t.entries[s]) then Some(EISDIR)
    else if !Vacant(t, t.entries[d]) then Some(ENOTEMPTY)
    else None
  }

  /** When each error is given, the climb having found nothing: nothing under the old name; a directory over a file; a
      file over a directory; a directory over one that is not empty. */
  lemma RefusalMeans(t: Tree, s: Key, d: Key)
    ensures var why, over := Refusal(t, Clear, s, d), s in t.entries && d in t.entries && t.entries[s] != t.entries[d];
            && (why == Some(2) <==> s !in t.entries)
            && (why == Some(20) <==> over && IsDir(t, t.entries[s]) && !IsDir(t, t.entries[d]))
            && (why == Some(21) <==> over && !IsDir(t, t.entries[s]) && IsDir(t, t.entries[d]))
            && (why == Some(39) <==> over && IsDir(t, t.entries[s]) && IsDir(t, t.entries[d]) && !Vacant(t, t.entries[d]))
            && (why.Some? ==> why.value in {2, 20, 21, 39})
  {
    hide Vacant;
  }

  class Namespace {
    /** The directories' blocks and the name cache. */
    const vol: D.Volume
    var kinds: map<Ino, Kind>
    var links: map<Ino, nat>
    /** What the directories hold, told by `Mirrors`. */
    ghost var entries: map<Key, Ino>
    ghost var up: map<Ino, Ino>
    /** What type each entry is recorded with. */
    ghost var types: map<Key, byte>

    ghost function View(): Tree
      reads this
    {
      Tree(kinds, links, entries, up)
    }

    /** Directories, cache and inodes agree with the tree, be it one or not. */
    ghost predicate Kept()
      reads this, vol, vol.cache
    {
      vol.Valid() && Mirrors(vol.tree, View(), types) && vol.gone !! kinds.Keys
    }

    ghost predicate Valid()
      reads this, vol, vol.cache
    {
      Kept() && TreeOk(View())
    }

    /** A new volume: a root without entries. */
    constructor (bs: nat, raw: B.Block)
      requires Need(MAX_NAME) <= bs < 0x1_0000 && |raw| == bs
      ensures fresh(vol) && fresh(vol.cache) && vol.bs == bs && vol.gone == {}
      ensures forall i :: 0 <= i < vol.cache.Length ==> !vol.cache[i].valid
      ensures View() == Tree(map[ROOT := Directory], map[ROOT := 2], map[], map[ROOT := ROOT]) && types == map[]
      ensures Valid()
    {
      var dirs: Dirs := map[ROOT := [Data(FreshBlock(raw, ROOT, ROOT))]];
      FreshOrderly(raw, ROOT, ROOT);
      RootMirrors(dirs, Tree(map[ROOT := Directory], map[ROOT := 2], map[], map[ROOT := ROOT]), map[]);
      vol := new D.Volume(bs, dirs);
      kinds, links, entries, up, types := map[ROOT := Directory], map[ROOT := 2], map[], map[ROOT := ROOT], map[];
      new;
      assert UpN(up, ROOT, 0) == ROOT;
    }

    /** lookup, as resolving a path does it: a name, or "..", which may come from the cache. */
    method Lookup(dir: Ino, name: Name) returns (r: Result<Answer, Error>)
      requires Valid() && IsDir(View(), dir) && (Proper(name) || name == DOTDOT)
      modifies vol.cache
      ensures Valid() && (r, vol.cache[..]) == Looked(old(vol.cache[..]), vol.tree, vol.gone, dir, name)
      ensures Proper(name) ==> r.Ok? && Says(r.value, entries, types, Key(dir, name))
    {
      hide Mirrors, TreeOk, SaysAll, Looked, D.TreeSound, Housed, Agrees, IsName;
      MirrorDirs(vol.tree, View(), types, dir);
      r := vol.Lookup(dir, name, {});
      if Proper(name) { MirrorAnswers(vol.tree, View(), types, dir, name); }
    }

    /** create, symlink and the sockets of bind: a new file, of a type that is not a directory's. `block` is there if
        the directory needs one more. */
    method Create(dir: Ino, name: Name, ino: Ino, ftype: byte, block: B.Block) returns (r: Result<Ino, nat>)
      requires Valid() && IsDir(View(), dir) && Proper(name) && ino !in kinds && IsNumber(ino) && |block| == vol.bs
      requires ftype != FT_DIR
      modifies this, vol, vol.cache
      ensures Valid()
      ensures var k := Key(dir, name);
              if k in old(entries) then r == Err(EEXIST) && View() == old(View()) && types == old(types)
              else r == Ok(ino) && View() == FileLinked(old(View()), k, ino) && types == old(types)[k := ftype]
    {
      hide Mirrors, TreeOk, SaysAll, Looked, D.TreeSound, Housed, Agrees, IsName;
      var k := Key(dir, name);
      var found := Lookup(dir, name);
      if found.value.Found? { return Err(EEXIST); }
      RootIsDir(View());
      FileLinkedOk(View(), k, ino);
      ghost var t := View();
      MirrorDirs(vol.tree, t, types, dir);
      kinds, links := kinds[ino := File], links[ino := 1];
      FileBorn(vol.tree, t, types, ino, links);
      vol.TakeNumber(ino);
      AddName(dir, name, ino, ftype, block);
      r := Ok(ino);
    }

    /** dir_add, for a name that is free. */
    method AddName(dir: Ino, name: Name, ino: Ino, ftype: byte, block: B.Block)
      requires Kept() && dir in vol.tree && Proper(name) && Key(dir, name) !in entries && IsNumber(ino) && |block| == vol.bs
      requires ftype == FT_DIR <==> IsDir(View(), ino)
      modifies this`entries, this`types, vol, vol.cache
      ensures Kept() && entries == old(entries)[Key(dir, name) := ino] && types == old(types)[Key(dir, name) := ftype]
      ensures vol.tree.Keys == old(vol.tree).Keys && vol.gone == old(vol.gone)
      ensures vol.cache[..] == Put(old(vol.cache[..]), dir, name, ino, ftype)
    {
      hide Mirrors, Says, SaysAll, OnlyChanged, Truth, Put, HasRoom, Agrees, D.TreeSound, Housed, IsName;
      MirrorAnswers(vol.tree, View(), types, dir, name);
      SaysNothing(Truth(vol.tree, dir, name), entries, types, Key(dir, name));
      ghost var before, t := vol.tree, View();
      var done := vol.DirAdd(dir, name, ino, ftype, {}, Ok(block), true);
      NameAdded(before, vol.tree, t, types, Key(dir, name), ino, ftype);
      entries, types := entries[Key(dir, name) := ino], types[Key(dir, name) := ftype];
    }

    /** dir_remove, for a name that is there. */
    method RemoveName(dir: Ino, name: Name)
      requires Kept() && dir in vol.tree && Proper(name) && Key(dir, name) in entries
      modifies this`entries, this`types, vol, vol.cache
      ensures Kept() && entries == old(entries) - {Key(dir, name)} && types == old(types) - {Key(dir, name)}
      ensures vol.tree.Keys == old(vol.tree).Keys && vol.gone == old(vol.gone)
      ensures vol.cache[..] == Invalidated(old(vol.cache[..]), dir, name)
    {
      hide Mirrors, SaysAll, OnlyChanged, Truth, Invalidated, Agrees, D.TreeSound, Housed, IsName;
      MirrorAnswers(vol.tree, View(), types, dir, name);
      ghost var before, t := vol.tree, View();
      var done := vol.DirRemove(dir, name, {}, true);
      NameRemoved(before, vol.tree, t, types, Key(dir, name));
      entries, types := entries - {Key(dir, name)}, types - {Key(dir, name)};
    }

    method Mkdir(dir: Ino, name: Name, ino: Ino, raw: B.Block, block: B.Block) returns (r: Result<Ino, nat>)
      requires Valid() && IsDir(View(), dir) && Proper(name) && ino !in kinds && IsNumber(ino) && |raw| == |block| == vol.bs
      modifies this, vol, vol.cache
      ensures Valid()
      ensures var k := Key(dir, name);
              if k in old(entries) then r == Err(EEXIST) && View() == old(View()) && types == old(types)
              else r == Ok(ino) && View() == DirMade(old(View()), k, ino) && types == old(types)[k := FT_DIR]
      ensures r.Ok? ==> vol.cache[..] ==
                        Put(Looked(old(vol.cache[..]), old(vol.tree), old(vol.gone), dir, name).1, dir, name, ino, FT_DIR)
    {
      hide Mirrors, TreeOk, SaysAll, Looked, Put, Truth, OnlyChanged, Agrees, D.TreeSound, Housed, IsName;
      var k := Key(dir, name);
      var found := Lookup(dir, name);
      if found.value.Found? { return Err(EEXIST); }
      DirMadeOk(View(), k, ino);
      DirAt(View(), dir);
      MirrorDirs(vol.tree, View(), types, dir);
      UnusedNameless(View(), ino);
      NewDir(ino, dir, raw);
      AddName(dir, name, ino, FT_DIR, block);
      ghost var u := View();
      links := links[dir := links[dir] + 1];
      LinksOnly(vol.tree, u, types, links);
      r := Ok(ino);
    }

    /** The new inode and its block, before anything names it. */
    method NewDir(ino: Ino, parent: Ino, raw: B.Block)
      requires Kept() && ino !in kinds && Nameless(View(), ino) && IsNumber(ino) && IsNumber(parent) && |raw| == vol.bs
      modifies this`kinds, this`links, this`up, vol
      ensures Kept() && kinds == old(kinds)[ino := Directory] && links == old(links)[ino := 2] && up == old(up)[ino := parent]
      ensures vol.tree.Keys == old(vol.tree).Keys + {ino}
    {
      hide Mirrors, TreeOk, SaysAll, Truth, OnlyChanged, Agrees, D.TreeSound, Housed, IsName;
      ghost var t, before := View(), vol.tree;
      MirrorDirs(before, t, types, ino);
      vol.MakeDir(ino, parent, raw);
      DirBorn(before, vol.tree, t, types, ino, parent);
      kinds, up := kinds[ino := Directory], up[ino := parent];
      ghost var u := View();
      links := links[ino := 2];
      LinksOnly(vol.tree, u, types, links);
    }

    method Rmdir(dir: Ino, name: Name) returns (r: Result<Ino, nat>)
      requires Valid() && IsDir(View(), dir) && Proper(name)
      modifies this, vol, vol.cache
      ensures Valid()
      ensures r.Err? ==> View() == old(View()) && types == old(types)
      ensures var k := Key(dir, name);
              if k !in old(entries) then r == Err(ENOENT)
              else if !IsDir(old(View()), old(entries)[k]) then r == Err(ENOTDIR)
              else if !Vacant(old(View()), old(entries)[k]) then r == Err(ENOTEMPTY)
              else r == Ok(old(entries)[k]) && View() == DirRemoved(old(View()), k) && types == old(types) - {k}
      ensures r.Ok? ==> vol.cache[..] ==
                        Invalidated(Looked(old(vol.cache[..]), old(vol.tree), old(vol.gone), dir, name).1, dir, name)
    {
      hide Mirrors, TreeOk, Vacant, SaysAll, Looked, Invalidated, D.TreeSound, Housed, Agrees, IsName;
      var k := Key(dir, name);
      var found := Lookup(dir, name);
      if found.value.Absent? { return Err(ENOENT); }
      var ino := found.value.ino;
      EntryAt(View(), k);
      if kinds[ino] != Directory { return Err(ENOTDIR); }
      var empty := IsVacant(ino);
      if !empty { return Err(ENOTEMPTY); }
      TakeDir(k, ino);
      r := Ok(ino);
    }

    /** dir_is_empty */
    method IsVacant(d: Ino) returns (empty: bool)
      requires Valid() && IsDir(View(), d)
      ensures empty <==> Vacant(View(), d)
    {
      hide Mirrors, TreeOk, SaysAll, Vacant, Empty, Orderly, D.TreeSound, Housed, Agrees, IsName;
      MirrorDirs(vol.tree, View(), types, d);
      var r := vol.CheckEmpty(d, {});
      D.OrderOf(vol.tree, vol.bs, d);
      EmptyVacant(vol.tree, View(), types, vol.bs, d);
      empty := r.value;
    }

    /** dir_remove, release_inode and the parent's link count, for an empty directory. */
    method TakeDir(k: Key, ino: Ino)
      requires Valid() && k in entries && entries[k] == ino && IsDir(View(), ino) && Vacant(View(), ino)
      modifies this, vol, vol.cache
      ensures Valid() && View() == DirRemoved(old(View()), k) && types == old(types) - {k}
      ensures vol.tree.Keys == old(vol.tree).Keys - {ino} && vol.cache[..] == Invalidated(old(vol.cache[..]), k.dir, k.name)
    {
      hide Mirrors, TreeOk, SaysAll, Invalidated, OnlyChanged, Empty, Orderly, Agrees, D.TreeSound, Housed, IsName;
      ghost var t := View();
      DirRemovedOk(t, k);
      NotItsOwnParent(t, k);
      EntryAt(t, k);
      DirAt(t, k.dir);
      MirrorProper(vol.tree, t, types, k);
      DirNameless(t, k);
      RemoveName(k.dir, k.name);
      FreeDir(ino);
      ghost var w := View();
      links := links[k.dir := OneLess(links[k.dir])];
      LinksOnly(vol.tree, w, types, links);
    }

    /** release_inode, for an empty directory without a name. */
    method FreeDir(ino: Ino)
      requires Kept() && IsDir(View(), ino) && Vacant(View(), ino) && Nameless(View(), ino)
      modifies this`kinds, this`links, this`up, vol
      ensures Kept() && kinds == old(kinds) - {ino} && links == old(links) - {ino} && up == old(up) - {ino}
      ensures vol.tree.Keys == old(vol.tree).Keys - {ino}
    {
      hide Mirrors, TreeOk, SaysAll, Truth, OnlyChanged, Empty, Orderly, Agrees, D.TreeSound, Housed, IsName;
      ghost var t, before := View(), vol.tree;
      MirrorDirs(before, t, types, ino);
      D.OrderOf(before, vol.bs, ino);
      EmptyVacant(before, t, types, vol.bs, ino);
      vol.DropDir(ino);
      DirGone(before, t, types, ino);
      kinds, up := kinds - {ino}, up - {ino};
      ghost var u := View();
      links := links - {ino};
      LinksOnly(vol.tree, u, types, links);
    }

    /** link: one more name for a file. */
    method Link(ino: Ino, dir: Ino, name: Name, ftype: byte, block: B.Block) returns (r: Result<nat, nat>)
      requires Valid() && IsDir(View(), dir) && Proper(name) && ino in kinds && |block| == vol.bs && ftype != FT_DIR
      modifies this, vol, vol.cache
      ensures Valid()
      ensures r.Err? ==> View() == old(View()) && types == old(types)
      ensures if IsDir(old(View()), ino) then r == Err(EPERM)
              else if Key(dir, name) in old(entries) then r == Err(EEXIST)
              else if Links(old(View()), ino) >= MAX_LINKS then r == Err(EMLINK)
              else r.Ok? && View() == FileLinked(old(View()), Key(dir, name), ino) && types == old(types)[Key(dir, name) := ftype]
    {
      hide Mirrors, TreeOk, SaysAll, Looked, Put, D.TreeSound, Housed, Agrees, IsName;
      if kinds[ino] == Directory { return Err(EPERM); }
      var k := Key(dir, name);
      var found := Lookup(dir, name);
      if found.value.Found? { return Err(EEXIST); }
      InodeAt(View(), ino);
      if links[ino] >= MAX_LINKS { return Err(EMLINK); }
      RootIsDir(View());
      FileLinkedOk(View(), k, ino);
      ghost var t := View();
      assert kinds[ino := File] == kinds;
      MirrorDirs(vol.tree, t, types, dir);
      MirrorDirs(vol.tree, t, types, ino);
      links := links[ino := links[ino] + 1];
      LinksOnly(vol.tree, t, types, links);
      AddName(dir, name, ino, ftype, block);
      r := Ok(0);
    }

    /** unlink: the inode of an open file stays without links. */
    method Unlink(dir: Ino, name: Name, open: bool) returns (r: Result<Ino, nat>)
      requires Valid() && IsDir(View(), dir) && Proper(name)
      modifies this, vol, vol.cache
      ensures Valid()
      ensures r.Err? ==> View() == old(View()) && types == old(types)
      ensures var k := Key(dir, name);
              if k !in old(entries) then r == Err(ENOENT)
              else if IsDir(old(View()), old(entries)[k]) then r == Err(EISDIR)
              else r == Ok(old(entries)[k]) && View() == FileUnlinked(old(View()), k, open) && types == old(types) - {k}
    {
      hide Mirrors, TreeOk, SaysAll, Looked, D.TreeSound, Housed, Agrees, IsName;
      var k := Key(dir, name);
      var found := Lookup(dir, name);
      if found.value.Absent? { return Err(ENOENT); }
      var ino := found.value.ino;
      EntryAt(View(), k);
      if kinds[ino] == Directory { return Err(EISDIR); }
      TakeFile(k, ino, open);
      r := Ok(ino);
    }

    /** dir_remove and drop_link. */
    method TakeFile(k: Key, ino: Ino, open: bool)
      requires Valid() && k in entries && entries[k] == ino && ino in kinds && !IsDir(View(), ino)
      modifies this, vol, vol.cache
      ensures Valid() && View() == FileUnlinked(old(View()), k, open) && types == old(types) - {k} && vol.tree.Keys == old(vol.tree).Keys
    {
      hide Mirrors, TreeOk, SaysAll, Naming, Subdirs, Rooted, Invalidated, D.TreeSound, Housed, Agrees, IsName;
      ghost var t := View();
      FileUnlinkedOk(t, k, open);
      InodeAt(t, ino);
      MirrorProper(vol.tree, t, types, k);
      RemoveName(k.dir, k.name);
      ghost var u := View();
      var n := OneLess(links[ino]);
      if n == 0 && !open {
        kinds, links := kinds - {ino}, links - {ino};
        FileGone(vol.tree, u, types, ino, links);
      } else {
        links := links[ino := n];
        LinksOnly(vol.tree, u, types, links);
      }
    }

    /** is_ancestor: climbs 256 steps at most, each by a lookup of "..". */
    method IsAncestor(a: Ino, d: Ino) returns (v: Verdict)
      requires Kept() && IsDir(View(), d)
      modifies vol.cache
      ensures Kept() && (v, vol.cache[..]) == Climb(old(vol.cache[..]), vol.tree, vol.gone, a, d, CLIMB_MAX)
    {
      hide SaysAll, Looked, Mirrors, D.TreeSound, Housed, Agrees, IsName;
      var b := d;
      for n := 0 to CLIMB_MAX
        invariant Kept()
        invariant Climb(old(vol.cache[..]), vol.tree, vol.gone, a, d, CLIMB_MAX) ==
                  Climb(vol.cache[..], vol.tree, vol.gone, a, b, CLIMB_MAX - n)
      {
        if a == b { return Meets; }
        if b == ROOT { return Clear; }
        var r := vol.Lookup(b, DOTDOT, {});
        match r {
          case Err(_) => return Broken(ENOTDIR);
          case Ok(Absent) => return Broken(EIO);
          case Ok(Found(p, _)) => b := p;
        }
      }
      v := Clear;
    }

    /** rename. An existing file, or an empty directory, at the new name gives way; two names of one file are left
        alone. It is refused for what the climb finds, which need not be what is there; the tree stays a tree
        exactly unless that lets a directory move below itself. */
    method Rename(sdir: Ino, sname: Name, ddir: Ino, dname: Name, open: bool, block: B.Block) returns (r: Result<bool, nat>)
      requires Valid() && IsDir(View(), sdir) && IsDir(View(), ddir) && Proper(sname) && Proper(dname) && |block| == vol.bs
      modifies this, vol, vol.cache
      ensures Kept()
      ensures var t, s, d := old(View()), Key(sdir, sname), Key(ddir, dname);
              var why := Refusal(t, Foreseen(old(vol.cache[..]), old(vol.tree), old(vol.gone), t, s, d), s, d);
              && (if why == None then r.Ok? else r == Err(why.value))
              && (r.Err? ==> View() == t)
              && (r.Ok? ==> RenamedTo(t, View(), s, d, open))
              && (r == Ok(true) <==> why == None && !SameInode(t, s, d))
              && types == (if r == Ok(true) then old(types)[d := old(types)[s]] - {s} else old(types))
              && (TreeOk(View()) <==> !(why == None && IntoItself(t, s, d)))
      ensures r == Ok(true) ==> Truth(vol.tree, ddir, dname) == Truth(old(vol.tree), sdir, sname)
    {
      hide Mirrors, TreeOk, Vacant, Above, SaysAll, Looked, Climb, D.TreeSound, Housed, Agrees, IsName;
      var s, d := Key(sdir, sname), Key(ddir, dname);
      var first := Lookup(sdir, sname);
      if first.value.Absent? { return Err(ENOENT); }
      var ino := first.value.ino;
      EntryAt(View(), s);
      var moving := kinds[ino] == Directory;
      if moving && sdir != ddir {
        var v := IsAncestor(ino, ddir);
        if v == Meets { return Err(EINVAL); }
        if v.Broken? { return Err(v.error); }
      }
      ghost var was, t, had := vol.tree, View(), types;
      r := Replace(s, d, ino, first.value.ftype, moving, open, block);
      if r == Ok(true) { FoundAgain(was, vol.tree, t, View(), had, s, d, open); }
    }

    /** The rest of rename, once the climb has found nothing. */
    method Replace(s: Key, d: Key, ino: Ino, ftype: byte, moving: bool, open: bool, block: B.Block) returns (r: Result<bool, nat>)
      requires Valid() && IsDir(View(), s.dir) && IsDir(View(), d.dir) && Proper(d.name) && |block| == vol.bs
      requires s in entries && entries[s] == ino && (moving <==> IsDir(View(), ino)) && s in types && ftype == types[s]
      modifies this, vol, vol.cache
      ensures Kept()
      ensures var t := old(View()); var why := Refusal(t, Clear, s, d);
              && (if why == None then r.Ok? else r == Err(why.value))
              && (r.Err? ==> View() == t)
              && (r.Ok? ==> RenamedTo(t, View(), s, d, open))
              && (r == Ok(true) <==> why == None && !SameInode(t, s, d))
              && types == (if r == Ok(true) then old(types)[d := old(types)[s]] - {s} else old(types))
              && (TreeOk(View()) <==> !(why == None && IntoItself(t, s, d)))
    {
      hide Mirrors, TreeOk, Vacant, Above, SaysAll, Looked, D.TreeSound, Housed, Agrees, IsName;
      ghost var t := View();
      EntryAt(t, s);
      var second := Lookup(d.dir, d.name);
      if second.value.Found? {
        EntryAt(t, d);
        if second.value.ino == ino {
          SameNameAnywhere(t, s, d);
          return Ok(false);
        }
        var e := ClearName(s, d, second.value.ino, moving, open);
        if e.Err? { return Err(e.error); }
      }
      if second.value.Absent? { MirrorKeys(vol.tree, t, types); }
      assert types == old(types) - {d};
      assert View() == Cleared(t, d, open);
      ClearedKeeps(t, s, d, open);
      MirrorDirs(vol.tree, View(), types, d.dir);
      MoveEntry(s, d, ino, ftype, moving, block);
      RenameCompletes(t, View(), s, d, open);
      r := Ok(true);
    }

    /** What is at the new name gives way, if it may. */
    method ClearName(s: Key, d: Key, was: Ino, moving: bool, open: bool) returns (r: Result<bool, nat>)
      requires Valid() && s in entries && d in entries && entries[d] == was && was != entries[s] && was in kinds
      modifies this, vol, vol.cache
      ensures Valid()
      ensures r.Err? ==> View() == old(View()) && types == old(types) && r.error in {EISDIR, ENOTDIR, ENOTEMPTY}
      ensures r.Ok? ==> View() == Cleared(old(View()), d, open) && types == old(types) - {d}
      ensures r.Ok? ==> (IsDir(old(View()), was) <==> moving)
      ensures r.Ok? && IsDir(old(View()), was) ==> Vacant(old(View()), was)
      ensures r == Err(ENOTDIR) <==> !IsDir(old(View()), was) && moving
      ensures r == Err(EISDIR) <==> IsDir(old(View()), was) && !moving
      ensures r == Err(ENOTEMPTY) <==> IsDir(old(View()), was) && moving && !Vacant(old(View()), was)
    {
      hide Mirrors, TreeOk, Vacant, SaysAll, Invalidated, D.TreeSound, Housed, Agrees, IsName;
      if kinds[was] == Directory {
        if !moving { return Err(EISDIR); }
        var empty := IsVacant(was);
        if !empty { return Err(ENOTEMPTY); }
        TakeDir(d, was);
      } else {
        if moving { return Err(ENOTDIR); }
        TakeFile(d, was, open);
      }
      r := Ok(true);
    }

    /** dir_add, dir_remove, and for a directory that changes parents set_dotdot and both link counts. */
    method MoveEntry(s: Key, d: Key, i: Ino, ftype: byte, moving: bool, block: B.Block)
      requires Kept() && s in entries && d !in entries && entries[s] == i && i in kinds && s.dir in links && d.dir in links
      requires (moving <==> IsDir(View(), i)) && d.dir in vol.tree && Proper(d.name) && |block| == vol.bs
      requires s in types && ftype == types[s]
      modifies this, vol, vol.cache
      ensures Kept()
      ensures View() == if IsDir(old(View()), i) then DirMoved(old(View()), s, d) else Moved(old(View()), s, d)
      ensures types == old(types)[d := ftype] - {s}
    {
      hide Mirrors, SaysAll, Invalidated, Put, Truth, OnlyChanged, Agrees, D.TreeSound, Housed, IsName;
      MirrorProper(vol.tree, View(), types, s);
      MirrorDirs(vol.tree, View(), types, i);
      MirrorTypes(vol.tree, View(), types, s);
      AddName(d.dir, d.name, i, ftype, block);
      RemoveName(s.dir, s.name);
      if moving && s.dir != d.dir { SetParent(i, s.dir, d.dir); }
    }

    /** set_dotdot and the link counts of both parents. */
    method SetParent(i: Ino, from: Ino, to: Ino)
      requires Kept() && i in vol.tree && to in vol.tree && from in links && to in links && from != to
      modifies this`links, this`up, vol, vol.cache
      ensures Kept() && up == old(up)[i := to]
      ensures links == old(links)[from := OneLess(old(links)[from])][to := old(links)[to] + 1]
    {
      hide Mirrors, SaysAll, Put, Truth, OnlyChanged, Agrees, D.TreeSound, Housed, IsName;
      ghost var before, t := vol.tree, View();
      MirrorDirs(before, t, types, to);
      var done := vol.SetDotdot(i, to, false);
      ParentSet(before, vol.tree, t, types, i, to);
      up := up[i := to];
      ghost var u := View();
      links := links[from := OneLess(links[from])];
      links := links[to := links[to] + 1];
      LinksOnly(vol.tree, u, types, links);
    }
  }

  lemma RootMirrors(dirs: Dirs, t: Tree, types: map<Key, byte>)
    requires dirs.Keys == {ROOT} && t == Tree(map[ROOT := Directory], map[ROOT := 2], map[], map[ROOT := ROOT]) && types == map[]
    requires forall n: Name :: Ask(dirs[ROOT], n) ==
                               if n == DOT then Found(ROOT, FT_DIR) else if n == DOTDOT then Found(ROOT, FT_DIR) else Absent
    ensures Mirrors(dirs, t, types)
  {
    hide Ask;
  }

  lemma MirrorAnswers(dirs: Dirs, t: Tree, types: map<Key, byte>, d: Ino, n: Name)
    requires Mirrors(dirs, t, types) && d in dirs && Proper(n)
    ensures Says(Truth(dirs, d, n), t.entries, types, Key(d, n))
  {
  }

  lemma MirrorTypes(dirs: Dirs, t: Tree, types: map<Key, byte>, k: Key)
    requires Mirrors(dirs, t, types) && k in t.entries
    ensures k in types && (types[k] == FT_DIR <==> IsDir(t, t.entries[k]))
  {
  }

  lemma MirrorKeys(dirs: Dirs, t: Tree, types: map<Key, byte>)
    requires Mirrors(dirs, t, types)
    ensures types.Keys == t.entries.Keys
  {
  }

  /** A moved entry is found under its new name as it was under the old one. */
  lemma FoundAgain(before: Dirs, after: Dirs, t: Tree, u: Tree, types: map<Key, byte>, s: Key, d: Key, open: bool)
    requires s in types && Mirrors(before, t, types) && Mirrors(after, u, types[d := types[s]] - {s})
    requires RenamedTo(t, u, s, d, open) && !SameInode(t, s, d) && Proper(s.name) && Proper(d.name)
    ensures Truth(after, d.dir, d.name) == Truth(before, s.dir, s.name)
  {
    RenamedEntry(t, u, s, d, open);
    hide Mirrors, Truth, IsName, RenamedTo;
    MirrorProper(before, t, types, s);
    MirrorAnswers(before, t, types, s.dir, s.name);
    MirrorProper(after, u, types[d := types[s]] - {s}, d);
    MirrorAnswers(after, u, types[d := types[s]] - {s}, d.dir, d.name);
  }

  lemma SaysNothing(a: Answer, entries: map<Key, Ino>, types: map<Key, byte>, k: Key)
    requires Says(a, entries, types, k) && k !in entries
    ensures a == Absent
  {
  }

  /** One inode under two names in different directories is no directory. */
  lemma SameNameAnywhere(t: Tree, s: Key, d: Key)
    requires TreeOk(t) && s in t.entries && d in t.entries && t.entries[d] == t.entries[s]
    ensures !IntoItself(t, s, d)
  {
    hide TreeOk, Above;
    EntryAt(t, s);
    EntryAt(t, d);
  }
}
