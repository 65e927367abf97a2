/** Directories as a tree: entries, the parent each directory records in "..", and link counts, under the
    operations that change them (kernel/src/ext2.rs:1209-1444). */
module NamespaceTrees {
  import opened Basics

  type Ino = nat

  const ROOT: Ino := 2

  datatype Kind = Directory | File

  datatype Key = Key(dir: Ino, name: Name)

  /** The inodes in use, their link counts, all directory entries but "." and "..", and what ".." names. */
  datatype Tree = Tree(kinds: map<Ino, Kind>, links: map<Ino, nat>, entries: map<Key, Ino>, up: map<Ino, Ino>)

  predicate IsDir(t: Tree, i: Ino)
  {
    i in t.kinds && t.kinds[i] == Directory
  }

  /** The entries that name inode `i`. */
  ghost function Naming(t: Tree, i: Ino): set<Key>
  {
    set k | k in t.entries && t.entries[k] == i
  }

  /** The entries of directory `d` that name directories. */
  ghost function Subdirs(t: Tree, d: Ino): set<Key>
  {
    set k | k in t.entries && k.dir == d && IsDir(t, t.entries[k])
  }

  /** `n` steps up. */
  function UpN(up: map<Ino, Ino>, d: Ino, n: nat): Ino
    decreases n
  {
    if n == 0 || d !in up then d else UpN(up, up[d], n - 1)
  }

  ghost predicate Rooted(up: map<Ino, Ino>, d: Ino)
  {
    exists n: nat :: UpN(up, d, n) == ROOT
  }

  /** At most 255 steps below the root. */
  ghost predicate Shallow(up: map<Ino, Ino>, d: Ino)
  {
    exists n: nat :: n < 256 && UpN(up, d, n) == ROOT
  }

  /** `a` is `b` or lies above it. */
  ghost predicate Above(up: map<Ino, Ino>, a: Ino, b: Ino)
  {
    exists n: nat :: UpN(up, b, n) == a
  }

  ghost predicate EntryOk(t: Tree, k: Key)
    requires k in t.entries
  {
    IsDir(t, k.dir) && t.entries[k] in t.kinds && t.entries[k] != ROOT
    && (IsDir(t, t.entries[k]) ==> t.entries[k] in t.up && t.up[t.entries[k]] == k.dir)
  }

  /** One inode: a file is named as often as it has links; a directory but the root is named once, by the
      directory that its ".." names, and has two links more than subdirectories. */
  ghost predicate InodeOk(t: Tree, i: Ino)
    requires i in t.kinds
  {
    && i in t.links
    && if t.kinds[i] == File then t.links[i] == |Naming(t, i)|
       else
         && t.links[i] == 2 + |Subdirs(t, i)| && i in t.up && IsDir(t, t.up[i]) && Rooted(t.up, i)
         && (i != ROOT ==> |Naming(t, i)| == 1)
  }

  ghost predicate TreeOk(t: Tree)
  {
    && TopOk(t)
    && (forall k :: k in t.entries ==> EntryOk(t, k))
    && (forall i :: i in t.kinds ==> InodeOk(t, i))
  }

  /** The root is its own parent, and exactly the directories have one. */
  ghost predicate TopOk(t: Tree)
  {
    IsDir(t, ROOT) && ROOT in t.up && t.up[ROOT] == ROOT && forall i :: i in t.up <==> IsDir(t, i)
  }

  lemma EntryAt(t: Tree, k: Key)
    requires TreeOk(t) && k in t.entries
    ensures EntryOk(t, k)
  {
  }

  lemma InodeAt(t: Tree, i: Ino)
    requires TreeOk(t) && i in t.kinds
    ensures InodeOk(t, i)
  {
  }

  lemma DirAt(t: Tree, i: Ino)
    requires TreeOk(t) && IsDir(t, i)
    ensures TopOk(t) && i in t.up && IsDir(t, t.up[i]) && Rooted(t.up, i) && i in t.links && t.links[i] == 2 + |Subdirs(t, i)|
  {
    assert InodeOk(t, i);
  }

  // ---------------------------------------------------------------- what a tree is

  lemma {:induction false} StaysAtRoot(up: map<Ino, Ino>, n: nat)
    requires ROOT in up && up[ROOT] == ROOT
    ensures UpN(up, ROOT, n) == ROOT
  {
    if n > 0 { StaysAtRoot(up, n - 1); }
  }

  lemma {:induction false} UpPlus(up: map<Ino, Ino>, d: Ino, m: nat, n: nat)
    ensures UpN(up, d, m + n) == UpN(up, UpN(up, d, m), n)
    decreases m
  {
    if d !in up {
      NoWayUp(up, d, n);
    } else if m > 0 {
      UpPlus(up, up[d], m - 1, n);
    }
  }

  lemma NoWayUp(up: map<Ino, Ino>, d: Ino, n: nat)
    requires d !in up
    ensures UpN(up, d, n) == d
  {
  }

  lemma {:induction false} AroundAgain(up: map<Ino, Ino>, d: Ino, n: nat, times: nat)
    requires UpN(up, d, n) == d
    ensures UpN(up, d, Times(n, times)) == d
  {
    hide UpN;
    if times > 0 {
      AroundAgain(up, d, n, times - 1);
      UpPlus(up, d, Times(n, times - 1), n);
    } else {
      Nowhere(up, d);
    }
  }

  lemma Nowhere(up: map<Ino, Ino>, d: Ino)
    ensures UpN(up, d, 0) == d
  {
  }

  function Times(n: nat, m: nat): nat
  {
    if m == 0 then 0 else Times(n, m - 1) + n
  }

  lemma TimesAtLeast(n: nat, m: nat)
    requires n > 0
    ensures Times(n, m) >= m
  {
  }

  /** No directory lies above itself. */
  lemma Acyclic(t: Tree, d: Ino, n: nat)
    requires TreeOk(t) && IsDir(t, d) && n > 0 && UpN(t.up, d, n) == d
    ensures d == ROOT
  {
    hide TreeOk, UpN, Subdirs;
    DirAt(t, d);
    var m: nat :| UpN(t.up, d, m) == ROOT;
    AroundAgain(t.up, d, n, m);
    TimesAtLeast(n, m);
    UpPlus(t.up, d, m, Times(n, m) - m);
    StaysAtRoot(t.up, Times(n, m) - m);
  }

  // ---------------------------------------------------------------- counting entries

  /** One entry added or gone. */
  lemma NamingAdded(t: Tree, u: Tree, k: Key, i: Ino, j: Ino)
    requires k !in t.entries && u.entries == t.entries[k := i]
    ensures Naming(u, j) == if j == i then Naming(t, j) + {k} else Naming(t, j)
    ensures |Naming(u, j)| == |Naming(t, j)| + if j == i then 1 else 0
  {
    assert Naming(u, j) == if j == i then Naming(t, j) + {k} else Naming(t, j);
  }

  lemma NamingRemoved(t: Tree, u: Tree, k: Key, j: Ino)
    requires k in t.entries && u.entries == t.entries - {k}
    ensures Naming(u, j) == Naming(t, j) - {k}
    ensures |Naming(u, j)| == |Naming(t, j)| - if j == t.entries[k] then 1 else 0
  {
    assert Naming(u, j) == Naming(t, j) - {k};
    if j == t.entries[k] { assert k in Naming(t, j); }
  }

  /** The same directories under the same parents are rooted all the same. */
  lemma {:induction false} RootedStill(up: map<Ino, Ino>, up': map<Ino, Ino>, d: Ino, n: nat)
    requires UpN(up, d, n) == ROOT && ROOT in up && up[ROOT] == ROOT
    requires forall i :: i in up ==> i in up' && up'[i] == up[i]
    ensures UpN(up', d, n) == ROOT
    decreases n
  {
    if d == ROOT {
      StaysAtRoot(up', n);
    } else if n > 0 && d in up {
      RootedStill(up, up', up[d], n - 1);
    }
  }

  /** Nothing names an inode that is not in use. */
  lemma Unnamed(t: Tree, i: Ino)
    requires TreeOk(t) && i !in t.kinds
    ensures Naming(t, i) == {} && Subdirs(t, i) == {}
  {
    hide TreeOk;
    forall k | k in t.entries ensures t.entries[k] != i && k.dir != i { EntryAt(t, k); }
  }

  /** A second name means two links at least. */
  lemma OtherName(t: Tree, k: Key, j: Key)
    requires k in t.entries && j in t.entries && k != j && t.entries[k] == t.entries[j]
    ensures |Naming(t, t.entries[k])| >= 2
  {
    var s := Naming(t, t.entries[k]);
    assert k in s && j in s - {k};
    assert |s - {k}| == |s| - 1;
  }

  /** The only name of a directory. */
  lemma OnlyName(t: Tree, k: Key, j: Key)
    requires TreeOk(t) && k in t.entries && j in t.entries && IsDir(t, t.entries[k]) && t.entries[j] == t.entries[k]
    ensures j == k
  {
    hide TreeOk, Subdirs, Rooted;
    EntryAt(t, k);
    InodeAt(t, t.entries[k]);
    if j != k { OtherName(t, k, j); }
  }

  function OneLess(n: nat): nat { if n > 0 then n - 1 else 0 }

  function Links(t: Tree, i: Ino): nat
  {
    if i in t.links then t.links[i] else 0
  }

  // ---------------------------------------------------------------- files

  /** A file `f` with one more entry `k` and one more link: its first (create) or another (link). */
  function FileLinked(t: Tree, k: Key, f: Ino): Tree
  {
    t.(kinds := t.kinds[f := File], entries := t.entries[k := f], links := t.links[f := if f in t.kinds then Links(t, f) + 1 else 1])
  }

  lemma FileLinkedOk(t: Tree, k: Key, f: Ino)
    requires TreeOk(t) && IsDir(t, k.dir) && k !in t.entries && f != ROOT && (f in t.kinds ==> t.kinds[f] == File)
    ensures TreeOk(FileLinked(t, k, f))
  {
    hide TreeOk, EntryOk, InodeOk;
    var u := FileLinked(t, k, f);
    DirAt(t, k.dir);
    assert TopOk(u);
    forall j | j in u.entries ensures EntryOk(u, j) { FileLinkedEntry(t, k, f, j); }
    forall i | i in u.kinds ensures InodeOk(u, i) { FileLinkedInode(t, k, f, i); }
    Assembled(u);
  }

  lemma Assembled(u: Tree)
    requires TopOk(u) && (forall k :: k in u.entries ==> EntryOk(u, k)) && (forall i :: i in u.kinds ==> InodeOk(u, i))
    ensures TreeOk(u)
  {
    hide TopOk, EntryOk, InodeOk;
  }

  lemma FileLinkedEntry(t: Tree, k: Key, f: Ino, j: Key)
    requires TreeOk(t) && IsDir(t, k.dir) && k !in t.entries && f != ROOT && (f in t.kinds ==> t.kinds[f] == File)
    requires j in FileLinked(t, k, f).entries
    ensures EntryOk(FileLinked(t, k, f), j)
  {
    hide TreeOk;
    if j != k { EntryAt(t, j); }
  }

  lemma FileLinkedInode(t: Tree, k: Key, f: Ino, i: Ino)
    requires TreeOk(t) && IsDir(t, k.dir) && k !in t.entries && f != ROOT && (f in t.kinds ==> t.kinds[f] == File)
    requires i in FileLinked(t, k, f).kinds
    ensures InodeOk(FileLinked(t, k, f), i)
  {
    hide TreeOk, Rooted, Naming, Subdirs;
    var u := FileLinked(t, k, f);
    NamingAdded(t, u, k, f, i);
    FileLinkedSubdirs(t, k, f, i);
    if i in t.kinds {
      InodeAt(t, i);
      if IsDir(t, i) { DirAt(t, i); }
    } else {
      Unnamed(t, i);
    }
  }

  lemma FileLinkedSubdirs(t: Tree, k: Key, f: Ino, i: Ino)
    requires k !in t.entries && (f in t.kinds ==> t.kinds[f] == File)
    ensures Subdirs(FileLinked(t, k, f), i) == Subdirs(t, i)
  {
    hide Subdirs;
    SubdirsSame(t, FileLinked(t, k, f), i);
  }

  /** Subdirectories are the same when the entries that name directories are. */
  lemma SubdirsSame(t: Tree, u: Tree, i: Ino)
    requires forall k :: (k in t.entries && IsDir(t, t.entries[k])) <==> (k in u.entries && IsDir(u, u.entries[k]))
    ensures Subdirs(u, i) == Subdirs(t, i)
  {
    forall k ensures k in Subdirs(u, i) <==> k in Subdirs(t, i) {
      assert (k in t.entries && IsDir(t, t.entries[k])) <==> (k in u.entries && IsDir(u, u.entries[k]));
    }
  }

  /** The file named `k` with that entry and one link less; it goes with its last link, unless it is open. */
  function FileUnlinked(t: Tree, k: Key, open: bool): Tree
    requires k in t.entries
  {
    var f := t.entries[k];
    var n := OneLess(Links(t, f));
    if n == 0 && !open then t.(kinds := t.kinds - {f}, links := t.links - {f}, entries := t.entries - {k})
    else t.(links := t.links[f := n], entries := t.entries - {k})
  }

  lemma FileUnlinkedOk(t: Tree, k: Key, open: bool)
    requires TreeOk(t) && k in t.entries && !IsDir(t, t.entries[k])
    ensures TreeOk(FileUnlinked(t, k, open))
  {
    hide TreeOk, EntryOk, InodeOk;
    var u := FileUnlinked(t, k, open);
    EntryAt(t, k);
    FileUnlinkedTop(t, k, open);
    forall j | j in u.entries ensures EntryOk(u, j) { FileUnlinkedEntry(t, k, open, j); }
    forall i | i in u.kinds ensures InodeOk(u, i) { FileUnlinkedInode(t, k, open, i); }
    Assembled(u);
  }

  lemma FileUnlinkedTop(t: Tree, k: Key, open: bool)
    requires TreeOk(t) && k in t.entries && !IsDir(t, t.entries[k])
    ensures TopOk(FileUnlinked(t, k, open))
  {
    hide TreeOk;
    RootIsDir(t);
  }

  lemma FileUnlinkedEntry(t: Tree, k: Key, open: bool, j: Key)
    requires TreeOk(t) && k in t.entries && !IsDir(t, t.entries[k]) && j in FileUnlinked(t, k, open).entries
    ensures EntryOk(FileUnlinked(t, k, open), j)
  {
    hide TreeOk, Subdirs, Rooted;
    EntryAt(t, j);
    EntryAt(t, k);
    InodeAt(t, t.entries[k]);
    if t.entries[j] == t.entries[k] { OtherName(t, k, j); }
    hide Naming;
  }

  lemma FileUnlinkedInode(t: Tree, k: Key, open: bool, i: Ino)
    requires TreeOk(t) && k in t.entries && !IsDir(t, t.entries[k]) && i in FileUnlinked(t, k, open).kinds
    ensures InodeOk(FileUnlinked(t, k, open), i)
  {
    hide TreeOk, Rooted, Naming, Subdirs;
    var u := FileUnlinked(t, k, open);
    NamingRemoved(t, u, k, i);
    InodeAt(t, i);
    FileUnlinkedSubdirs(t, k, open, i);
    if IsDir(t, i) { DirAt(t, i); UpStays(t, u, t.up[i], t.entries[k]); }
  }

  lemma FileUnlinkedSubdirs(t: Tree, k: Key, open: bool, i: Ino)
    requires k in t.entries && !IsDir(t, t.entries[k])
    ensures Subdirs(FileUnlinked(t, k, open), i) == Subdirs(t, i)
  {
    hide Subdirs;
    SubdirsSame(t, FileUnlinked(t, k, open), i);
  }

  lemma UpStays(t: Tree, u: Tree, d: Ino, f: Ino)
    requires IsDir(t, d) && !IsDir(t, f) && (u.kinds == t.kinds || u.kinds == t.kinds - {f})
    ensures IsDir(u, d)
  {
  }

  // ---------------------------------------------------------------- directories

  /** mkdir: a new empty directory `i`. */
  function DirMade(t: Tree, k: Key, i: Ino): Tree
  {
    Tree(t.kinds[i := Directory], t.links[i := 2][k.dir := Links(t, k.dir) + 1], t.entries[k := i], t.up[i := k.dir])
  }

  lemma DirMadeOk(t: Tree, k: Key, i: Ino)
    requires TreeOk(t) && IsDir(t, k.dir) && k !in t.entries && i !in t.kinds
    ensures TreeOk(DirMade(t, k, i))
  {
    hide TreeOk, EntryOk, InodeOk;
    var u := DirMade(t, k, i);
    DirAt(t, k.dir);
    assert TopOk(u);
    forall j | j in u.entries ensures EntryOk(u, j) { DirMadeEntry(t, k, i, j); }
    forall j | j in u.kinds ensures InodeOk(u, j) { DirMadeInode(t, k, i, j); }
    Assembled(u);
  }

  lemma DirMadeEntry(t: Tree, k: Key, i: Ino, j: Key)
    requires TreeOk(t) && IsDir(t, k.dir) && k !in t.entries && i !in t.kinds && j in DirMade(t, k, i).entries
    ensures EntryOk(DirMade(t, k, i), j)
  {
    hide TreeOk;
    RootIsDir(t);
    if j != k { EntryAt(t, j); }
  }

  lemma DirMadeInode(t: Tree, k: Key, i: Ino, j: Ino)
    requires TreeOk(t) && IsDir(t, k.dir) && k !in t.entries && i !in t.kinds && j in DirMade(t, k, i).kinds
    ensures InodeOk(DirMade(t, k, i), j)
  {
    hide TreeOk, Rooted, Naming, Subdirs, UpN;
    var u := DirMade(t, k, i);
    NamingAdded(t, u, k, i, j);
    Unnamed(t, i);
    DirAt(t, k.dir);
    if j in t.kinds { InodeAt(t, j); }
    SubdirsAdded(t, k, i, j);
    if IsDir(u, j) { RootedBelow(t, k, i, j); }
  }

  lemma SubdirsAdded(t: Tree, k: Key, i: Ino, j: Ino)
    requires TreeOk(t) && k !in t.entries && i !in t.kinds
    ensures |Subdirs(DirMade(t, k, i), j)| == |Subdirs(t, j)| + if j == k.dir then 1 else 0
  {
    hide TreeOk, Subdirs;
    var u := DirMade(t, k, i);
    var b := if j == k.dir then Subdirs(t, j) + {k} else Subdirs(t, j);
    SubdirIn(t, j, k);
    forall l ensures l in Subdirs(u, j) <==> l in b {
      if l in t.entries { EntryAt(t, l); }
      SubdirIn(t, j, l);
      SubdirIn(u, j, l);
    }
    assert Subdirs(u, j) == b;
  }

  lemma RootedBelow(t: Tree, k: Key, i: Ino, j: Ino)
    requires TreeOk(t) && IsDir(t, k.dir) && i !in t.kinds && (j == i || IsDir(t, j))
    ensures Rooted(t.up[i := k.dir], j)
  {
    var d := k.dir;
    hide TreeOk, Subdirs;
    var from := if j == i then d else j;
    DirAt(t, from);
    assert i !in t.up;
    var n: nat :| UpN(t.up, from, n) == ROOT;
    RootedStill(t.up, t.up[i := d], from, n);
    if j == i { assert UpN(t.up[i := d], i, n + 1) == ROOT; }
  }

  /** rmdir: the empty directory named `k` goes. */
  function DirRemoved(t: Tree, k: Key): Tree
    requires k in t.entries
  {
    var i := t.entries[k];
    Tree(t.kinds - {i}, (t.links - {i})[k.dir := OneLess(Links(t, k.dir))], t.entries - {k}, t.up - {i})
  }

  ghost predicate Vacant(t: Tree, i: Ino)
  {
    forall j :: j in t.entries ==> j.dir != i
  }

  lemma DirRemovedOk(t: Tree, k: Key)
    requires TreeOk(t) && k in t.entries && IsDir(t, t.entries[k]) && Vacant(t, t.entries[k])
    ensures TreeOk(DirRemoved(t, k))
  {
    hide TreeOk, EntryOk, InodeOk, Vacant;
    var u := DirRemoved(t, k);
    DirRemovedTop(t, k);
    forall j | j in u.entries ensures EntryOk(u, j) { DirRemovedEntry(t, k, j); }
    forall j | j in u.kinds ensures InodeOk(u, j) { DirRemovedInode(t, k, j); }
    Assembled(u);
  }

  lemma DirRemovedTop(t: Tree, k: Key)
    requires TreeOk(t) && k in t.entries && IsDir(t, t.entries[k])
    ensures TopOk(DirRemoved(t, k))
  {
    hide TreeOk;
    EntryAt(t, k);
    RootIsDir(t);
  }

  lemma DirRemovedEntry(t: Tree, k: Key, j: Key)
    requires TreeOk(t) && k in t.entries && IsDir(t, t.entries[k]) && Vacant(t, t.entries[k]) && j in DirRemoved(t, k).entries
    ensures EntryOk(DirRemoved(t, k), j)
  {
    hide TreeOk;
    EntryAt(t, j);
    if t.entries[j] == t.entries[k] { OnlyName(t, k, j); }
    DirAt(t, ROOT) by { RootIsDir(t); }
  }

  lemma RootIsDir(t: Tree)
    requires TreeOk(t)
    ensures IsDir(t, ROOT) && TopOk(t)
  {
  }

  lemma DirRemovedInode(t: Tree, k: Key, j: Ino)
    requires TreeOk(t) && k in t.entries && IsDir(t, t.entries[k]) && Vacant(t, t.entries[k]) && j in DirRemoved(t, k).kinds
    ensures InodeOk(DirRemoved(t, k), j)
  {
    hide TreeOk, Rooted, UpN, Naming, Subdirs, Vacant;
    var u, i := DirRemoved(t, k), t.entries[k];
    NamingRemoved(t, u, k, j);
    EntryAt(t, k);
    InodeAt(t, j);
    DirAt(t, k.dir);
    NotItsOwnParent(t, k);
    SubdirsRemoved(t, k, j);
    if IsDir(t, j) {
      Childless(t, i, j);
      DirAt(t, j);
      RootedWithout(t, i, j);
    }
  }

  lemma NotItsOwnParent(t: Tree, k: Key)
    requires TreeOk(t) && k in t.entries && IsDir(t, t.entries[k])
    ensures k.dir != t.entries[k]
  {
    EntryAt(t, k);
    hide TreeOk;
    if k.dir == t.entries[k] {
      OneUp(t.up, k.dir);
      Acyclic(t, k.dir, 1);
    }
  }

  lemma OneUp(up: map<Ino, Ino>, d: Ino)
    requires d in up
    ensures UpN(up, d, 1) == up[d]
  {
    assert UpN(up, up[d], 0) == up[d];
  }

  lemma SubdirsRemoved(t: Tree, k: Key, j: Ino)
    requires TreeOk(t) && k in t.entries && IsDir(t, t.entries[k])
    ensures |Subdirs(DirRemoved(t, k), j)| == |Subdirs(t, j)| - if j == k.dir then 1 else 0
  {
    hide TreeOk, Subdirs;
    var u := DirRemoved(t, k);
    SubdirIn(t, j, k);
    forall l ensures l in Subdirs(u, j) <==> l in Subdirs(t, j) - {k} {
      if l in t.entries && t.entries[l] == t.entries[k] { OnlyName(t, k, l); }
      SubdirIn(t, j, l);
      SubdirIn(u, j, l);
    }
    assert Subdirs(u, j) == Subdirs(t, j) - {k};
  }

  /** Nobody's parent is a directory without entries. */
  lemma Childless(t: Tree, i: Ino, j: Ino)
    requires TreeOk(t) && i != ROOT && IsDir(t, j) && Vacant(t, i)
    ensures j in t.up && t.up[j] != i
  {
    DirAt(t, j);
    InodeAt(t, j);
    hide TreeOk, Rooted, Subdirs;
    if j != ROOT {
      var l :| l in Naming(t, j);
      EntryAt(t, l);
    }
  }

  lemma RootedWithout(t: Tree, i: Ino, j: Ino)
    requires TreeOk(t) && i != ROOT && i != j && IsDir(t, j) && Vacant(t, i)
    ensures Rooted(t.up - {i}, j)
  {
    hide TreeOk, Subdirs, Vacant;
    DirAt(t, j);
    var n: nat :| UpN(t.up, j, n) == ROOT;
    WayWithout(t, i, j, n);
  }

  lemma {:induction false} WayWithout(t: Tree, i: Ino, j: Ino, n: nat)
    requires TreeOk(t) && i != ROOT && i != j && IsDir(t, j) && Vacant(t, i) && UpN(t.up, j, n) == ROOT
    ensures Rooted(t.up - {i}, j)
    decreases n
  {
    hide TreeOk, Subdirs, Vacant;
    var up := t.up - {i};
    if j == ROOT || n == 0 {
      assert UpN(up, j, 0) == ROOT;
    } else {
      Childless(t, i, j);
      DirAt(t, j);
      WayWithout(t, i, t.up[j], n - 1);
      var m: nat :| UpN(up, t.up[j], m) == ROOT;
      assert UpN(up, j, m + 1) == UpN(up, up[j], m);
    }
  }

  // ---------------------------------------------------------------- moving

  /** The entry of an inode moves from `s` to `d`, which is free. */
  function Moved(t: Tree, s: Key, d: Key): Tree
    requires s in t.entries
  {
    t.(entries := t.entries[d := t.entries[s]] - {s})
  }

  lemma NamingMoved(t: Tree, s: Key, d: Key, j: Ino)
    requires s in t.entries && d !in t.entries
    ensures |Naming(Moved(t, s, d), j)| == |Naming(t, j)|
    ensures Naming(DirMoved(t, s, d), j) == Naming(Moved(t, s, d), j)
  {
    hide Naming;
    var u, v := Moved(t, s, d), DirMoved(t, s, d);
    var b := if j == t.entries[s] then Naming(t, j) - {s} + {d} else Naming(t, j);
    NamingIn(t, j, s);
    NamingIn(t, j, d);
    forall k ensures (k in Naming(u, j) <==> k in b) && (k in Naming(v, j) <==> k in b) {
      NamingIn(t, j, k);
      NamingIn(u, j, k);
      NamingIn(v, j, k);
    }
    assert Naming(u, j) == b && Naming(v, j) == b;
  }

  /** A file under a new name: nothing else changes. */
  lemma FileMovedOk(t: Tree, s: Key, d: Key)
    requires TreeOk(t) && s in t.entries && d !in t.entries && IsDir(t, d.dir) && !IsDir(t, t.entries[s])
    ensures TreeOk(Moved(t, s, d))
  {
    hide TreeOk, EntryOk, InodeOk;
    var u := Moved(t, s, d);
    DirAt(t, d.dir);
    assert TopOk(u);
    forall j | j in u.entries ensures EntryOk(u, j) { FileMovedEntry(t, s, d, j); }
    forall j | j in u.kinds ensures InodeOk(u, j) { FileMovedInode(t, s, d, j); }
    Assembled(u);
  }

  lemma FileMovedEntry(t: Tree, s: Key, d: Key, j: Key)
    requires TreeOk(t) && s in t.entries && d !in t.entries && IsDir(t, d.dir) && !IsDir(t, t.entries[s]) && j in Moved(t, s, d).entries
    ensures EntryOk(Moved(t, s, d), j)
  {
    hide TreeOk;
    EntryAt(t, s);
    if j != d { EntryAt(t, j); }
  }

  lemma FileMovedInode(t: Tree, s: Key, d: Key, j: Ino)
    requires TreeOk(t) && s in t.entries && d !in t.entries && !IsDir(t, t.entries[s]) && j in t.kinds
    ensures InodeOk(Moved(t, s, d), j)
  {
    hide TreeOk, Rooted, Naming, Subdirs;
    var u := Moved(t, s, d);
    InodeAt(t, j);
    NamingMoved(t, s, d, j);
    SubdirsSame(t, u, j);
  }

  /** A directory under a new name, below `d.dir` from now on. */
  function DirMoved(t: Tree, s: Key, d: Key): Tree
    requires s in t.entries
  {
    var u := Moved(t, s, d);
    if s.dir == d.dir then u
    else u.(up := t.up[t.entries[s] := d.dir],
            links := t.links[s.dir := OneLess(Links(t, s.dir))][d.dir := Links(t, d.dir) + 1])
  }

  /** Moving a directory below another one keeps the tree a tree exactly when it does not lie above it. */
  lemma DirMovedOk(t: Tree, s: Key, d: Key)
    requires TreeOk(t) && s in t.entries && d !in t.entries && IsDir(t, d.dir) && IsDir(t, t.entries[s])
    ensures TreeOk(DirMoved(t, s, d)) <==> s.dir == d.dir || !Above(t.up, t.entries[s], d.dir)
  {
    hide TreeOk, EntryOk, InodeOk, Above;
    if s.dir != d.dir && Above(t.up, t.entries[s], d.dir) {
      MovedUnderItself(t, s, d);
    } else {
      var u := DirMoved(t, s, d);
      DirMovedTop(t, s, d);
      forall j | j in u.entries ensures EntryOk(u, j) { DirMovedEntry(t, s, d, j); }
      forall j | j in u.kinds ensures InodeOk(u, j) { DirMovedInode(t, s, d, j); }
      Assembled(u);
    }
  }

  lemma DirMovedTop(t: Tree, s: Key, d: Key)
    requires TreeOk(t) && s in t.entries && IsDir(t, t.entries[s])
    ensures TopOk(DirMoved(t, s, d))
  {
    hide TreeOk;
    EntryAt(t, s);
    RootIsDir(t);
  }

  lemma DirMovedEntry(t: Tree, s: Key, d: Key, j: Key)
    requires TreeOk(t) && s in t.entries && d !in t.entries && IsDir(t, d.dir) && IsDir(t, t.entries[s])
    requires j in DirMoved(t, s, d).entries
    ensures EntryOk(DirMoved(t, s, d), j)
  {
    hide TreeOk;
    EntryAt(t, s);
    if j != d {
      EntryAt(t, j);
      if t.entries[j] == t.entries[s] { OnlyName(t, s, j); }
    }
  }

  lemma DirMovedInode(t: Tree, s: Key, d: Key, j: Ino)
    requires TreeOk(t) && s in t.entries && d !in t.entries && IsDir(t, d.dir) && IsDir(t, t.entries[s])
    requires s.dir == d.dir || !Above(t.up, t.entries[s], d.dir)
    requires j in t.kinds
    ensures InodeOk(DirMoved(t, s, d), j)
  {
    hide TreeOk, Rooted, Above, UpN, Naming, Subdirs;
    var u := DirMoved(t, s, d);
    InodeAt(t, j);
    EntryAt(t, s);
    DirAt(t, s.dir);
    DirAt(t, d.dir);
    NamingMoved(t, s, d, j);
    SubdirsMoved(t, s, d, j);
    if IsDir(t, j) && s.dir != d.dir { RootedMoved(t, s, d, j); }
  }

  lemma SubdirIn(t: Tree, d: Ino, k: Key)
    ensures k in Subdirs(t, d) <==> k in t.entries && k.dir == d && IsDir(t, t.entries[k])
  {
  }

  lemma NamingIn(t: Tree, i: Ino, k: Key)
    ensures k in Naming(t, i) <==> k in t.entries && t.entries[k] == i
  {
  }

  lemma SubdirsMoved(t: Tree, s: Key, d: Key, j: Ino)
    requires s in t.entries && d !in t.entries && IsDir(t, t.entries[s])
    ensures |Subdirs(DirMoved(t, s, d), j)| ==
            |Subdirs(t, j)| - (if j == s.dir then 1 else 0) + (if j == d.dir then 1 else 0)
    ensures j == s.dir ==> |Subdirs(t, j)| > 0
  {
    hide Subdirs;
    var u := DirMoved(t, s, d);
    var a := if j == s.dir then Subdirs(t, j) - {s} else Subdirs(t, j);
    var b := if j == d.dir then a + {d} else a;
    SubdirIn(t, j, s);
    SubdirIn(t, j, d);
    forall k ensures k in Subdirs(u, j) <==> k in b {
      SubdirIn(t, j, k);
      SubdirIn(u, j, k);
    }
    assert Subdirs(u, j) == b;
  }

  lemma RootedMoved(t: Tree, s: Key, d: Key, j: Ino)
    requires TreeOk(t) && s in t.entries && IsDir(t, t.entries[s]) && IsDir(t, d.dir) && !Above(t.up, t.entries[s], d.dir) && IsDir(t, j)
    ensures Rooted(t.up[t.entries[s] := d.dir], j)
  {
    hide TreeOk, Above, Subdirs;
    DirAt(t, j);
    var n: nat :| UpN(t.up, j, n) == ROOT;
    WayMoved(t, s, d, j, n);
  }

  /** Who got to the root still does: past the moved directory if need be. */
  lemma {:induction false} WayMoved(t: Tree, s: Key, d: Key, j: Ino, n: nat)
    requires TreeOk(t) && s in t.entries && IsDir(t, t.entries[s]) && IsDir(t, d.dir) && !Above(t.up, t.entries[s], d.dir)
    requires IsDir(t, j) && UpN(t.up, j, n) == ROOT
    ensures Rooted(t.up[t.entries[s] := d.dir], j)
    decreases n
  {
    hide TreeOk, Above, Subdirs;
    var i := t.entries[s];
    var up := t.up[i := d.dir];
    DirAt(t, j);
    DirAt(t, d.dir);
    if j == ROOT || n == 0 {
      assert UpN(up, j, 0) == ROOT;
    } else if j == i {
      var m: nat :| UpN(t.up, d.dir, m) == ROOT;
      AvoidsMoved(t.up, i, d.dir, d.dir, m);
      assert UpN(up, i, m + 1) == UpN(up, up[i], m);
    } else {
      WayMoved(t, s, d, t.up[j], n - 1);
      var m: nat :| UpN(up, t.up[j], m) == ROOT;
      assert UpN(up, j, m + 1) == UpN(up, up[j], m);
    }
  }

  /** A way up that never meets `i` does not notice where `i` went. */
  lemma AvoidsMoved(up: map<Ino, Ino>, i: Ino, to: Ino, d: Ino, n: nat)
    requires !Above(up, i, d)
    ensures UpN(up[i := to], d, n) == UpN(up, d, n)
  {
    forall m: nat | m < n ensures UpN(up, d, m) != i { }
    SameUntil(up, i, to, d, n);
  }

  lemma {:induction false} SameUntil(up: map<Ino, Ino>, i: Ino, to: Ino, d: Ino, n: nat)
    requires forall m: nat :: m < n ==> UpN(up, d, m) != i
    ensures UpN(up[i := to], d, n) == UpN(up, d, n)
    decreases n
  {
    if n > 0 {
      assert UpN(up, d, 0) == d;
      if d in up {
        forall m: nat | m < n - 1 ensures UpN(up, up[d], m) != i { assert UpN(up, d, m + 1) == UpN(up, up[d], m); }
        SameUntil(up, i, to, up[d], n - 1);
      }
    }
  }

  /** A directory moved below itself is cut off from the root. */
  lemma MovedUnderItself(t: Tree, s: Key, d: Key)
    requires TreeOk(t) && s in t.entries && IsDir(t, t.entries[s]) && IsDir(t, d.dir) && s.dir != d.dir
    requires Above(t.up, t.entries[s], d.dir)
    ensures !TreeOk(DirMoved(t, s, d))
  {
    var i, u := t.entries[s], DirMoved(t, s, d);
    EntryAt(t, s);
    hide TreeOk;
    var n := ShortestWay(t.up, i, d.dir);
    SameUntil(t.up, i, d.dir, d.dir, n);
    assert UpN(u.up, i, n + 1) == UpN(u.up, u.up[i], n);
    if TreeOk(u) { Acyclic(u, i, n + 1); }
  }

  lemma ShortestWay(up: map<Ino, Ino>, i: Ino, d: Ino) returns (n: nat)
    requires Above(up, i, d)
    ensures UpN(up, d, n) == i && forall m: nat :: m < n ==> UpN(up, d, m) != i
  {
    n :| UpN(up, d, n) == i;
    while exists m: nat :: m < n && UpN(up, d, m) == i
      invariant UpN(up, d, n) == i
      decreases n
    {
      var m: nat :| m < n && UpN(up, d, m) == i;
      n := m;
    }
  }

  // ---------------------------------------------------------------- looking up and giving way

  /** The tree after whatever is at `d` gave way. */
  function Cleared(t: Tree, d: Key, open: bool): Tree
  {
    if d !in t.entries then t else if IsDir(t, t.entries[d]) then DirRemoved(t, d) else FileUnlinked(t, d, open)
  }

  /** What rename does: nothing when both names are of one inode; otherwise the new name is cleared and the entry
      moves. */
  ghost predicate RenamedTo(t: Tree, u: Tree, s: Key, d: Key, open: bool)
  {
    s in t.entries
    && if d in t.entries && t.entries[d] == t.entries[s] then u == t
       else
         var c := Cleared(t, d, open);
         s in c.entries && u == if IsDir(t, t.entries[s]) then DirMoved(c, s, d) else Moved(c, s, d)
  }

  lemma RenamedEntry(t: Tree, u: Tree, s: Key, d: Key, open: bool)
    requires RenamedTo(t, u, s, d, open) && !(d in t.entries && t.entries[d] == t.entries[s])
    ensures s in t.entries && d in u.entries && u.entries[d] == t.entries[s]
  {
  }

  /** Clearing the new name touches neither the entry that moves nor the directories involved. */
  lemma ClearedKeeps(t: Tree, s: Key, d: Key, open: bool)
    requires TreeOk(t) && s in t.entries && IsDir(t, d.dir)
    requires d in t.entries ==> t.entries[d] != t.entries[s] && (IsDir(t, t.entries[d]) ==> Vacant(t, t.entries[d]))
    ensures var c := Cleared(t, d, open);
            && TreeOk(c) && s in c.entries && c.entries[s] == t.entries[s] && d !in c.entries
            && (IsDir(c, c.entries[s]) <==> IsDir(t, t.entries[s])) && c.entries[s] in c.kinds
            && IsDir(c, s.dir) && IsDir(c, d.dir) && s.dir in c.links && d.dir in c.links
            && (Above(c.up, t.entries[s], d.dir) <==> Above(t.up, t.entries[s], d.dir))
  {
    hide TreeOk, Naming, Subdirs, Rooted, UpN;
    var c := Cleared(t, d, open);
    EntryAt(t, s);
    if d in t.entries {
      EntryAt(t, d);
      if IsDir(t, t.entries[d]) {
        DirRemovedOk(t, d);
        NotItsOwnParent(t, d);
        SameAbove(t, t.entries[d], t.entries[s], d.dir);
      } else {
        FileUnlinkedOk(t, d, open);
      }
    }
    DirAt(c, s.dir);
    DirAt(c, d.dir);
  }

  /** A directory without entries lies on nobody's way up. */
  lemma SameAbove(t: Tree, gone: Ino, a: Ino, d: Ino)
    requires TreeOk(t) && gone != ROOT && Vacant(t, gone) && IsDir(t, d) && d != gone
    ensures Above(t.up - {gone}, a, d) <==> Above(t.up, a, d)
  {
    hide TreeOk, Vacant;
    if n: nat :| UpN(t.up - {gone}, d, n) == a { WaySame(t, gone, d, n); }
    if n: nat :| UpN(t.up, d, n) == a { WaySame(t, gone, d, n); }
  }

  lemma {:induction false} WaySame(t: Tree, gone: Ino, d: Ino, n: nat)
    requires TreeOk(t) && gone != ROOT && Vacant(t, gone) && IsDir(t, d) && d != gone
    ensures UpN(t.up - {gone}, d, n) == UpN(t.up, d, n)
    decreases n
  {
    hide TreeOk, Vacant, Subdirs, Rooted;
    if n > 0 {
      DirAt(t, d);
      Childless(t, gone, d);
      WaySame(t, gone, t.up[d], n - 1);
    }
  }

  /** The move that completes a rename keeps the tree a tree exactly when no directory moves below itself. */
  lemma RenameCompletes(t: Tree, u: Tree, s: Key, d: Key, open: bool)
    requires TreeOk(t) && s in t.entries && IsDir(t, d.dir)
    requires d in t.entries ==> t.entries[d] != t.entries[s] && (IsDir(t, t.entries[d]) ==> Vacant(t, t.entries[d]))
    requires var c := Cleared(t, d, open);
             s in c.entries && u == if IsDir(c, c.entries[s]) then DirMoved(c, s, d) else Moved(c, s, d)
    ensures RenamedTo(t, u, s, d, open)
    ensures TreeOk(u) <==> !IsDir(t, t.entries[s]) || s.dir == d.dir || !Above(t.up, t.entries[s], d.dir)
  {
    hide TreeOk, Above, Vacant;
    ClearedKeeps(t, s, d, open);
    var c := Cleared(t, d, open);
    if IsDir(c, c.entries[s]) { DirMovedOk(c, s, d); } else { FileMovedOk(c, s, d); }
  }

  // ---------------------------------------------------------------- what changes, and what does not

  /** The trees agree on all entries but `ks`, and on the kinds and parents of all inodes but `those`. Link counts are
      what a tree says they are. */
  ghost predicate Elsewhere(t: Tree, u: Tree, ks: set<Key>, those: set<Ino>)
  {
    && (forall k :: k !in ks ==> (k in u.entries <==> k in t.entries) && (k in t.entries ==> u.entries[k] == t.entries[k]))
    && (forall i :: i !in those ==> (i in u.kinds <==> i in t.kinds) && (i in t.kinds ==> u.kinds[i] == t.kinds[i]))
    && (forall i :: i !in those ==> (i in u.up <==> i in t.up) && (i in t.up ==> u.up[i] == t.up[i]))
  }

  lemma FileLinkedOnly(t: Tree, k: Key, f: Ino)
    requires f in t.kinds ==> t.kinds[f] == File
    ensures var u := FileLinked(t, k, f);
            && Elsewhere(t, u, {k}, {f}) && k in u.entries && u.entries[k] == f && f in u.kinds && u.kinds[f] == File
            && u.up == t.up
  {
  }

  /** A file goes with its last name, unless it is open. */
  lemma FileUnlinkedOnly(t: Tree, k: Key, open: bool)
    requires TreeOk(t) && k in t.entries && !IsDir(t, t.entries[k])
    ensures var f, u := t.entries[k], FileUnlinked(t, k, open);
            && Elsewhere(t, u, {k}, {f}) && k !in u.entries && u.up == t.up
            && (f in u.kinds <==> open || exists j :: j in u.entries && u.entries[j] == f)
            && (f in u.kinds ==> u.kinds[f] == File)
  {
    hide TreeOk, Subdirs, Rooted;
    var f, u := t.entries[k], FileUnlinked(t, k, open);
    EntryAt(t, k);
    InodeAt(t, f);
    NamingRemoved(t, u, k, f);
    if j :| j in u.entries && u.entries[j] == f {
      OtherName(t, k, j);
    } else {
      assert Naming(u, f) == {};
    }
  }

  lemma DirMadeOnly(t: Tree, k: Key, i: Ino)
    ensures var u := DirMade(t, k, i);
            && Elsewhere(t, u, {k}, {i}) && k in u.entries && u.entries[k] == i
            && i in u.kinds && u.kinds[i] == Directory && i in u.up && u.up[i] == k.dir
  {
  }

  lemma DirRemovedOnly(t: Tree, k: Key)
    requires k in t.entries
    ensures var i, u := t.entries[k], DirRemoved(t, k);
            Elsewhere(t, u, {k}, {i}) && k !in u.entries && i !in u.kinds && i !in u.up
  {
  }

  /** What was at the new name of a rename: an empty directory goes, a file loses a name. */
  lemma ClearedOnly(t: Tree, d: Key, open: bool)
    requires TreeOk(t) && d in t.entries
    ensures var i, c := t.entries[d], Cleared(t, d, open);
            && Elsewhere(t, c, {d}, {i}) && d !in c.entries && Fate(t, c, i, open)
  {
    hide TreeOk, Subdirs, Rooted;
    EntryAt(t, d);
    if IsDir(t, t.entries[d]) { DirRemovedOnly(t, d); } else { FileUnlinkedOnly(t, d, open); }
  }

  /** A directory is gone; a file is there exactly when it is open or has another name. */
  ghost predicate Fate(t: Tree, u: Tree, i: Ino, open: bool)
  {
    i in u.kinds <==> !IsDir(t, i) && (open || exists j :: j in u.entries && u.entries[j] == i)
  }

  lemma FateMoved(t: Tree, c: Tree, u: Tree, s: Key, d: Key, i: Ino, open: bool)
    requires Fate(t, c, i, open) && s in c.entries && c.entries[s] != i && d !in c.entries
    requires u.kinds == c.kinds && u.entries == c.entries[d := c.entries[s]] - {s}
    ensures Fate(t, u, i, open)
  {
    if j :| j in c.entries && c.entries[j] == i { assert j in u.entries && u.entries[j] == i; }
  }

  /** Renamed, an inode is what it was, and a directory has the new parent; all that can go besides is what was at
      the new name. */
  lemma RenamedOnly(t: Tree, u: Tree, s: Key, d: Key, open: bool)
    requires TreeOk(t) && RenamedTo(t, u, s, d, open) && !(d in t.entries && t.entries[d] == t.entries[s])
    ensures var i := t.entries[s];
            && Elsewhere(t, u, {s, d}, {i} + (if d in t.entries then {t.entries[d]} else {}))
            && s !in u.entries && d in u.entries && u.entries[d] == i
            && i in t.kinds && i in u.kinds && u.kinds[i] == t.kinds[i]
            && (IsDir(t, i) ==> i in u.up && u.up[i] == d.dir)
            && (d in t.entries ==> Fate(t, u, t.entries[d], open))
  {
    hide TreeOk, Rooted, Subdirs, Fate, DirMoved, Moved, Elsewhere;
    EntryAt(t, s);
    var c := Cleared(t, d, open);
    if d in t.entries { ClearedOnly(t, d, open); }
    MovedOnly(t, c, u, s, d, if d in t.entries then {t.entries[d]} else {});
    hide Cleared;
    if d in t.entries { FateMoved(t, c, u, s, d, t.entries[d], open); }
  }

  /** The move itself, after the new name was cleared. */
  lemma MovedOnly(t: Tree, c: Tree, u: Tree, s: Key, d: Key, lost: set<Ino>)
    requires TreeOk(t) && s in t.entries && s in c.entries && s != d && t.entries[s] !in lost
    requires if lost == {} then c == t else Elsewhere(t, c, {d}, lost)
    requires u == if IsDir(t, t.entries[s]) then DirMoved(c, s, d) else Moved(c, s, d)
    ensures var i := t.entries[s];
            && Elsewhere(t, u, {s, d}, {i} + lost) && c.entries[s] == i
            && s !in u.entries && d in u.entries && u.entries[d] == i
            && i in t.kinds && i in u.kinds && u.kinds[i] == t.kinds[i]
            && (IsDir(t, i) ==> i in u.up && u.up[i] == d.dir)
            && u.kinds == c.kinds && u.entries == c.entries[d := c.entries[s]] - {s}
  {
    hide TreeOk;
    EntryAt(t, s);
    assert Elsewhere(t, c, {d}, lost);
  }
}
