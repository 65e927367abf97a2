/** The directory name cache: 1024 slots of answers, positive and negative (kernel/src/ext2.rs:822-868). */
module NameCache {
  import opened Basics
  import opened BlockTree
  import opened DirBlocks
  import opened DirListings

  /** The directories that exist, by inode number. */
  type Dirs = map<nat, Listing>

  const DCACHE_SLOTS: nat := 1024
  const DCACHE_NAME_MAX: nat := 60
  const U64: nat := 0x1_0000_0000_0000_0000

  /** One slot; inode number 0 says that the name is absent. */
  datatype Dentry = Dentry(dir: nat, ino: nat, ftype: byte, name: Name, valid: bool)

  const EMPTY: Dentry := Dentry(0, 0, 0, [], false)

  // ---------------------------------------------------------------- hashing

  function Xor(a: nat, b: nat): nat
  {
    if a == 0 && b == 0 then 0 else 2 * Xor(a / 2, b / 2) + (a + b) % 2
  }

  /** The hash of a directory and a name, in 64-bit arithmetic. */
  function Mix(dir: nat, name: Name): nat
  {
    if name == [] then dir * 0x9E37_79B9_7F4A_7C15 % U64
    else Xor(Mix(dir, name[..|name| - 1]), name[|name| - 1]) * 0x1000_0000_01B3 % U64
  }

  function Idx(dir: nat, name: Name): (i: nat)
    ensures i < DCACHE_SLOTS
  {
    Xor(Mix(dir, name) / 0x1_0000, Mix(dir, name)) % DCACHE_SLOTS
  }

  /** dcache_idx (kernel/src/ext2.rs:839-845) */
  method DcacheIdx(dir: nat, name: Name) returns (i: nat)
    ensures i == Idx(dir, name)
  {
    var h := dir * 0x9E37_79B9_7F4A_7C15 % U64;
    var k := 0;
    while k < |name|
      invariant k <= |name| && h == Mix(dir, name[..k])
    {
      assert name[..k + 1][..k] == name[..k];
      h := Xor(h, name[k]) * 0x1000_0000_01B3 % U64;
      k := k + 1;
    }
    assert name[..k] == name;
    return Xor(h / 0x1_0000, h) % DCACHE_SLOTS;
  }

  // ---------------------------------------------------------------- what the slots say

  /** The slot answers for this directory and name. */
  predicate Hits(e: Dentry, dir: nat, name: Name)
  {
    e.valid && e.dir == dir && e.name == name
  }

  function AnswerOf(e: Dentry): Answer
  {
    if e.ino == 0 then Absent else Found(e.ino, e.ftype)
  }

  /** What a full scan answers. A removed directory keeps the answers it gave when empty. */
  function Truth(tree: Dirs, dir: nat, name: Name): Answer
  {
    if dir in tree then Ask(tree[dir], name) else if name == DOT then Found(dir, FT_DIR) else Absent
  }

  /** The slot holds a name that fits, at its own place. */
  ghost predicate AtHome(s: seq<Dentry>, i: nat)
    requires i < |s|
  {
    s[i].valid ==> i == Idx(s[i].dir, s[i].name) && |s[i].name| <= DCACHE_NAME_MAX
  }

  ghost predicate Housed(s: seq<Dentry>)
  {
    |s| == DCACHE_SLOTS && forall i :: 0 <= i < |s| ==> AtHome(s, i)
  }

  /** The slot, if in use and not about "..", says what a full scan says. */
  ghost predicate Right(e: Dentry, tree: Dirs)
  {
    e.valid && e.name != DOTDOT ==> AnswerOf(e) == Truth(tree, e.dir, e.name)
  }

  ghost predicate Agrees(s: seq<Dentry>, tree: Dirs)
  {
    forall i :: 0 <= i < |s| ==> Right(s[i], tree)
  }

  /** `after` answers as `before` does, except for `name` in `dir`. */
  ghost predicate OnlyChanged(before: Dirs, after: Dirs, dir: nat, name: Name)
  {
    forall d: nat, n: Name :: (d != dir || n != name) ==> Truth(after, d, n) == Truth(before, d, n)
  }

  /** dcache_put (kernel/src/ext2.rs:847-858) */
  function Put(s: seq<Dentry>, dir: nat, name: Name, ino: nat, ftype: byte): (r: seq<Dentry>)
    requires |s| == DCACHE_SLOTS
    ensures |r| == DCACHE_SLOTS
  {
    if |name| > DCACHE_NAME_MAX then s else s[Idx(dir, name) := Dentry(dir, ino, ftype, name, true)]
  }

  /** dcache_inv (kernel/src/ext2.rs:860-868) */
  function Invalidated(s: seq<Dentry>, dir: nat, name: Name): (r: seq<Dentry>)
    requires |s| == DCACHE_SLOTS
    ensures |r| == DCACHE_SLOTS
  {
    if |name| <= DCACHE_NAME_MAX && Hits(s[Idx(dir, name)], dir, name)
    then s[Idx(dir, name) := s[Idx(dir, name)].(valid := false)] else s
  }

  /** What lookup answers when every block can be read, and the slots after it: a cached answer as it stands, or a
      scan's, which is then cached. A removed directory (in `gone`) has no blocks left to scan. */
  function Looked(s: seq<Dentry>, dirs: Dirs, gone: set<nat>, dir: nat, name: Name): (r: (Result<Answer, Error>, seq<Dentry>))
    requires |s| == DCACHE_SLOTS
    ensures |r.1| == DCACHE_SLOTS
  {
    if |name| <= DCACHE_NAME_MAX && Hits(s[Idx(dir, name)], dir, name) then (Ok(AnswerOf(s[Idx(dir, name)])), s)
    else if dir in dirs then (Ok(Ask(dirs[dir], name)), Noted(s, dir, name, Ask(dirs[dir], name)))
    else if dir in gone then (Ok(Absent), Noted(s, dir, name, Absent))
    else (Err(NotDir), s)
  }

  /** The slots after an answer was cached. */
  function Noted(s: seq<Dentry>, dir: nat, name: Name, a: Answer): (r: seq<Dentry>)
    requires |s| == DCACHE_SLOTS
    ensures |r| == DCACHE_SLOTS
  {
    Put(s, dir, name, if a.Found? then a.ino else 0, if a.Found? then a.ftype else 0)
  }

  /** No slot answers for this name. */
  ghost predicate Silent(s: seq<Dentry>, dir: nat, name: Name)
  {
    forall i :: 0 <= i < |s| ==> !Hits(s[i], dir, name)
  }

  /** After a put, the one slot for the name is the new one; every other slot is as it was. */
  lemma PutSlots(s: seq<Dentry>, dir: nat, name: Name, ino: nat, ftype: byte)
    requires Housed(s)
    ensures Housed(Put(s, dir, name, ino, ftype))
    ensures forall i :: 0 <= i < |s| && Hits(Put(s, dir, name, ino, ftype)[i], dir, name) ==>
                          Put(s, dir, name, ino, ftype)[i] == Dentry(dir, ino, ftype, name, true)
    ensures forall i :: 0 <= i < |s| && !Hits(Put(s, dir, name, ino, ftype)[i], dir, name) ==>
                          Put(s, dir, name, ino, ftype)[i] == s[i]
  {
    hide Idx;
    var r := Put(s, dir, name, ino, ftype);
    forall i | 0 <= i < |s| ensures AtHome(r, i) { assert AtHome(s, i); }
    forall i | 0 <= i < |s| && Hits(r[i], dir, name) ensures r[i] == Dentry(dir, ino, ftype, name, true) {
      assert AtHome(r, i) && AtHome(s, i);
    }
  }

  lemma InvalidatedSlots(s: seq<Dentry>, dir: nat, name: Name)
    requires Housed(s)
    ensures Housed(Invalidated(s, dir, name)) && Silent(Invalidated(s, dir, name), dir, name)
    ensures forall i :: 0 <= i < |s| && Invalidated(s, dir, name)[i].valid ==> Invalidated(s, dir, name)[i] == s[i]
  {
    hide Idx;
    var r := Invalidated(s, dir, name);
    forall i | 0 <= i < |s| ensures AtHome(r, i) && !Hits(r[i], dir, name) { assert AtHome(s, i); }
  }

  /** Caching the right answer keeps the cache right. */
  lemma PutAgrees(s: seq<Dentry>, tree: Dirs, dir: nat, name: Name, ino: nat, ftype: byte)
    requires Housed(s) && Agrees(s, tree)
    requires name != DOTDOT ==> AnswerOf(Dentry(dir, ino, ftype, name, true)) == Truth(tree, dir, name)
    ensures Agrees(Put(s, dir, name, ino, ftype), tree)
  {
    hide Idx, Truth, Put;
    PutSlots(s, dir, name, ino, ftype);
    var r := Put(s, dir, name, ino, ftype);
    forall i | 0 <= i < |r| ensures Right(r[i], tree) { assert Right(s[i], tree); }
  }

  /** A forgotten name may change its answer. */
  lemma SilentAgrees(s: seq<Dentry>, s': seq<Dentry>, before: Dirs, after: Dirs, dir: nat, name: Name)
    requires |s'| == |s| && Agrees(s, before) && OnlyChanged(before, after, dir, name)
    requires Silent(s', dir, name) || name == DOTDOT
    requires forall i :: 0 <= i < |s| && s'[i].valid ==> s'[i] == s[i]
    ensures Agrees(s', after)
  {
    hide Truth;
    forall i | 0 <= i < |s'| ensures Right(s'[i], after) { assert Right(s[i], before); }
  }

  /** A name whose answer changes after it was cached: the cache is right exactly when the name does not fit or became what was cached. */
  lemma AnnouncedAgrees(s: seq<Dentry>, before: Dirs, after: Dirs, dir: nat, name: Name, ino: nat, ftype: byte)
    requires Housed(s) && Agrees(s, before) && OnlyChanged(before, after, dir, name) && name != DOTDOT && ino != 0
    ensures Agrees(Put(s, dir, name, ino, ftype), after) <==>
            |name| > DCACHE_NAME_MAX || Truth(after, dir, name) == Found(ino, ftype)
  {
    hide Idx, Truth;
    PutSlots(s, dir, name, ino, ftype);
    var r := Put(s, dir, name, ino, ftype);
    if |name| > DCACHE_NAME_MAX || Truth(after, dir, name) == Found(ino, ftype) {
      forall i | 0 <= i < |r| ensures Right(r[i], after) {
        assert Right(s[i], before) && AtHome(s, i);
      }
    } else {
      assert !Right(r[Idx(dir, name)], after);
    }
  }

  /** A slot about ".." survives the removal of its directory and is wrong when the number is given to a directory elsewhere. */
  lemma DotdotStale(tree: Dirs, dir: nat, raw: Block, old_parent: nat, parent: nat, e: Dentry)
    requires Need(MAX_NAME) <= |raw| < 0x1_0000 && 0 < dir < 0x1_0000_0000 && 0 < parent < 0x1_0000_0000 && old_parent != 0
    requires Hits(e, dir, DOTDOT) && AnswerOf(e) == Found(old_parent, FT_DIR)
    ensures AnswerOf(e) == Truth(tree[dir := [Data(FreshBlock(raw, dir, parent))]], dir, DOTDOT) <==> parent == old_parent
  {
    hide FreshBlock;
    FreshOrderly(raw, dir, parent);
  }
}
