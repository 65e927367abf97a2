/** What a cached ".." that outlived its directory does to rename: a run in which the tree breaks, and when it cannot
    (kernel/src/ext2.rs:915-922, kernel/src/ext2.rs:1398-1412). */
module StaleParents {
  import opened Basics
  import opened NamespaceTrees
  import opened DirBlocks
  import opened DirListings
  import opened NameCache
  import opened Climbs
  import opened Namespaces
  import B = BlockTree

  // ---------------------------------------------------------------- when the climb is right

  /** Looking up a name never makes a cached ".." wrong. */
  lemma NameHonest(s: seq<Dentry>, dirs: Dirs, gone: set<nat>, up: map<Ino, Ino>, dir: Ino, name: Name, b: Ino)
    requires |s| == DCACHE_SLOTS && name != DOTDOT && Honest(s, up, b)
    ensures Honest(Looked(s, dirs, gone, dir, name).1, up, b)
  {
    hide Idx, Ask;
  }

  /** Less than 256 levels deep, a rename is refused rightly if no directory on the way up from the new parent has a
      cached ".." other than its real one. */
  lemma RightlyForeseen(s: seq<Dentry>, dirs: Dirs, gone: set<nat>, t: Tree, types: map<Key, byte>, from: Key, to: Key)
    requires |s| == DCACHE_SLOTS && TreeOk(t) && Mirrors(dirs, t, types) && Climbed(t, from, to) && IsDir(t, to.dir)
    requires Proper(from.name) && Shallow(t.up, to.dir) && HonestWay(s, t.up, to.dir, CLIMB_MAX)
    ensures Foreseen(s, dirs, gone, t, from, to) == if IntoItself(t, from, to) then Meets else Clear
  {
    hide TreeOk, Mirrors, Looked, Honest, Idx, Above, TrueClimb, Climb, UpN;
    var u := Looked(s, dirs, gone, from.dir, from.name).1;
    MirrorRecords(dirs, t, types);
    MirrorDirs(dirs, t, types, to.dir);
    EntryAt(t, from);
    forall m: nat | m < CLIMB_MAX ensures Honest(u, t.up, UpN(t.up, to.dir, m)) {
      NameHonest(s, dirs, gone, t.up, from.dir, from.name, UpN(t.up, to.dir, m));
    }
    ClimbRight(u, dirs, gone, t.up, t.entries[from], to.dir, CLIMB_MAX);
    TrueClimbAbove(t, t.entries[from], to.dir, CLIMB_MAX);
    TrueClimbWhole(t.up, t.entries[from], to.dir, CLIMB_MAX);
  }

  lemma {:induction false} TrueClimbWhole(up: map<Ino, Ino>, a: Ino, b: Ino, n: nat)
    ensures !TrueClimb(up, a, b, n).Broken?
    decreases n
  {
    if n > 0 && a != b && b != ROOT && b in up { TrueClimbWhole(up, a, up[b], n - 1); }
  }

  /** So whenever a rename is refused wrongly, or let through wrongly, some directory on the way up is to blame. */
  lemma MisledBySomeone(s: seq<Dentry>, dirs: Dirs, gone: set<nat>, t: Tree, types: map<Key, byte>, from: Key, to: Key)
    requires |s| == DCACHE_SLOTS && TreeOk(t) && Mirrors(dirs, t, types) && Climbed(t, from, to) && IsDir(t, to.dir)
    requires Proper(from.name) && Shallow(t.up, to.dir)
    requires Foreseen(s, dirs, gone, t, from, to) != if IntoItself(t, from, to) then Meets else Clear
    ensures exists m: nat :: m < CLIMB_MAX && !Honest(s, t.up, UpN(t.up, to.dir, m))
  {
    hide TreeOk, Mirrors, Looked, Honest, Climb, UpN, Foreseen, IntoItself;
    if HonestWay(s, t.up, to.dir, CLIMB_MAX) { RightlyForeseen(s, dirs, gone, t, types, from, to); }
  }

  // ---------------------------------------------------------------- hashes of short names, by their low bits

  lemma XorStep(a: nat, b: nat)
    ensures Xor(a, b) == 2 * Xor(a / 2, b / 2) + (a + b) % 2
  {
  }

  function Pow2(k: nat): (r: nat)
    ensures r > 0
  {
    if k == 0 then 1 else 2 * Pow2(k - 1)
  }

  /** Numbers without a bit in common add up. */
  lemma {:induction false} XorApart(q: nat, c: nat, k: nat, low: nat)
    requires c < Pow2(k) && low == q * Pow2(k)
    ensures Xor(low, c) == low + c
    decreases k
  {
    hide Xor;
    if k == 0 {
      XorZero(low);
    } else {
      var half := q * Pow2(k - 1);
      assert low == 2 * half;
      XorApart(q, c / 2, k - 1, half);
      XorStep(low, c);
    }
  }

  lemma {:induction false} XorZero(a: nat)
    ensures Xor(a, 0) == a
  {
    if a > 0 { XorZero(a / 2); }
  }

  /** The two lowest bits of a slot. */
  lemma IdxLow(dir: nat, name: Name, m: nat)
    requires Mix(dir, name) == m
    ensures var q := m / 0x1_0000; Idx(dir, name) % 4 == (q + m) % 2 + 2 * ((q / 2 + m / 2) % 2)
  {
    hide Xor, Mix;
    var q := m / 0x1_0000;
    XorLow(q, m);
    LastTwo(Xor(q, m));
  }

  lemma XorLow(a: nat, b: nat)
    ensures Xor(a, b) % 4 == (a + b) % 2 + 2 * ((a / 2 + b / 2) % 2)
  {
    hide Xor;
    XorStep(a, b);
    XorStep(a / 2, b / 2);
  }

  lemma LastTwo(x: nat)
    ensures x % DCACHE_SLOTS % 4 == x % 4
  {
  }

  const C: nat := 0x9E37_79B9_7F4A_7C15
  const P: nat := 0x1000_0000_01B3

  /** The hash of one letter in a directory whose number is a multiple of 256. */
  lemma MixOne(dir: nat, c: byte)
    requires dir % 0x100 == 0
    ensures Mix(dir, [c]) == (dir * C % U64 + c) * P % U64
  {
    hide Xor;
    assert [c][..0] == [];
    var h := dir * C % U64;
    Low(dir / 0x100);
    assert Pow2(8) == 256;
    XorApart(h / 0x100, c, 8, h);
  }

  lemma Low(k: nat)
    ensures 0x100 * k * C % U64 % 0x100 == 0
  {
    var x := k * C;
    var q := 0x100 * x / U64;
    Multiple(x - 0x100_0000_0000_0000 * q);
  }

  lemma Multiple(y: int)
    ensures 0x100 * y % 0x100 == 0
  {
  }

  /** And of "..". */
  lemma MixTwo(dir: nat)
    requires Mix(dir, [46]) % 0x100 == 42
    ensures Mix(dir, DOTDOT) == (Mix(dir, [46]) - 38) * P % U64
  {
    hide Xor;
    assert DOTDOT[..1] == [46];
    XorTail(Mix(dir, [46]) / 0x100);
  }

  lemma XorTail(q: nat)
    ensures Xor(0x100 * q + 42, 46) == 0x100 * q + 4
  {
    hide Xor;
    XorStep(0x100 * q + 42, 46);
    XorStep(128 * q + 21, 23);
    XorStep(64 * q + 10, 11);
    XorEnd(q);
  }

  lemma XorEnd(q: nat)
    ensures Xor(32 * q + 5, 5) == 32 * q
  {
    hide Xor;
    XorStep(32 * q + 5, 5);
    XorStep(16 * q + 2, 2);
    XorStep(8 * q + 1, 1);
    XorZero(4 * q);
  }

  lemma SlotOne(dir: nat, c: byte, m: nat, low: nat)
    requires dir % 0x100 == 0 && (dir * C % U64 + c) * P % U64 == m
    requires var q := m / 0x1_0000; (q + m) % 2 + 2 * ((q / 2 + m / 2) % 2) == low
    ensures Idx(dir, [c]) % 4 == low
  {
    hide Idx, Mix;
    MixOne(dir, c);
    IdxLow(dir, [c], m);
  }

  lemma SlotTwo()
    ensures Idx(256, DOTDOT) % 4 == 2
  {
    hide Idx, Mix;
    MixOne(256, 46);
    assert Mix(256, [46]) == 0x0529_134B_90D7_FD2A;
    MixTwo(256);
    assert Mix(256, DOTDOT) == 0x449C_0967_1F02_EDCC;
    IdxLow(256, DOTDOT, 0x449C_0967_1F02_EDCC);
  }

  /** Four directories and their names, in different slots of the cache. */
  lemma SlotsApart()
    ensures Idx(512, [120]) != Idx(256, DOTDOT) && Idx(768, [120]) != Idx(256, DOTDOT) && Idx(1024, [112]) != Idx(256, DOTDOT)
  {
    hide Idx, Mix;
    SlotTwo();
    SlotOne(512, 120, 0x0A53_E697_21B0_29E8, 0);
    SlotOne(768, 120, 0x0F7A_19E2_B287_D8E8, 3);
    SlotOne(1024, 112, 0x149F_CD2E_435F_7A50, 3);
  }

  // ---------------------------------------------------------------- what the slots hold through the run

  /** The slot for ".." of `x` says `a`. */
  ghost predicate Stale(s: seq<Dentry>, x: Ino, a: Ino)
  {
    |s| == DCACHE_SLOTS && s[Idx(x, DOTDOT)] == Dentry(x, a, FT_DIR, DOTDOT, true)
  }

  lemma PutKeeps(s: seq<Dentry>, dir: Ino, name: Name, ino: Ino, ft: byte, x: Ino, a: Ino)
    requires Stale(s, x, a) && Idx(dir, name) != Idx(x, DOTDOT)
    ensures Stale(Put(s, dir, name, ino, ft), x, a)
  {
    hide Idx;
  }

  lemma LookedKeeps(s: seq<Dentry>, dirs: Dirs, gone: set<nat>, dir: Ino, name: Name, x: Ino, a: Ino)
    requires Stale(s, x, a) && Idx(dir, name) != Idx(x, DOTDOT)
    ensures Stale(Looked(s, dirs, gone, dir, name).1, x, a)
  {
    hide Idx, Ask;
  }

  lemma InvalidatedKeeps(s: seq<Dentry>, dir: Ino, name: Name, x: Ino, a: Ino)
    requires Stale(s, x, a) && name != DOTDOT
    ensures Stale(Invalidated(s, dir, name), x, a)
  {
    hide Idx;
  }

  /** Nothing is cached about ".." of `a` as long as nobody asks. */
  lemma PutSilent(s: seq<Dentry>, dir: Ino, name: Name, ino: Ino, ft: byte, a: Ino)
    requires |s| == DCACHE_SLOTS && Silent(s, a, DOTDOT) && (dir != a || name != DOTDOT)
    ensures Silent(Put(s, dir, name, ino, ft), a, DOTDOT)
  {
    hide Idx;
  }

  lemma LookedSilent(s: seq<Dentry>, dirs: Dirs, gone: set<nat>, dir: Ino, name: Name, a: Ino)
    requires |s| == DCACHE_SLOTS && Silent(s, a, DOTDOT) && (dir != a || name != DOTDOT)
    ensures Silent(Looked(s, dirs, gone, dir, name).1, a, DOTDOT)
  {
    hide Idx, Ask, Put, Silent;
    forall ino: nat, ft: byte ensures Silent(Put(s, dir, name, ino, ft), a, DOTDOT) { PutSilent(s, dir, name, ino, ft, a); }
  }

  lemma InvalidatedSilent(s: seq<Dentry>, dir: Ino, name: Name, a: Ino)
    requires |s| == DCACHE_SLOTS && Silent(s, a, DOTDOT)
    ensures Silent(Invalidated(s, dir, name), a, DOTDOT)
  {
    hide Idx;
  }

  /** Asked for the first time, ".." is answered by the directory and cached. */
  lemma FirstAsked(s: seq<Dentry>, dirs: Dirs, gone: set<nat>, up: map<Ino, Ino>, x: Ino)
    requires |s| == DCACHE_SLOTS && Silent(s, x, DOTDOT) && Records(dirs, up) && x in dirs
    ensures var (r, t) := Looked(s, dirs, gone, x, DOTDOT); r == Ok(Found(up[x], FT_DIR)) && Stale(t, x, up[x])
  {
    hide Idx, Ask;
  }

  lemma AskedAgain(s: seq<Dentry>, dirs: Dirs, gone: set<nat>, x: Ino, a: Ino)
    requires Stale(s, x, a) && a != 0
    ensures Looked(s, dirs, gone, x, DOTDOT) == (Ok(Found(a, FT_DIR)), s)
  {
    hide Idx, Ask;
  }

  /** The climb from `x` takes the turn to `a` and misses `p`. */
  lemma WrongTurn(s: seq<Dentry>, dirs: Dirs, gone: set<nat>, up: map<Ino, Ino>, x: Ino, a: Ino, p: Ino)
    requires Stale(s, x, a) && Silent(s, a, DOTDOT) && Records(dirs, up) && a in dirs && up[a] == ROOT
    requires x != p && x != ROOT && a != p && a != ROOT && p != ROOT && a != 0
    ensures Climb(s, dirs, gone, p, x, CLIMB_MAX).0 == Clear
  {
    hide Looked, Silent, Idx;
    AskedAgain(s, dirs, gone, x, a);
    FirstAsked(s, dirs, gone, up, a);
    var t := Looked(s, dirs, gone, a, DOTDOT).1;
    assert Climb(t, dirs, gone, p, ROOT, CLIMB_MAX - 2).0 == Clear;
    assert Climb(s, dirs, gone, p, a, CLIMB_MAX - 1) == Climb(t, dirs, gone, p, ROOT, CLIMB_MAX - 2);
  }

  // ---------------------------------------------------------------- the run

  const NAME_A: Name := [97]
  const NAME_P: Name := [112]
  const NAME_Q: Name := [113]
  const NAME_R: Name := [114]
  const NAME_X: Name := [120]

  /** The slots say nothing about ".." of 512, and about that of 256 nothing, or what `stale` says. */
  ghost predicate Watched(s: seq<Dentry>, stale: bool)
  {
    |s| == DCACHE_SLOTS && Silent(s, 512, DOTDOT) && if stale then Stale(s, 256, 512) else Silent(s, 256, DOTDOT)
  }

  lemma PutWatched(s: seq<Dentry>, dir: Ino, name: Name, ino: Ino, ft: byte, stale: bool)
    requires Watched(s, stale) && name != DOTDOT && (stale ==> Idx(dir, name) != Idx(256, DOTDOT))
    ensures Watched(Put(s, dir, name, ino, ft), stale)
  {
    hide Idx, Put, Stale, Silent;
    PutSilent(s, dir, name, ino, ft, 512);
    if stale { PutKeeps(s, dir, name, ino, ft, 256, 512); } else { PutSilent(s, dir, name, ino, ft, 256); }
  }

  lemma LookedWatched(s: seq<Dentry>, dirs: Dirs, gone: set<nat>, dir: Ino, name: Name, stale: bool)
    requires Watched(s, stale) && name != DOTDOT && (stale ==> Idx(dir, name) != Idx(256, DOTDOT))
    ensures Watched(Looked(s, dirs, gone, dir, name).1, stale)
  {
    hide Idx, Looked, Stale, Silent;
    LookedSilent(s, dirs, gone, dir, name, 512);
    if stale { LookedKeeps(s, dirs, gone, dir, name, 256, 512); } else { LookedSilent(s, dirs, gone, dir, name, 256); }
  }

  /** mkdir of a free name, seen from the two slots. */
  method Made(ns: Namespace, dir: Ino, name: Name, ino: Ino, raw: B.Block, ghost stale: bool)
    requires ns.Valid() && ns.vol.bs == |raw| && Watched(ns.vol.cache[..], stale)
    requires IsDir(ns.View(), dir) && Proper(name) && ino !in ns.kinds && IsNumber(ino) && Key(dir, name) !in ns.entries
    requires stale ==> Idx(dir, name) != Idx(256, DOTDOT)
    modifies ns, ns.vol, ns.vol.cache
    ensures ns.Valid() && ns.View() == DirMade(old(ns.View()), Key(dir, name), ino) && Watched(ns.vol.cache[..], stale)
  {
    hide TreeOk, Mirrors, Looked, Put, Idx, Silent, Stale, Agrees;
    LookedWatched(ns.vol.cache[..], ns.vol.tree, ns.vol.gone, dir, name, stale);
    PutWatched(Looked(ns.vol.cache[..], ns.vol.tree, ns.vol.gone, dir, name).1, dir, name, ino, FT_DIR, stale);
    var r := ns.Mkdir(dir, name, ino, raw, raw);
  }

  /** The tree with /r/p and /a/x. */
  function Before(): Tree
  {
    DirMade(DirMade(WithRoots(), Key(1024, NAME_P), 768), Key(512, NAME_X), 256)
  }

  function Bare(): Tree
  {
    Tree(map[ROOT := Directory], map[ROOT := 2], map[], map[ROOT := ROOT])
  }

  /** The tree with /r and /a. */
  function WithRoots(): Tree
  {
    DirMade(DirMade(Bare(), Key(ROOT, NAME_R), 1024), Key(ROOT, NAME_A), 512)
  }

  /** Each of the four names is free when its turn comes. */
  lemma FreeInTurn()
    ensures var t := Bare(); IsDir(t, ROOT) && 1024 !in t.kinds && Key(ROOT, NAME_R) !in t.entries
    ensures var t := DirMade(Bare(), Key(ROOT, NAME_R), 1024); IsDir(t, ROOT) && 512 !in t.kinds && Key(ROOT, NAME_A) !in t.entries
    ensures var t := WithRoots(); IsDir(t, 1024) && 768 !in t.kinds && Key(1024, NAME_P) !in t.entries
    ensures var t := DirMade(WithRoots(), Key(1024, NAME_P), 768); IsDir(t, 512) && 256 !in t.kinds && Key(512, NAME_X) !in t.entries
  {
  }

  /** mkdir /r, /a, /r/p and /a/x. */
  method Prepare(raw: B.Block) returns (ns: Namespace)
    requires |raw| == 1024
    ensures fresh(ns) && fresh(ns.vol) && fresh(ns.vol.cache) && ns.vol.bs == 1024
    ensures ns.Valid() && ns.View() == Before() && Watched(ns.vol.cache[..], false)
  {
    hide TreeOk, Mirrors, Idx, Agrees, DirMade, Watched;
    ns := new Namespace(1024, raw);
    NoneValid(ns.vol.cache[..]);
    FreeInTurn();
    Made(ns, ROOT, NAME_R, 1024, raw, false);
    Made(ns, ROOT, NAME_A, 512, raw, false);
    Made(ns, 1024, NAME_P, 768, raw, false);
    Made(ns, 512, NAME_X, 256, raw, false);
  }

  lemma NoneValid(s: seq<Dentry>)
    requires |s| == DCACHE_SLOTS && forall i :: 0 <= i < |s| ==> !s[i].valid
    ensures Watched(s, false)
  {
  }

  lemma BeforeFacts()
    ensures var t := Before();
            && IsDir(t, 256) && IsDir(t, 512) && t.up[256] == 512 && Vacant(t, 256)
            && Key(512, NAME_X) in t.entries && t.entries[Key(512, NAME_X)] == 256
  {
  }

  /** The tree with /r/p/x and /a. */
  function After(): Tree
    requires Key(512, NAME_X) in Before().entries
  {
    DirMade(DirRemoved(Before(), Key(512, NAME_X)), Key(768, NAME_X), 256)
  }

  lemma AfterFacts()
    ensures Key(512, NAME_X) in Before().entries
    ensures var t := DirRemoved(Before(), Key(512, NAME_X));
            IsDir(t, 768) && 256 !in t.kinds && Key(768, NAME_X) !in t.entries
    ensures var t := After();
            && IsDir(t, 1024) && IsDir(t, 256) && IsDir(t, 768) && IsDir(t, 512)
            && 512 in t.up && t.up[512] == ROOT && 256 in t.up && t.up[256] == 768 && Key(1024, NAME_P) in t.entries && t.entries[Key(1024, NAME_P)] == 768
            && Key(256, NAME_Q) !in t.entries
  {
  }

  lemma AskedWatched(s: seq<Dentry>, dirs: Dirs, gone: set<nat>, types: map<Key, byte>)
    requires Mirrors(dirs, Before(), types) && TreeOk(Before()) && Watched(s, false)
    ensures Watched(Looked(s, dirs, gone, 256, DOTDOT).1, true)
  {
    hide TreeOk, Mirrors, Looked, Idx, Before, Silent, Stale, Records, Vacant;
    BeforeFacts();
    MirrorRecords(dirs, Before(), types);
    MirrorDirs(dirs, Before(), types, 256);
    FirstAsked(s, dirs, gone, Before().up, 256);
    LookedSilent(s, dirs, gone, 256, DOTDOT, 512);
  }

  /** Then /a/x/.. is resolved, and its answer cached. */
  method AskParent(ns: Namespace)
    requires ns.Valid() && ns.View() == Before() && Watched(ns.vol.cache[..], false)
    modifies ns.vol.cache
    ensures ns.Valid() && Watched(ns.vol.cache[..], true)
  {
    hide TreeOk, Mirrors, Looked, Idx, Agrees, Before, Watched, Vacant, Housed;
    BeforeFacts();
    AskedWatched(ns.vol.cache[..], ns.vol.tree, ns.vol.gone, ns.types);
    var asked := ns.Lookup(256, DOTDOT);
  }

  /** /a/x is removed and /r/p/x made under its number; the answer outlives that. */
  method Outlive(ns: Namespace, raw: B.Block)
    requires ns.Valid() && ns.View() == Before() && Watched(ns.vol.cache[..], true) && |raw| == ns.vol.bs
    modifies ns, ns.vol, ns.vol.cache
    ensures Key(512, NAME_X) in Before().entries && ns.Valid() && ns.View() == After() && Watched(ns.vol.cache[..], true)
  {
    hide TreeOk, Mirrors, Looked, Idx, Agrees, Before, Silent, Stale, Invalidated, Vacant;
    SlotsApart();
    BeforeFacts();
    AfterFacts();
    LookedWatched(ns.vol.cache[..], ns.vol.tree, ns.vol.gone, 512, NAME_X, true);
    InvalidatedWatched(Looked(ns.vol.cache[..], ns.vol.tree, ns.vol.gone, 512, NAME_X).1, 512, NAME_X);
    var removed := ns.Rmdir(512, NAME_X);
    Made(ns, 768, NAME_X, 256, raw, true);
  }

  lemma InvalidatedWatched(s: seq<Dentry>, dir: Ino, name: Name)
    requires Watched(s, true) && name != DOTDOT
    ensures Watched(Invalidated(s, dir, name), true)
  {
    hide Idx, Silent, Stale;
    InvalidatedKeeps(s, dir, name, 256, 512);
    InvalidatedSilent(s, dir, name, 512);
  }

  /** The climb of the rename to come finds nothing, although the directory does lie above. */
  lemma Misled(s: seq<Dentry>, dirs: Dirs, gone: set<nat>, types: map<Key, byte>)
    requires Key(512, NAME_X) in Before().entries && Watched(s, true) && Mirrors(dirs, After(), types) && TreeOk(After())
    ensures Foreseen(s, dirs, gone, After(), Key(1024, NAME_P), Key(256, NAME_Q)) == Clear
  {
    hide TreeOk, Mirrors, Looked, Idx, Before, After, Silent, Stale, Climb, Records;
    var t := After();
    AfterFacts();
    SlotsApart();
    MirrorRecords(dirs, t, types);
    MirrorDirs(dirs, t, types, 512);
    LookedWatched(s, dirs, gone, 1024, NAME_P, true);
    WrongTurn(Looked(s, dirs, gone, 1024, NAME_P).1, dirs, gone, t.up, 256, 512, 768);
  }

  lemma BelowItself()
    ensures Key(512, NAME_X) in Before().entries && IntoItself(After(), Key(1024, NAME_P), Key(256, NAME_Q))
  {
    hide Before, After, UpN;
    AfterFacts();
    OneUp(After().up, 256);
  }

  lemma BothWays(u: Tree)
    requires Key(512, NAME_X) in Before().entries && RenamedTo(After(), u, Key(1024, NAME_P), Key(256, NAME_Q), false)
    ensures 768 in u.up && 256 in u.up && u.up[768] == 256 && u.up[256] == 768
  {
    hide Before, After;
    AfterFacts();
  }

  /** mkdir /r, /a, /r/p, /a/x; resolve /a/x/..; rmdir /a/x; mkdir /r/p/x, which gets the same number; rename /r/p to
      /r/p/x/q. The new ancestors of p are taken from the removed directory, so the rename goes through, and p and
      x lie below each other. */
  method RenameBreaks(raw: B.Block) returns (ns: Namespace)
    requires |raw| == 1024
    ensures ns.Kept() && !TreeOk(ns.View())
    ensures ns.up.Keys >= {256, 768} && ns.up[768] == 256 && ns.up[256] == 768
  {
    hide TreeOk, Mirrors, Looked, Idx, Agrees, Before, After, Watched, Climb, IntoItself, Foreseen, RenamedTo, Housed;
    ns := Prepare(raw);
    AskParent(ns);
    Outlive(ns, raw);
    AfterFacts();
    BelowItself();
    Misled(ns.vol.cache[..], ns.vol.tree, ns.vol.gone, ns.types);
    var r := ns.Rename(1024, NAME_P, 256, NAME_Q, false, raw);
    BothWays(ns.View());
  }
}
