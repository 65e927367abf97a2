/** The climb of is_ancestor (kernel/src/ext2.rs:1398-1405), which asks the name cache for "..": what it finds, and when
    that is the truth. */
module Climbs {
  import opened Basics
  import opened DirBlocks
  import opened DirListings
  import opened NameCache
  import opened NamespaceTrees

  const EIO: nat := 5
  const ENOTDIR: nat := 20
  const CLIMB_MAX: nat := 256

  /** What the climb finds: the directory, the root or the end of its steps, or an error. */
  datatype Verdict = Meets | Clear | Broken(error: nat)

  /** At most `n` steps up from `b`, through cached answers where there are some, and the slots afterwards. */
  function Climb(s: seq<Dentry>, dirs: Dirs, gone: set<nat>, a: Ino, b: Ino, n: nat): (r: (Verdict, seq<Dentry>))
    requires |s| == DCACHE_SLOTS
    ensures |r.1| == DCACHE_SLOTS
    decreases n
  {
    if n == 0 then (Clear, s)
    else if a == b then (Meets, s)
    else if b == ROOT then (Clear, s)
    else
      var (r, t) := Looked(s, dirs, gone, b, DOTDOT);
      match r
      case Err(_) => (Broken(ENOTDIR), t)
      case Ok(Absent) => (Broken(EIO), t)
      case Ok(Found(p, _)) => Climb(t, dirs, gone, a, p, n - 1)
  }

  /** The same climb through the parents that the directories really record. */
  function TrueClimb(up: map<Ino, Ino>, a: Ino, b: Ino, n: nat): Verdict
    decreases n
  {
    if n == 0 then Clear else if a == b then Meets else if b == ROOT || b !in up then Clear else TrueClimb(up, a, up[b], n - 1)
  }

  /** Every directory records the parent that `up` says, and that is a directory. */
  ghost predicate Records(dirs: Dirs, up: map<Ino, Ino>)
  {
    forall d :: d in dirs ==> d in up && up[d] in dirs && Ask(dirs[d], DOTDOT) == Found(up[d], FT_DIR) && up[d] != 0
  }

  /** What is cached about ".." of `b`, if anything, is its real parent. */
  predicate Honest(s: seq<Dentry>, up: map<Ino, Ino>, b: Ino)
    requires |s| == DCACHE_SLOTS
  {
    Hits(s[Idx(b, DOTDOT)], b, DOTDOT) ==> b in up && s[Idx(b, DOTDOT)].ino == up[b] && up[b] != 0
  }

  /** Nothing wrong is cached about ".." of the first `n` directories on the way up from `b`. */
  ghost predicate HonestWay(s: seq<Dentry>, up: map<Ino, Ino>, b: Ino, n: nat)
    requires |s| == DCACHE_SLOTS
  {
    forall m: nat :: m < n ==> Honest(s, up, UpN(up, b, m))
  }

  /** Caching a real parent makes nothing dishonest. */
  lemma NotedHonest(s: seq<Dentry>, up: map<Ino, Ino>, b: Ino, ft: byte, c: Ino)
    requires |s| == DCACHE_SLOTS && Honest(s, up, c) && b in up && up[b] != 0
    ensures Honest(Noted(s, b, DOTDOT, Found(up[b], ft)), up, c)
  {
    hide Idx;
  }

  /** With nothing wrong cached on the way, the climb finds what is really there. */
  lemma {:induction false} ClimbRight(s: seq<Dentry>, dirs: Dirs, gone: set<nat>, up: map<Ino, Ino>, a: Ino, b: Ino, n: nat)
    requires |s| == DCACHE_SLOTS && Records(dirs, up) && b in dirs && HonestWay(s, up, b, n)
    ensures Climb(s, dirs, gone, a, b, n).0 == TrueClimb(up, a, b, n)
    decreases n
  {
    hide Idx, Ask, Noted, Honest;
    if n > 0 && a != b && b != ROOT {
      Nowhere(up, b);
      assert Honest(s, up, b);
      LookedHonest(s, dirs, gone, up, b);
      var t := Looked(s, dirs, gone, b, DOTDOT).1;
      forall m: nat | m < n - 1 ensures Honest(t, up, UpN(up, up[b], m)) {
        assert UpN(up, b, m + 1) == UpN(up, up[b], m);
        LookedKeepsHonest(s, dirs, gone, up, b, UpN(up, b, m + 1));
      }
      ClimbRight(t, dirs, gone, up, a, up[b], n - 1);
    }
  }

  lemma LookedHonest(s: seq<Dentry>, dirs: Dirs, gone: set<nat>, up: map<Ino, Ino>, b: Ino)
    requires |s| == DCACHE_SLOTS && Records(dirs, up) && b in dirs && Honest(s, up, b)
    ensures var r := Looked(s, dirs, gone, b, DOTDOT).0; r.Ok? && r.value.Found? && b in up && r.value.ino == up[b]
  {
    hide Idx, Ask;
  }

  lemma LookedKeepsHonest(s: seq<Dentry>, dirs: Dirs, gone: set<nat>, up: map<Ino, Ino>, b: Ino, c: Ino)
    requires |s| == DCACHE_SLOTS && Records(dirs, up) && b in dirs && Honest(s, up, c)
    ensures Honest(Looked(s, dirs, gone, b, DOTDOT).1, up, c)
  {
    hide Idx, Ask;
    NotedHonest(s, up, b, FT_DIR, c);
  }

  /** In a tree the real climb meets exactly the directories that lie above, if it gets to the root in time. */
  lemma TrueClimbAbove(t: Tree, a: Ino, b: Ino, n: nat)
    requires TreeOk(t) && IsDir(t, b) && a != ROOT
    ensures TrueClimb(t.up, a, b, n) == Meets ==> Above(t.up, a, b)
    ensures TrueClimb(t.up, a, b, n) != Meets && (exists k: nat :: k < n && UpN(t.up, b, k) == ROOT) ==> !Above(t.up, a, b)
  {
    hide TreeOk, UpN;
    if TrueClimb(t.up, a, b, n) == Meets {
      TrueClimbMeets(t.up, a, b, n);
    } else if k: nat :| k < n && UpN(t.up, b, k) == ROOT {
      RootIsDir(t);
      DirAt(t, b);
      TrueClimbMisses(t.up, a, b, n, k);
    }
  }

  lemma {:induction false} TrueClimbMeets(up: map<Ino, Ino>, a: Ino, b: Ino, n: nat)
    requires TrueClimb(up, a, b, n) == Meets
    ensures Above(up, a, b)
    decreases n
  {
    if a == b {
      assert UpN(up, b, 0) == a;
    } else {
      TrueClimbMeets(up, a, up[b], n - 1);
      var m: nat :| UpN(up, up[b], m) == a;
      assert UpN(up, b, m + 1) == a;
    }
  }

  lemma {:induction false} TrueClimbMisses(up: map<Ino, Ino>, a: Ino, b: Ino, n: nat, k: nat)
    requires k < n && UpN(up, b, k) == ROOT && ROOT in up && up[ROOT] == ROOT && a != ROOT
    requires TrueClimb(up, a, b, n) != Meets
    ensures !Above(up, a, b)
    decreases n
  {
    if b == ROOT || b !in up {
      forall m: nat ensures UpN(up, b, m) != a {
        if b == ROOT { StaysAtRoot(up, m); } else { NoWayUp(up, b, m); NoWayUp(up, b, k); }
      }
    } else {
      TrueClimbMisses(up, a, up[b], n - 1, k - 1);
      forall m: nat ensures UpN(up, b, m) != a {
        if m > 0 { assert UpN(up, b, m) == UpN(up, up[b], m - 1); }
      }
    }
  }
}
