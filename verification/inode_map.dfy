/** The 15 block pointers of an inode as one forest: the blocks a file owns and the physical block of
    each logical one (kernel/src/ext2.rs:592-639). */
module InodeMap {
  import opened Basics
  import opened BlockTree
  import opened BlockRoutes

  const SLOTS: nat := 15

  /** The blocks below the first `k` pointers. */
  ghost function Roots(d: Disk, blk: seq<nat>, k: nat): multiset<nat>
    requires k <= |blk|
  {
    if k == 0 then multiset{} else Roots(d, blk, k - 1) + Nodes(d, blk[k - 1], SlotLevel(k - 1))
  }

  /** Every block the file owns, data and indirect. */
  ghost function Owned(d: Disk, blk: seq<nat>): multiset<nat>
    requires |blk| == SLOTS
  {
    Roots(d, blk, SLOTS)
  }

  /** Physical block of logical block `l`; 0 is a hole. */
  ghost function Map(d: Disk, blk: seq<nat>, l: nat, p: nat): nat
    requires |blk| == SLOTS && p > 0
  {
    var r := RouteOf(p, l);
    if r.None? then 0 else (RouteMeaning(p, l); Follow(d, blk[r.value.slot], r.value.path))
  }

  /** What the block map answers, told by the pointers alone: logical block `l` is one of the 12 direct ones, or lies
      below the single, the double or the triple indirect block, or beyond. */
  ghost predicate Answers(d: Disk, blk: seq<nat>, p: nat, l: nat, b: nat)
    requires |blk| == SLOTS && p > 0
  {
    && (l < 12 ==> b == blk[l])
    && (forall i: nat :: i < p && l == 12 + i ==> b == Follow(d, blk[12], [i]))
    && (forall i: nat, j: nat :: i < p && j < p && l == 12 + p + i * p + j ==> b == Follow(d, blk[13], [i, j]))
    && (forall i: nat, j: nat, k: nat :: i < p && j < p && k < p && l == 12 + p + p * p + (i * p + j) * p + k ==>
          b == Follow(d, blk[14], [i, j, k]))
    && (l >= 12 + p + p * p + p * p * p ==> b == 0)
  }

  lemma MapAnswers(d: Disk, blk: seq<nat>, p: nat, l: nat)
    requires |blk| == SLOTS && p > 0
    ensures Answers(d, blk, p, l, Map(d, blk, l, p))
  {
    hide RouteOf;
    var b := Map(d, blk, l, p);
    RoutesReach(p, l);
    if l < 12 { DirectRoute(p, l); FollowEnds(d, blk[l], []); }
    forall i: nat | i < p && l == 12 + i ensures b == Follow(d, blk[12], [i]) { SingleRoute(p, i); }
    forall i: nat, j: nat | i < p && j < p && l == 12 + p + i * p + j ensures b == Follow(d, blk[13], [i, j]) { DoubleRoute(p, i, j); }
    forall i: nat, j: nat, k: nat | i < p && j < p && k < p && l == 12 + p + p * p + (i * p + j) * p + k
      ensures b == Follow(d, blk[14], [i, j, k])
    {
      TripleRouteFound(p, i, j, k);
    }
  }

  /** The file's blocks are distinct blocks of a disk of `bs`-byte blocks. */
  ghost predicate SoundFile(d: Disk, blk: seq<nat>, bs: nat)
  {
    |blk| == SLOTS && Sized(d, bs) && bs >= 4 && Sound(d, Owned(d, blk))
  }

  lemma {:induction false} RootsMember(d: Disk, blk: seq<nat>, k: nat, s: nat, x: nat)
    requires s < k <= |blk|
    ensures Nodes(d, blk[s], SlotLevel(s))[x] <= Roots(d, blk, k)[x]
  {
    hide Nodes;
    if s < k - 1 { RootsMember(d, blk, k - 1, s, x); }
  }

  lemma {:induction false} RootsTwo(d: Disk, blk: seq<nat>, k: nat, s: nat, t: nat, x: nat)
    requires s < t < k <= |blk|
    ensures Nodes(d, blk[s], SlotLevel(s))[x] + Nodes(d, blk[t], SlotLevel(t))[x] <= Roots(d, blk, k)[x]
  {
    hide Nodes;
    if t < k - 1 { RootsTwo(d, blk, k - 1, s, t, x); } else { RootsMember(d, blk, k - 1, s, x); }
  }

  lemma RootsDisjoint(d: Disk, blk: seq<nat>, s: nat, t: nat, x: nat)
    requires |blk| == SLOTS && s < SLOTS && t < SLOTS && s != t && NoAlias(Owned(d, blk))
    requires x in Nodes(d, blk[s], SlotLevel(s))
    ensures x !in Nodes(d, blk[t], SlotLevel(t))
  {
    hide Nodes, Roots;
    if s < t { RootsTwo(d, blk, SLOTS, s, t, x); } else { RootsTwo(d, blk, SLOTS, t, s, x); }
  }

  lemma SoundSlot(d: Disk, blk: seq<nat>, s: nat)
    requires |blk| == SLOTS && s < SLOTS && Sound(d, Owned(d, blk))
    ensures Sound(d, Nodes(d, blk[s], SlotLevel(s)))
    ensures forall x :: x in Nodes(d, blk[s], SlotLevel(s)) ==> x in Owned(d, blk)
  {
    hide Nodes, Roots;
    var c := Nodes(d, blk[s], SlotLevel(s));
    forall x: nat ensures c[x] <= Owned(d, blk)[x] { RootsMember(d, blk, SLOTS, s, x); }
    PartOf(c, Owned(d, blk));
  }

  /** The same pointers and trees, but for slot `s`. */
  lemma {:induction false} RootsReplace(d: Disk, e: Disk, blk: seq<nat>, blk': seq<nat>, s: nat, k: nat)
    requires |blk| == |blk'| && k <= |blk| && s < |blk|
    requires forall t :: 0 <= t < |blk| && t != s ==>
               Nodes(e, blk'[t], SlotLevel(t)) == Nodes(d, blk[t], SlotLevel(t))
    ensures s < k ==> Roots(e, blk', k) + Nodes(d, blk[s], SlotLevel(s)) == Roots(d, blk, k) + Nodes(e, blk'[s], SlotLevel(s))
    ensures s >= k ==> Roots(e, blk', k) == Roots(d, blk, k)
  {
    hide Nodes;
    if k > 0 {
      RootsReplace(d, e, blk, blk', s, k - 1);
      RootsStep(d, blk, k);
      RootsStep(e, blk', k);
      hide Roots;
      if s < k - 1 {
        SwapIn(Roots(e, blk', k - 1), Nodes(d, blk[k - 1], SlotLevel(k - 1)), Nodes(d, blk[s], SlotLevel(s)),
               Roots(d, blk, k - 1), Nodes(e, blk'[s], SlotLevel(s)));
      } else if s == k - 1 {
        SwapEnd(Roots(d, blk, k - 1), Nodes(e, blk'[s], SlotLevel(s)), Nodes(d, blk[s], SlotLevel(s)));
      }
    }
  }

  lemma RootsStep(d: Disk, blk: seq<nat>, k: nat)
    requires 0 < k <= |blk|
    ensures Roots(d, blk, k) == Roots(d, blk, k - 1) + Nodes(d, blk[k - 1], SlotLevel(k - 1))
  {
  }

  lemma SwapIn(a: multiset<nat>, n: multiset<nat>, x: multiset<nat>, b: multiset<nat>, y: multiset<nat>)
    requires a + x == b + y
    ensures (a + n) + x == (b + n) + y
  {
    forall z: nat ensures ((a + n) + x)[z] == ((b + n) + y)[z] { assert (a + x)[z] == (b + y)[z]; }
  }

  lemma SwapEnd(a: multiset<nat>, x: multiset<nat>, y: multiset<nat>)
    ensures (a + x) + y == (a + y) + x
  {
  }

  // ---------------------------------------------------------------- one more block

  /** What hanging a fresh block on the route (s, path) may do to route (t, q): nothing, except that
      the route itself may stop being a hole; a mapped block keeps its contents. */
  ghost predicate RouteKept(d: Disk, blk: seq<nat>, e: Disk, blk': seq<nat>, s: nat, path: seq<nat>, t: nat, q: seq<nat>)
    requires |blk| == |blk'| == SLOTS && t < SLOTS
  {
    var x := Follow(d, blk[t], q);
    && (t != s || q != path ==> Follow(e, blk'[t], q) == x)
    && (x != 0 ==> Follow(e, blk'[t], q) == x && (x < |d| && x < |e| ==> e[x] == d[x]))
  }

  ghost predicate Kept(d: Disk, blk: seq<nat>, e: Disk, blk': seq<nat>, s: nat, path: seq<nat>, bs: nat)
    requires |blk| == |blk'| == SLOTS
  {
    forall t, q :: 0 <= t < SLOTS && |q| == SlotLevel(t) && IsPath(q, bs) ==> RouteKept(d, blk, e, blk', s, path, t, q)
  }

  lemma KeptReflexive(d: Disk, blk: seq<nat>, s: nat, path: seq<nat>, bs: nat)
    requires |blk| == SLOTS
    ensures Kept(d, blk, d, blk, s, path, bs)
  {
  }

  lemma KeptTransitive(d: Disk, blk: seq<nat>, e: Disk, blk': seq<nat>, f: Disk, blk'': seq<nat>, s: nat, path: seq<nat>, bs: nat)
    requires |blk| == |blk'| == |blk''| == SLOTS && |d| == |e| == |f|
    requires Kept(d, blk, e, blk', s, path, bs) && Kept(e, blk', f, blk'', s, path, bs)
    ensures Kept(d, blk, f, blk'', s, path, bs)
  {
    hide Follow;
    forall t, q | 0 <= t < SLOTS && |q| == SlotLevel(t) && IsPath(q, bs)
      ensures RouteKept(d, blk, f, blk'', s, path, t, q)
    {
      assert RouteKept(d, blk, e, blk', s, path, t, q);
      assert RouteKept(e, blk', f, blk'', s, path, t, q);
    }
  }

  /** Blocks in other slots are out of reach of a change below slot `s` and of fresh blocks. */
  lemma OtherSlot(d: Disk, e: Disk, blk: seq<nat>, bs: nat, s: nat, t: nat)
    requires SoundFile(d, blk, bs) && s < SLOTS && t < SLOTS && s != t && |e| == |d|
    requires forall y :: 0 <= y < |d| ==> e[y] == d[y] || y !in Owned(d, blk) || y in Nodes(d, blk[s], SlotLevel(s))
    ensures Agree(d, e, Nodes(d, blk[t], SlotLevel(t)))
    ensures Nodes(e, blk[t], SlotLevel(t)) == Nodes(d, blk[t], SlotLevel(t))
    ensures forall q :: |q| <= SlotLevel(t) ==> Follow(e, blk[t], q) == Follow(d, blk[t], q)
  {
    hide Nodes, Roots, Follow;
    SoundSlot(d, blk, t);
    forall y | y in Nodes(d, blk[t], SlotLevel(t)) && y < |d| ensures d[y] == e[y] {
      RootsDisjoint(d, blk, t, s, y);
    }
    NodesFrame(d, e, blk[t], SlotLevel(t));
    forall q | |q| <= SlotLevel(t) ensures Follow(e, blk[t], q) == Follow(d, blk[t], q) {
      FollowFrame(d, e, blk[t], q, SlotLevel(t));
    }
  }

  /** A fresh block as the root of slot `s`. */
  lemma GraftRoot(d: Disk, e: Disk, blk: seq<nat>, s: nat, x: nat, path: seq<nat>, bs: nat)
    requires SoundFile(d, blk, bs) && s < SLOTS && blk[s] == 0 && |path| == SlotLevel(s) && IsPath(path, bs)
    requires 0 < x < |d| && x !in Owned(d, blk) && e == d[x := Zeros(bs)]
    ensures SoundFile(e, blk[s := x], bs)
    ensures Owned(e, blk[s := x]) == Owned(d, blk) + multiset{x}
    ensures Kept(d, blk, e, blk[s := x], s, path, bs)
    ensures Follow(e, x, []) == x && (path != [] ==> Follow(e, x, path) == 0)
  {
    hide Nodes, Forest, Roots, Follow, Ptrs, Zeros;
    var blk' := blk[s := x];
    NoNodes(d, SlotLevel(s));
    FreshNodes(e, x, SlotLevel(s), bs);
    forall t | 0 <= t < SLOTS && t != s ensures Nodes(e, blk'[t], SlotLevel(t)) == Nodes(d, blk[t], SlotLevel(t)) {
      OtherSlot(d, e, blk, bs, s, t);
    }
    RootsReplace(d, e, blk, blk', s, SLOTS);
    Added(d, e, blk, blk', x);
    FollowEnds(e, x, []);
    forall q | q != [] && IsPath(q, bs) ensures Follow(e, x, q) == 0 {
      NullFollow(e, x, q, bs);
    }
    forall t, q | 0 <= t < SLOTS && |q| == SlotLevel(t) && IsPath(q, bs)
      ensures RouteKept(d, blk, e, blk', s, path, t, q)
    {
      if t == s {
        FollowEnds(d, 0, q);
      } else {
        OtherSlot(d, e, blk, bs, s, t);
        SoundSlot(d, blk, t);
        if Follow(d, blk[t], q) != 0 { FollowInNodes(d, blk[t], q, SlotLevel(t), bs); }
      }
    }
  }

  lemma NullFollow(e: Disk, x: nat, q: seq<nat>, bs: nat)
    requires 0 < x < |e| && e[x] == Zeros(bs) && q != [] && IsPath(q, bs)
    ensures Follow(e, x, q) == 0
  {
    hide Follow;
    PtrsZeros(bs);
    FollowStep(e, x, q);
    FollowEnds(e, x, q[1..]);
  }

  /** One fresh block more keeps a file sound. */
  lemma Added(d: Disk, e: Disk, blk: seq<nat>, blk': seq<nat>, x: nat)
    requires |blk| == |blk'| == SLOTS && |e| == |d| && Sound(d, Owned(d, blk)) && 0 < x < |d| && x !in Owned(d, blk)
    requires Owned(e, blk') == Owned(d, blk) + multiset{x}
    ensures Sound(e, Owned(e, blk'))
  {
    hide Roots;
    forall y: nat ensures Owned(e, blk')[y] <= 1 {
      assert Owned(e, blk')[y] == Owned(d, blk)[y] + if y == x then 1 else 0;
    }
  }

  /** A fresh block hung on a null pointer of an indirect block on the route. */
  lemma GraftBelow(d: Disk, e: Disk, blk: seq<nat>, s: nat, k: nat, x: nat, path: seq<nat>, bs: nat)
    requires SoundFile(d, blk, bs) && s < SLOTS && blk[s] != 0 && |path| == SlotLevel(s) && IsPath(path, bs) && k < |path|
    requires Follow(d, blk[s], path[..k]) != 0 && Grafted(d, e, Follow(d, blk[s], path[..k]), path[k], x, bs)
    requires 0 < x && x !in Owned(d, blk)
    ensures SoundFile(e, blk, bs)
    ensures Owned(e, blk) == Owned(d, blk) + multiset{x}
    ensures Kept(d, blk, e, blk, s, path, bs)
    ensures Follow(e, blk[s], path[..k + 1]) == x
    ensures Follow(e, blk[s], path) == if k + 1 == |path| then x else 0
  {
    hide Nodes, Forest, Roots, Follow, Ptrs, Zeros;
    var level, stem := SlotLevel(s), path[..k];
    var b := Follow(d, blk[s], stem);
    SoundSlot(d, blk, s);
    FollowInNodes(d, blk[s], stem, level, bs);
    GraftNodes(d, e, blk[s], level, stem, path[k], x, bs);
    forall t | 0 <= t < SLOTS && t != s ensures Nodes(e, blk[t], SlotLevel(t)) == Nodes(d, blk[t], SlotLevel(t)) {
      OtherSlot(d, e, blk, bs, s, t);
    }
    RootsReplace(d, e, blk, blk, s, SLOTS);
    Cancel(Owned(e, blk), Nodes(d, blk[s], level), Owned(d, blk), multiset{x});
    Added(d, e, blk, blk, x);
    assert path[..k + 1] == stem + [path[k]];
    GraftFollow(d, e, blk[s], level, stem, path[k], x, bs, path[..k + 1]);
    GraftFollow(d, e, blk[s], level, stem, path[k], x, bs, path);
    forall t, q | 0 <= t < SLOTS && |q| == SlotLevel(t) && IsPath(q, bs)
      ensures RouteKept(d, blk, e, blk, s, path, t, q)
    {
      GraftedRoute(d, e, blk, s, k, x, path, bs, t, q);
    }
  }

  lemma GraftedRoute(d: Disk, e: Disk, blk: seq<nat>, s: nat, k: nat, x: nat, path: seq<nat>, bs: nat, t: nat, q: seq<nat>)
    requires SoundFile(d, blk, bs) && s < SLOTS && blk[s] != 0 && |path| == SlotLevel(s) && IsPath(path, bs) && k < |path|
    requires Follow(d, blk[s], path[..k]) != 0 && Grafted(d, e, Follow(d, blk[s], path[..k]), path[k], x, bs)
    requires 0 < x && x !in Owned(d, blk)
    requires t < SLOTS && |q| == SlotLevel(t) && IsPath(q, bs)
    ensures RouteKept(d, blk, e, blk, s, path, t, q)
  {
    hide Nodes, Forest, Roots, Follow, Ptrs, Zeros;
    var level, stem := SlotLevel(s), path[..k];
    SoundSlot(d, blk, s);
    SoundSlot(d, blk, t);
    FollowInNodes(d, blk[s], stem, level, bs);
    var y := Follow(d, blk[t], q);
    if y != 0 { FollowInNodes(d, blk[t], q, SlotLevel(t), bs); }
    if t == s {
      assert path[..k + 1] == stem + [path[k]];
      GraftFollow(d, e, blk[s], level, stem, path[k], x, bs, q);
      if y != 0 { FollowDistinct(d, blk[s], level, stem, q, bs); }
    } else {
      OtherSlot(d, e, blk, bs, s, t);
      if y != 0 { RootsDisjoint(d, blk, s, t, Follow(d, blk[s], stem)); }
    }
  }
}
