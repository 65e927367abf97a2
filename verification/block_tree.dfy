/** The tree of direct and indirect blocks behind an ext2 inode (kernel/src/ext2.rs:592-664), over the
    logical disk: which blocks it owns, where a path of pointer indices leads, and how one update
    changes both. */
module BlockTree {
  import opened Basics

  type Block = seq<byte>

  // ---------------------------------------------------------------- 32-bit little-endian pointers

  function Word(a: byte, b: byte, c: byte, d: byte): nat
  {
    a + 0x100 * b + 0x1_0000 * c + 0x100_0000 * d
  }

  function Ptr(k: Block, i: nat): nat
    requires 4 * i + 4 <= |k|
  {
    Word(k[4 * i], k[4 * i + 1], k[4 * i + 2], k[4 * i + 3])
  }

  function Bytes(v: nat): (r: Block)
    requires v < 0x1_0000_0000
    ensures |r| == 4 && Word(r[0], r[1], r[2], r[3]) == v
  {
    var q := v / 0x100;
    var r := q / 0x100;
    [v % 0x100, q % 0x100, r % 0x100, r / 0x100]
  }

  /** wr32 at word `i`. */
  function SetPtr(k: Block, i: nat, v: nat): (r: Block)
    requires 4 * i + 4 <= |k| && v < 0x1_0000_0000
    ensures |r| == |k|
  {
    k[..4 * i] + Bytes(v) + k[4 * i + 4..]
  }

  /** The block read as an array of pointers. */
  function Ptrs(k: Block): (r: seq<nat>)
    ensures |r| == |k| / 4
  {
    seq(|k| / 4, i requires 0 <= i < |k| / 4 => Ptr(k, i))
  }

  lemma PtrsSet(k: Block, i: nat, v: nat)
    requires 4 * i + 4 <= |k| && v < 0x1_0000_0000
    ensures Ptrs(SetPtr(k, i, v)) == Ptrs(k)[i := v]
  {
    var r := SetPtr(k, i, v);
    forall j | 0 <= j < |k| / 4 ensures Ptr(r, j) == if j == i then v else Ptr(k, j) {
      if j == i {
        assert r[4 * i..4 * i + 4] == Bytes(v);
      }
    }
  }

  function Zeros(n: nat): (r: Block)
    ensures |r| == n
  {
    seq(n, _ => 0)
  }

  /** `n` null pointers. */
  function Nulls(n: nat): (r: seq<nat>)
    ensures |r| == n && forall i :: 0 <= i < n ==> r[i] == 0
  {
    seq(n, _ => 0)
  }

  lemma PtrsZeros(n: nat)
    ensures Ptrs(Zeros(n)) == Nulls(n / 4)
  {
  }

  // ---------------------------------------------------------------- blocks of a tree

  type Disk = seq<Block>

  /** The blocks owned below pointer `b` at `level` (0: a data block), each as often as it occurs. */
  ghost function Nodes(d: Disk, b: nat, level: nat): multiset<nat>
    decreases level, 0
  {
    if b == 0 then multiset{}
    else if level == 0 || b >= |d| then multiset{b}
    else multiset{b} + Forest(d, Ptrs(d[b]), level - 1)
  }

  ghost function Forest(d: Disk, ps: seq<nat>, level: nat): multiset<nat>
    decreases level, 1 + |ps|
  {
    if ps == [] then multiset{} else Nodes(d, ps[0], level) + Forest(d, ps[1..], level)
  }

  /** Where a path of pointer indices leads from `b`; 0 is a hole. */
  ghost function Follow(d: Disk, b: nat, path: seq<nat>): nat
    decreases |path|
  {
    if b == 0 || path == [] then b
    else if b < |d| && path[0] < |Ptrs(d[b])| then Follow(d, Ptrs(d[b])[path[0]], path[1..])
    else 0
  }

  /** No block occurs twice. */
  ghost predicate NoAlias(ns: multiset<nat>)
  {
    forall x :: ns[x] <= 1
  }

  lemma ForestSplit(d: Disk, ps: seq<nat>, level: nat)
    requires ps != []
    ensures Forest(d, ps, level) == Nodes(d, ps[0], level) + Forest(d, ps[1..], level)
  {
  }

  lemma Shuffle(a: multiset<nat>, b: multiset<nat>, c: multiset<nat>, f: multiset<nat>, g: multiset<nat>)
    requires b + c == f + g
    ensures a + b + c == a + f + g
  {
    assert a + b + c == a + (b + c);
    assert a + f + g == a + (f + g);
  }

  lemma SwapLast(a: multiset<nat>, x: multiset<nat>, y: multiset<nat>)
    ensures (a + x) + y == (y + x) + a
  {
  }

  lemma {:induction false} ForestUpdate(d: Disk, ps: seq<nat>, i: nat, b: nat, level: nat)
    requires i < |ps|
    ensures Forest(d, ps[i := b], level) + Nodes(d, ps[i], level) == Forest(d, ps, level) + Nodes(d, b, level)
  {
    hide Nodes, Forest;
    ForestSplit(d, ps, level);
    ForestSplit(d, ps[i := b], level);
    if i == 0 {
      assert ps[i := b][1..] == ps[1..];
      SwapLast(Nodes(d, b, level), Forest(d, ps[1..], level), Nodes(d, ps[0], level));
    } else {
      assert ps[i := b][1..] == ps[1..][i - 1 := b];
      assert ps[1..][i - 1] == ps[i];
      ForestUpdate(d, ps[1..], i - 1, b, level);
      Shuffle(Nodes(d, ps[0], level), Forest(d, ps[1..][i - 1 := b], level), Nodes(d, ps[i], level),
              Forest(d, ps[1..], level), Nodes(d, b, level));
    }
  }

  lemma {:induction false} ForestMember(d: Disk, ps: seq<nat>, i: nat, level: nat, x: nat)
    requires i < |ps|
    ensures Nodes(d, ps[i], level)[x] <= Forest(d, ps, level)[x]
  {
    hide Nodes, Forest;
    ForestSplit(d, ps, level);
    if i > 0 { ForestMember(d, ps[1..], i - 1, level, x); }
  }

  lemma {:induction false} ForestTwo(d: Disk, ps: seq<nat>, i: nat, j: nat, level: nat, x: nat)
    requires i < j < |ps|
    ensures Nodes(d, ps[i], level)[x] + Nodes(d, ps[j], level)[x] <= Forest(d, ps, level)[x]
  {
    hide Nodes, Forest;
    ForestSplit(d, ps, level);
    assert ps[1..][j - 1] == ps[j];
    if i == 0 {
      ForestMember(d, ps[1..], j - 1, level, x);
    } else {
      assert ps[1..][i - 1] == ps[i];
      ForestTwo(d, ps[1..], i - 1, j - 1, level, x);
    }
  }

  /** Two different trees of a forest without aliases share nothing. */
  lemma ForestDisjoint(d: Disk, ps: seq<nat>, i: nat, j: nat, level: nat, x: nat)
    requires i < |ps| && j < |ps| && i != j
    requires NoAlias(Forest(d, ps, level)) && x in Nodes(d, ps[i], level)
    ensures x !in Nodes(d, ps[j], level)
  {
    hide Nodes, Forest;
    if i < j { ForestTwo(d, ps, i, j, level, x); } else { ForestTwo(d, ps, j, i, level, x); }
  }

  lemma {:induction false} ForestZeros(d: Disk, n: nat, level: nat)
    ensures Forest(d, Nulls(n), level) == multiset{}
  {
    if n > 0 {
      assert Nulls(n)[1..] == Nulls(n - 1);
      ForestZeros(d, n - 1, level);
    }
  }

  // ---------------------------------------------------------------- what a change leaves alone

  /** The two disks hold the same contents in every block of `ns`. */
  ghost predicate Agree(d: Disk, e: Disk, ns: multiset<nat>)
  {
    |d| == |e| && forall x :: x in ns && x < |d| ==> d[x] == e[x]
  }

  /** A tree is determined by the contents of its own blocks. */
  lemma {:induction false} NodesFrame(d: Disk, e: Disk, b: nat, level: nat)
    requires Agree(d, e, Nodes(d, b, level))
    ensures Nodes(e, b, level) == Nodes(d, b, level)
    decreases level, 0
  {
    if b != 0 && level > 0 && b < |d| {
      assert b in Nodes(d, b, level);
      ForestFrame(d, e, Ptrs(d[b]), level - 1);
    }
  }

  lemma {:induction false} ForestFrame(d: Disk, e: Disk, ps: seq<nat>, level: nat)
    requires Agree(d, e, Forest(d, ps, level))
    ensures Forest(e, ps, level) == Forest(d, ps, level)
    decreases level, 1 + |ps|
  {
    if ps != [] {
      NodesFrame(d, e, ps[0], level);
      ForestFrame(d, e, ps[1..], level);
    }
  }

  lemma ForestAgree(d: Disk, e: Disk, ps: seq<nat>, i: nat, level: nat)
    requires i < |ps| && Agree(d, e, Forest(d, ps, level))
    ensures Agree(d, e, Nodes(d, ps[i], level))
  {
    hide Nodes, Forest;
    forall x | x in Nodes(d, ps[i], level) ensures x in Forest(d, ps, level) { ForestMember(d, ps, i, level, x); }
  }

  lemma {:induction false} FollowFrame(d: Disk, e: Disk, b: nat, path: seq<nat>, level: nat)
    requires |path| <= level && Agree(d, e, Nodes(d, b, level))
    ensures Follow(e, b, path) == Follow(d, b, path)
    decreases |path|
  {
    hide Nodes, Forest, Ptrs;
    if b != 0 && path != [] && b < |d| {
      RootInNodes(d, b, level);
      NodesSplit(d, b, level);
      if path[0] < |Ptrs(d[b])| {
        ForestAgree(d, e, Ptrs(d[b]), path[0], level - 1);
        FollowFrame(d, e, Ptrs(d[b])[path[0]], path[1..], level - 1);
      }
    }
  }

  // ---------------------------------------------------------------- well-formed trees

  /** Every block has `bs` bytes. */
  ghost predicate Sized(d: Disk, bs: nat)
  {
    bs > 0 && bs % 4 == 0 && forall x :: 0 <= x < |d| ==> |d[x]| == bs
  }

  /** The blocks of a tree are distinct blocks of the disk. */
  ghost predicate Sound(d: Disk, ns: multiset<nat>)
  {
    NoAlias(ns) && forall x :: x in ns ==> 0 < x < |d|
  }

  /** A path of pointer indices below a block of `bs` bytes. */
  ghost predicate IsPath(path: seq<nat>, bs: nat)
  {
    forall k :: 0 <= k < |path| ==> path[k] < bs / 4
  }

  lemma NodesSplit(d: Disk, b: nat, level: nat)
    requires b != 0 && level > 0 && b < |d|
    ensures Nodes(d, b, level) == multiset{b} + Forest(d, Ptrs(d[b]), level - 1)
  {
  }

  /** Below a node without aliases: the rest has none either, and does not contain the node. */
  lemma BelowNode(n: multiset<nat>, b: nat, f: multiset<nat>)
    requires n == multiset{b} + f && NoAlias(n)
    ensures b in n && b !in f && NoAlias(f)
    ensures forall x :: x in f ==> x in n
  {
    forall x: nat ensures f[x] <= n[x] { }
    assert n[b] == 1 + f[b];
  }

  lemma PartOf(c: multiset<nat>, f: multiset<nat>)
    requires NoAlias(f) && forall x: nat :: c[x] <= f[x]
    ensures NoAlias(c) && forall x :: x in c ==> x in f
  {
    forall x: nat ensures c[x] <= 1 { assert c[x] <= f[x]; }
  }

  /** What a sound tree says about the forest below its root. */
  lemma SoundBelow(d: Disk, b: nat, level: nat, bs: nat)
    requires Sized(d, bs) && b != 0 && level > 0 && Sound(d, Nodes(d, b, level))
    ensures b < |d| && |Ptrs(d[b])| == bs / 4
    ensures Nodes(d, b, level) == multiset{b} + Forest(d, Ptrs(d[b]), level - 1)
    ensures Sound(d, Forest(d, Ptrs(d[b]), level - 1)) && b !in Forest(d, Ptrs(d[b]), level - 1)
    ensures forall x :: x in Forest(d, Ptrs(d[b]), level - 1) ==> x in Nodes(d, b, level)
  {
    assert b in Nodes(d, b, level);
    NodesSplit(d, b, level);
    hide Nodes, Forest;
    BelowNode(Nodes(d, b, level), b, Forest(d, Ptrs(d[b]), level - 1));
  }

  /** What a sound tree says about the tree below one of its pointers. */
  lemma SoundChild(d: Disk, b: nat, level: nat, i: nat, bs: nat)
    requires Sized(d, bs) && b != 0 && level > 0 && Sound(d, Nodes(d, b, level)) && i < bs / 4
    ensures b < |d| && |Ptrs(d[b])| == bs / 4
    ensures Sound(d, Nodes(d, Ptrs(d[b])[i], level - 1))
    ensures b !in Nodes(d, Ptrs(d[b])[i], level - 1)
    ensures forall x :: x in Nodes(d, Ptrs(d[b])[i], level - 1) ==> x in Nodes(d, b, level)
  {
    hide Nodes, Forest;
    SoundBelow(d, b, level, bs);
    var ps := Ptrs(d[b]);
    var c, f := Nodes(d, ps[i], level - 1), Forest(d, ps, level - 1);
    forall x: nat ensures c[x] <= f[x] { ForestMember(d, ps, i, level - 1, x); }
    PartOf(c, f);
  }

  lemma RootInNodes(d: Disk, b: nat, level: nat)
    requires b != 0
    ensures b in Nodes(d, b, level)
  {
  }

  /** Where a path leads, at the data level or above it, is one of the tree's blocks. */
  lemma {:induction false} FollowInNodes(d: Disk, b: nat, path: seq<nat>, level: nat, bs: nat)
    requires |path| <= level && IsPath(path, bs) && Sized(d, bs) && Sound(d, Nodes(d, b, level)) && Follow(d, b, path) != 0
    ensures Follow(d, b, path) in Nodes(d, b, level)
    decreases |path|
  {
    hide Nodes, Forest, Ptrs;
    if path == [] {
      RootInNodes(d, b, level);
    } else {
      SoundChild(d, b, level, path[0], bs);
      FollowInNodes(d, Ptrs(d[b])[path[0]], path[1..], level - 1, bs);
    }
  }

  /** A change confined to one child's blocks and to blocks outside the forest leaves the others alone. */
  lemma SiblingFrame(d: Disk, e: Disk, ps: seq<nat>, i: nat, j: nat, level: nat)
    requires i < |ps| && j < |ps| && i != j && NoAlias(Forest(d, ps, level)) && |d| == |e|
    requires forall x :: 0 <= x < |d| ==> d[x] == e[x] || x in Nodes(d, ps[i], level) || x !in Forest(d, ps, level)
    ensures Agree(d, e, Nodes(d, ps[j], level))
  {
    hide Nodes, Forest;
    forall x | x in Nodes(d, ps[j], level) && x < |d| ensures d[x] == e[x] {
      ForestDisjoint(d, ps, j, i, level, x);
      ForestMember(d, ps, j, level, x);
    }
  }

  lemma Cancel(a: multiset<nat>, b: multiset<nat>, c: multiset<nat>, f: multiset<nat>)
    requires a + b == c + (b + f)
    ensures a == c + f
  {
    forall x: nat ensures a[x] == (c + f)[x] { assert (a + b)[x] == (c + (b + f))[x]; }
  }

  /** The same forest, but for one tree. */
  lemma {:induction false} ForestReplace(d: Disk, e: Disk, ps: seq<nat>, i: nat, level: nat)
    requires i < |ps|
    requires forall j :: 0 <= j < |ps| && j != i ==> Nodes(e, ps[j], level) == Nodes(d, ps[j], level)
    ensures Forest(e, ps, level) + Nodes(d, ps[i], level) == Forest(d, ps, level) + Nodes(e, ps[i], level)
  {
    ForestSplit(d, ps, level);
    ForestSplit(e, ps, level);
    hide Nodes, Forest;
    if i == 0 {
      ForestSame(d, e, ps[1..], level);
    } else {
      assert Nodes(e, ps[0], level) == Nodes(d, ps[0], level);
      ForestReplace(d, e, ps[1..], i - 1, level);
      assert ps[1..][i - 1] == ps[i];
      Shuffle(Nodes(d, ps[0], level), Forest(e, ps[1..], level), Nodes(d, ps[i], level),
              Forest(d, ps[1..], level), Nodes(e, ps[i], level));
    }
  }

  lemma {:induction false} ForestSame(d: Disk, e: Disk, ps: seq<nat>, level: nat)
    requires forall j :: 0 <= j < |ps| ==> Nodes(e, ps[j], level) == Nodes(d, ps[j], level)
    ensures Forest(e, ps, level) == Forest(d, ps, level)
  {
    if ps != [] {
      assert Nodes(e, ps[0], level) == Nodes(d, ps[0], level);
      ForestSame(d, e, ps[1..], level);
    }
  }

  // ---------------------------------------------------------------- grafting a fresh block

  /** `e` is `d` after a zeroed block `x` was hung on pointer `i` of block `b`. */
  ghost predicate Grafted(d: Disk, e: Disk, b: nat, i: nat, x: nat, bs: nat)
  {
    && Sized(d, bs) && |e| == |d| && b < |d| && x < |d| && b != x && i < bs / 4
    && Ptrs(d[b])[i] == 0 && Ptrs(e[b]) == Ptrs(d[b])[i := x] && |e[b]| == bs && e[x] == Zeros(bs)
    && forall y :: 0 <= y < |d| && y != b && y != x ==> e[y] == d[y]
  }

  /** The tree gains exactly the grafted block. */
  lemma {:induction false} GraftNodes(d: Disk, e: Disk, root: nat, level: nat, path: seq<nat>, i: nat, x: nat, bs: nat)
    requires |path| < level && IsPath(path, bs) && root != 0 && Sound(d, Nodes(d, root, level))
    requires Follow(d, root, path) != 0 && Grafted(d, e, Follow(d, root, path), i, x, bs)
    requires x != 0 && x !in Nodes(d, root, level)
    ensures Nodes(e, root, level) == Nodes(d, root, level) + multiset{x}
    decreases |path|
  {
    hide Nodes, Forest, Ptrs, Zeros;
    if path == [] {
      GraftHere(d, e, root, level, i, x, bs);
    } else {
      SoundBelow(d, root, level, bs);
      SoundChild(d, root, level, path[0], bs);
      var c := Ptrs(d[root])[path[0]];
      FollowInNodes(d, c, path[1..], level - 1, bs);
      GraftNodes(d, e, c, level - 1, path[1..], i, x, bs);
      GraftedSiblings(d, e, root, level, path[0], Follow(d, root, path), i, x, bs);
      NodesSplit(e, root, level);
      var ps := Ptrs(d[root]);
      ForestReplace(d, e, ps, path[0], level - 1);
      Cancel(Forest(e, ps, level - 1), Nodes(d, c, level - 1), Forest(d, ps, level - 1), multiset{x});
      assert multiset{root} + (Forest(d, ps, level - 1) + multiset{x})
          == multiset{root} + Forest(d, ps, level - 1) + multiset{x};
    }
  }

  /** Grafting below one pointer of `root` leaves the trees below its other pointers as they were. */
  lemma GraftedSiblings(d: Disk, e: Disk, root: nat, level: nat, k: nat, b: nat, i: nat, x: nat, bs: nat)
    requires 0 < level && root != 0 && Sound(d, Nodes(d, root, level)) && Grafted(d, e, b, i, x, bs)
    requires x != 0 && x !in Nodes(d, root, level) && k < bs / 4 && root < |d|
    requires b in Nodes(d, Ptrs(d[root])[k], level - 1)
    ensures e[root] == d[root]
    ensures forall j :: 0 <= j < bs / 4 && j != k ==>
              Nodes(e, Ptrs(d[root])[j], level - 1) == Nodes(d, Ptrs(d[root])[j], level - 1)
    ensures forall j :: 0 <= j < bs / 4 && j != k ==> Agree(d, e, Nodes(d, Ptrs(d[root])[j], level - 1))
  {
    hide Nodes, Forest;
    SoundBelow(d, root, level, bs);
    SoundChild(d, root, level, k, bs);
    var ps := Ptrs(d[root]);
    assert root in Nodes(d, root, level);
    forall j | 0 <= j < bs / 4 && j != k
      ensures Agree(d, e, Nodes(d, ps[j], level - 1)) && Nodes(e, ps[j], level - 1) == Nodes(d, ps[j], level - 1)
    {
      SiblingFrame(d, e, ps, k, j, level - 1);
      NodesFrame(d, e, ps[j], level - 1);
    }
  }

  lemma GraftHere(d: Disk, e: Disk, root: nat, level: nat, i: nat, x: nat, bs: nat)
    requires 0 < level && root != 0 && Sound(d, Nodes(d, root, level)) && Grafted(d, e, root, i, x, bs)
    requires x != 0 && x !in Nodes(d, root, level)
    ensures Nodes(e, root, level) == Nodes(d, root, level) + multiset{x}
  {
    hide Nodes, Forest, Ptrs, Zeros;
    var ps := Ptrs(d[root]);
    SoundBelow(d, root, level, bs);
    NodesSplit(e, root, level);
    ForestFrame(d, e, ps, level - 1);
    ForestUpdate(e, ps, i, x, level - 1);
    FreshNodes(e, x, level - 1, bs);
    NoNodes(e, level - 1);
    assert Forest(e, ps[i := x], level - 1) == Forest(d, ps, level - 1) + multiset{x};
  }

  lemma NoNodes(d: Disk, level: nat)
    ensures Nodes(d, 0, level) == multiset{}
  {
  }

  lemma LeafNodes(d: Disk, x: nat)
    requires x != 0
    ensures Nodes(d, x, 0) == multiset{x}
  {
  }

  /** A zeroed block owns itself only. */
  lemma FreshNodes(e: Disk, x: nat, level: nat, bs: nat)
    requires 0 < x < |e| && e[x] == Zeros(bs)
    ensures Nodes(e, x, level) == multiset{x}
  {
    hide Nodes, Forest, Zeros, Ptrs, Nulls;
    if level == 0 {
      LeafNodes(e, x);
    } else {
      NodesSplit(e, x, level);
      PtrsZeros(bs);
      ForestZeros(e, bs / 4, level - 1);
      assert Nodes(e, x, level) == multiset{x} + multiset{};
    }
  }

  lemma FollowStep(d: Disk, b: nat, path: seq<nat>)
    requires path != [] && b != 0
    ensures Follow(d, b, path) ==
            if b < |d| && path[0] < |Ptrs(d[b])| then Follow(d, Ptrs(d[b])[path[0]], path[1..]) else 0
  {
  }

  lemma FollowEnds(d: Disk, b: nat, path: seq<nat>)
    ensures Follow(d, 0, path) == 0 && Follow(d, b, []) == b
  {
  }

  /** Every path through the grafted pointer now ends in the new block, or in a hole below it; every
      other path leads where it did. */
  lemma {:induction false} GraftFollow(d: Disk, e: Disk, root: nat, level: nat, path: seq<nat>, i: nat, x: nat, bs: nat,
                                       q: seq<nat>)
    requires |path| < level && IsPath(path, bs) && root != 0 && Sound(d, Nodes(d, root, level))
    requires Follow(d, root, path) != 0 && Grafted(d, e, Follow(d, root, path), i, x, bs)
    requires x != 0 && x !in Nodes(d, root, level)
    requires |q| <= level && IsPath(q, bs)
    ensures path + [i] <= q ==> Follow(d, root, q) == 0 && Follow(e, root, q) == if q == path + [i] then x else 0
    ensures !(path + [i] <= q) ==> Follow(e, root, q) == Follow(d, root, q)
    decreases |path|
  {
    hide Nodes, Forest, Ptrs, Zeros, Follow;
    FollowEnds(d, root, []);
    FollowEnds(e, root, []);
    if q != [] {
      SoundBelow(d, root, level, bs);
      FollowStep(d, root, q);
      FollowStep(e, root, q);
      if path == [] {
        GraftFollowHere(d, e, root, level, i, x, bs, q);
      } else {
        SoundChild(d, root, level, path[0], bs);
        FollowStep(d, root, path);
        var c := Ptrs(d[root])[path[0]];
        FollowInNodes(d, c, path[1..], level - 1, bs);
        GraftedSiblings(d, e, root, level, path[0], Follow(d, root, path), i, x, bs);
        assert path + [i] == [path[0]] + (path[1..] + [i]);
        assert q == [q[0]] + q[1..];
        if q[0] == path[0] {
          FollowEnds(d, c, path[1..]);
          GraftFollow(d, e, c, level - 1, path[1..], i, x, bs, q[1..]);
        } else {
          FollowFrame(d, e, Ptrs(d[root])[q[0]], q[1..], level - 1);
        }
      }
    }
  }

  lemma GraftFollowHere(d: Disk, e: Disk, root: nat, level: nat, i: nat, x: nat, bs: nat, q: seq<nat>)
    requires 0 < level && root != 0 && Sound(d, Nodes(d, root, level)) && Grafted(d, e, root, i, x, bs)
    requires x != 0 && x !in Nodes(d, root, level)
    requires 0 < |q| <= level && IsPath(q, bs)
    ensures q[0] == i ==> Follow(d, root, q) == 0 && Follow(e, root, q) == if |q| == 1 then x else 0
    ensures q[0] != i ==> Follow(e, root, q) == Follow(d, root, q)
  {
    hide Nodes, Forest, Ptrs, Zeros, Nulls, Follow;
    SoundBelow(d, root, level, bs);
    FollowStep(d, root, q);
    FollowStep(e, root, q);
    FollowEnds(d, x, q[1..]);
    FollowEnds(e, x, q[1..]);
    if q[0] == i {
      if |q| > 1 {
        PtrsZeros(bs);
        FollowStep(e, x, q[1..]);
        FollowEnds(e, x, q[1..][1..]);
      }
    } else {
      var c := Ptrs(d[root])[q[0]];
      ForestAgree(d, e, Ptrs(d[root]), q[0], level - 1);
      FollowFrame(d, e, c, q[1..], level - 1);
    }
  }

  // ---------------------------------------------------------------- changing data, one subtree, one pointer

  /** New contents for a data block leave the shape of its tree alone. */
  lemma {:induction false} LeafWrite(d: Disk, e: Disk, root: nat, path: seq<nat>, bs: nat, q: seq<nat>)
    requires Sized(d, bs) && IsPath(path, bs) && Sound(d, Nodes(d, root, |path|)) && Follow(d, root, path) != 0
    requires |e| == |d| && forall y :: 0 <= y < |d| && y != Follow(d, root, path) ==> e[y] == d[y]
    requires |q| <= |path| && IsPath(q, bs)
    ensures Nodes(e, root, |path|) == Nodes(d, root, |path|) && Follow(e, root, q) == Follow(d, root, q)
    decreases |path|
  {
    hide Nodes, Forest, Ptrs, Follow;
    FollowEnds(d, root, path);
    FollowEnds(e, root, q);
    FollowEnds(d, root, q);
    if path == [] {
      LeafNodes(d, root);
      LeafNodes(e, root);
    } else {
      var level, x := |path|, Follow(d, root, path);
      SoundBelow(d, root, level, bs);
      SoundChild(d, root, level, path[0], bs);
      FollowStep(d, root, path);
      var ps := Ptrs(d[root]);
      FollowInNodes(d, ps[path[0]], path[1..], level - 1, bs);
      assert e[root] == d[root];
      LeafWrite(d, e, ps[path[0]], path[1..], bs, []);
      forall j | 0 <= j < |ps| && j != path[0]
        ensures Agree(d, e, Nodes(d, ps[j], level - 1)) && Nodes(e, ps[j], level - 1) == Nodes(d, ps[j], level - 1)
      {
        SiblingFrame(d, e, ps, path[0], j, level - 1);
        NodesFrame(d, e, ps[j], level - 1);
      }
      NodesSplit(e, root, level);
      ForestSame(d, e, ps, level - 1);
      if q != [] {
        FollowStep(d, root, q);
        FollowStep(e, root, q);
        if q[0] == path[0] {
          LeafWrite(d, e, ps[path[0]], path[1..], bs, q[1..]);
        } else {
          FollowFrame(d, e, ps[q[0]], q[1..], level - 1);
        }
      }
    }
  }

  /** Different walks end in different blocks. */
  lemma {:induction false} FollowDistinct(d: Disk, root: nat, level: nat, q: seq<nat>, r: seq<nat>, bs: nat)
    requires Sized(d, bs) && Sound(d, Nodes(d, root, level)) && q != r
    requires |q| <= level && |r| <= level && IsPath(q, bs) && IsPath(r, bs)
    requires Follow(d, root, q) != 0 && Follow(d, root, r) != 0
    ensures Follow(d, root, q) != Follow(d, root, r)
    decreases |q|
  {
    hide Nodes, Forest, Ptrs, Follow;
    FollowEnds(d, root, q);
    FollowEnds(d, root, r);
    if q == [] {
      BelowRoot(d, root, level, r, bs);
    } else if r == [] {
      BelowRoot(d, root, level, q, bs);
    } else {
      SoundBelow(d, root, level, bs);
      SoundChild(d, root, level, q[0], bs);
      FollowStep(d, root, q);
      FollowStep(d, root, r);
      var ps := Ptrs(d[root]);
      if q[0] == r[0] {
        assert q == [q[0]] + q[1..] && r == [r[0]] + r[1..];
        FollowDistinct(d, ps[q[0]], level - 1, q[1..], r[1..], bs);
      } else {
        SoundChild(d, root, level, r[0], bs);
        FollowInNodes(d, ps[q[0]], q[1..], level - 1, bs);
        FollowInNodes(d, ps[r[0]], r[1..], level - 1, bs);
        ForestDisjoint(d, ps, q[0], r[0], level - 1, Follow(d, root, q));
      }
    }
  }

  lemma BelowRoot(d: Disk, root: nat, level: nat, q: seq<nat>, bs: nat)
    requires Sized(d, bs) && Sound(d, Nodes(d, root, level)) && root != 0
    requires 0 < |q| <= level && IsPath(q, bs) && Follow(d, root, q) != 0
    ensures Follow(d, root, q) != root
  {
    hide Nodes, Forest, Ptrs, Follow;
    SoundChild(d, root, level, q[0], bs);
    FollowStep(d, root, q);
    FollowInNodes(d, Ptrs(d[root])[q[0]], q[1..], level - 1, bs);
  }

  /** `e` differs from `d` only in blocks below pointer `i` of `b`. */
  ghost predicate OnlyBelow(d: Disk, e: Disk, b: nat, level: nat, i: nat)
  {
    && |d| == |e| && b < |d| && level > 0 && i < |Ptrs(d[b])|
    && forall x :: 0 <= x < |d| ==> d[x] == e[x] || x in Nodes(d, Ptrs(d[b])[i], level - 1)
  }

  lemma ChildChanged(d: Disk, e: Disk, b: nat, level: nat, i: nat, bs: nat)
    requires Sized(d, bs) && b != 0 && level > 0 && Sound(d, Nodes(d, b, level)) && OnlyBelow(d, e, b, level, i)
    ensures e[b] == d[b]
    ensures Nodes(e, b, level) + Nodes(d, Ptrs(d[b])[i], level - 1) == Nodes(d, b, level) + Nodes(e, Ptrs(d[b])[i], level - 1)
    ensures forall j :: 0 <= j < bs / 4 && j != i ==> Agree(d, e, Nodes(d, Ptrs(d[b])[j], level - 1))
  {
    hide Nodes, Forest, Ptrs;
    SoundBelow(d, b, level, bs);
    SoundChild(d, b, level, i, bs);
    var ps := Ptrs(d[b]);
    forall j | 0 <= j < |ps| && j != i
      ensures Agree(d, e, Nodes(d, ps[j], level - 1)) && Nodes(e, ps[j], level - 1) == Nodes(d, ps[j], level - 1)
    {
      SiblingFrame(d, e, ps, i, j, level - 1);
      NodesFrame(d, e, ps[j], level - 1);
    }
    NodesSplit(e, b, level);
    ForestReplace(d, e, ps, i, level - 1);
    Shuffle3(multiset{b}, Forest(e, ps, level - 1), Nodes(d, ps[i], level - 1),
             Forest(d, ps, level - 1), Nodes(e, ps[i], level - 1));
  }

  lemma Shuffle3(a: multiset<nat>, b: multiset<nat>, c: multiset<nat>, f: multiset<nat>, g: multiset<nat>)
    requires b + c == f + g
    ensures (a + b) + c == (a + f) + g
  {
    Shuffle(a, b, c, f, g);
  }

  /** Pointer `i` of `b` cleared, the block `c` it named owning nothing but itself. */
  ghost predicate Cut(d: Disk, e: Disk, b: nat, i: nat, c: nat)
  {
    && |d| == |e| && b < |d| && b != c && |Ptrs(d[b])| == |Ptrs(e[b])| && i < |Ptrs(d[b])|
    && c == Ptrs(d[b])[i] && c != 0 && Ptrs(e[b]) == Ptrs(d[b])[i := 0]
    && forall x :: 0 <= x < |d| && x != b && x != c ==> d[x] == e[x]
  }

  lemma ChildCut(d: Disk, e: Disk, b: nat, level: nat, i: nat, c: nat, bs: nat)
    requires Sized(d, bs) && b != 0 && level > 0 && Sound(d, Nodes(d, b, level)) && Cut(d, e, b, i, c)
    requires Nodes(d, c, level - 1) == multiset{c}
    ensures Nodes(e, b, level) + multiset{c} == Nodes(d, b, level)
    ensures forall j :: 0 <= j < bs / 4 && j != i ==> Agree(d, e, Nodes(d, Ptrs(d[b])[j], level - 1))
  {
    hide Nodes, Forest, Ptrs;
    SoundBelow(d, b, level, bs);
    var ps := Ptrs(d[b]);
    forall j | 0 <= j < |ps| && j != i
      ensures Agree(d, e, Nodes(d, ps[j], level - 1)) && Nodes(e, ps[j], level - 1) == Nodes(d, ps[j], level - 1)
    {
      assert c in Nodes(d, c, level - 1);
      SiblingFrame(d, e, ps, i, j, level - 1);
      NodesFrame(d, e, ps[j], level - 1);
    }
    var zs := ps[i := 0];
    NoNodes(d, level - 1);
    NoNodes(e, level - 1);
    forall j | 0 <= j < |zs| ensures Nodes(e, zs[j], level - 1) == Nodes(d, zs[j], level - 1) { }
    NodesSplit(e, b, level);
    ForestSame(d, e, zs, level - 1);
    ForestUpdate(d, ps, i, 0, level - 1);
    assert Forest(d, zs, level - 1) + multiset{c} == Forest(d, ps, level - 1);
    assert multiset{b} + Forest(d, zs, level - 1) + multiset{c} == multiset{b} + (Forest(d, zs, level - 1) + multiset{c});
  }

  /** An indirect block without pointers owns nothing but itself. */
  lemma EmptyNodes(d: Disk, b: nat, level: nat)
    requires 0 < b < |d| && (level > 0 ==> Ptrs(d[b]) == Nulls(|Ptrs(d[b])|))
    ensures Nodes(d, b, level) == multiset{b}
  {
    hide Nodes, Forest, Ptrs, Nulls;
    if level == 0 {
      LeafNodes(d, b);
    } else {
      NodesSplit(d, b, level);
      ForestZeros(d, |Ptrs(d[b])|, level - 1);
      assert Nodes(d, b, level) == multiset{b} + multiset{};
    }
  }

  /** A walk goes on through the pointers of the block it has reached. */
  lemma {:induction false} FollowAppend(d: Disk, b: nat, path: seq<nat>, i: nat)
    ensures var x := Follow(d, b, path);
            Follow(d, b, path + [i]) ==
            if x != 0 && x < |d| && i < |Ptrs(d[x])| then Ptrs(d[x])[i] else 0
    decreases |path|
  {
    hide Ptrs;
    assert [i][1..] == [];
    if path == [] {
      assert [] + [i] == [i];
    } else if b != 0 && b < |d| && path[0] < |Ptrs(d[b])| {
      assert (path + [i])[1..] == path[1..] + [i];
      FollowAppend(d, Ptrs(d[b])[path[0]], path[1..], i);
    }
  }
}
