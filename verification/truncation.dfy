/** What cutting a file short does to one pointer tree (kernel/src/ext2.rs:641-664), and the invariant of
    the loop over the children of an indirect block. */
module Truncation {
  import opened BlockTree
  import opened BlockRoutes
  import opened InodeMap

  /** Path `q` below `b`, whose first logical block is `base`: kept with its data below `keep`, gone from
      there on. */
  ghost predicate TrimmedAt(d: Disk, e: Disk, b: nat, base: nat, keep: nat, bs: nat, q: seq<nat>)
  {
    var x := Follow(d, b, q);
    if base + Off(bs / 4, q) < keep then Follow(e, b, q) == x && (x != 0 && x < |d| && x < |e| ==> e[x] == d[x])
    else Follow(e, b, q) == 0
  }

  /** First logical block below child `i` of an indirect block. */
  function ChildBase(base: nat, i: nat, level: nat, bs: nat): nat
    requires level > 0
  {
    base + i * Span(bs / 4, level - 1)
  }

  ghost predicate Trimmed(d: Disk, e: Disk, b: nat, level: nat, base: nat, keep: nat, bs: nat)
  {
    forall q :: |q| == level && IsPath(q, bs) ==> TrimmedAt(d, e, b, base, keep, bs, q)
  }

  /** The blocks `freed` left the tree and are free; nothing outside the tree changed. */
  ghost predicate Released(d: Disk, u: set<nat>, e: Disk, u': set<nat>, b: nat, level: nat, bs: nat, freed: multiset<nat>)
  {
    && |d| == |e| && Sized(e, bs)
    && Nodes(e, b, level) + freed == Nodes(d, b, level)
    && (forall x :: 0 <= x < |d| && x !in Nodes(d, b, level) ==> e[x] == d[x])
    && (forall x :: x in u' <==> x in u && x !in freed)
  }

  /** The children of `b` before `i` are done, the others untouched. */
  ghost predicate Underway(d: Disk, u: set<nat>, e: Disk, u': set<nat>, b: nat, level: nat, base: nat, keep: nat,
                           bs: nat, i: nat, freed: multiset<nat>)
  {
    && level > 0 && b < |d| == |e| && Released(d, u, e, u', b, level, bs, freed)
    && |Ptrs(d[b])| == |Ptrs(e[b])| == bs / 4
    && (forall j :: i <= j < bs / 4 ==> Untouched(d, e, b, level, j))
    && (forall q :: |q| == level && IsPath(q, bs) && q[0] < i ==> TrimmedAt(d, e, b, base, keep, bs, q))
  }

  ghost predicate Untouched(d: Disk, e: Disk, b: nat, level: nat, j: nat)
    requires level > 0 && b < |d| == |e| && j < |Ptrs(d[b])| && j < |Ptrs(e[b])|
  {
    Ptrs(e[b])[j] == Ptrs(d[b])[j] && Agree(d, e, Nodes(d, Ptrs(d[b])[j], level - 1))
  }

  lemma ReleasedSound(d: Disk, u: set<nat>, e: Disk, u': set<nat>, b: nat, level: nat, bs: nat, freed: multiset<nat>)
    requires Released(d, u, e, u', b, level, bs, freed) && Sound(d, Nodes(d, b, level))
    ensures Sound(e, Nodes(e, b, level))
    ensures forall x :: x in Nodes(e, b, level) ==> x in Nodes(d, b, level) && x !in freed
    ensures |Nodes(e, b, level)| + |freed| == |Nodes(d, b, level)|
  {
    hide Nodes, Ptrs, Sized;
    var n, m := Nodes(d, b, level), Nodes(e, b, level);
    forall x: nat ensures m[x] <= n[x] && m[x] + freed[x] == n[x] { assert (m + freed)[x] == n[x]; }
    forall x | x in m ensures x in n && x !in freed { assert m[x] + freed[x] == n[x]; }
  }

  lemma UnderwayStart(d: Disk, u: set<nat>, b: nat, level: nat, base: nat, keep: nat, bs: nat)
    requires Sized(d, bs) && level > 0 && b < |d|
    ensures Underway(d, u, d, u, b, level, base, keep, bs, 0, multiset{})
  {
    hide Nodes, Follow, Ptrs;
    assert |Ptrs(d[b])| == bs / 4 by { PtrsLength(d[b]); }
  }

  lemma PtrsLength(k: Block)
    ensures |Ptrs(k)| == |k| / 4
  {
  }

  lemma UnderwayDone(d: Disk, u: set<nat>, e: Disk, u': set<nat>, b: nat, level: nat, base: nat, keep: nat,
                     bs: nat, freed: multiset<nat>)
    requires Underway(d, u, e, u', b, level, base, keep, bs, bs / 4, freed)
    ensures Trimmed(d, e, b, level, base, keep, bs)
  {
    hide Nodes, Follow, Ptrs, TrimmedAt, Released, Untouched;
  }

  /** A path through child `i` is a path below that child, `span` logical blocks per child further on. */
  lemma ThroughChild(d: Disk, b: nat, level: nat, q: seq<nat>, bs: nat)
    requires level > 0 && |q| == level && IsPath(q, bs) && b != 0 && b < |d| && |Ptrs(d[b])| == bs / 4
    ensures Follow(d, b, q) == Follow(d, Ptrs(d[b])[q[0]], q[1..])
    ensures Off(bs / 4, q) == q[0] * Span(bs / 4, level - 1) + Off(bs / 4, q[1..])
    ensures IsPath(q[1..], bs) && Off(bs / 4, q[1..]) < Span(bs / 4, level - 1)
  {
    hide Nodes, Ptrs, Span;
    FollowStep(d, b, q);
    OffBound(bs / 4, q[1..]);
  }

  /** Child `i` needs nothing: it is a hole, or lies wholly below the cut. */
  lemma SkipChild(d: Disk, u: set<nat>, e: Disk, u': set<nat>, b: nat, level: nat, base: nat, keep: nat,
                  bs: nat, i: nat, freed: multiset<nat>)
    requires Underway(d, u, e, u', b, level, base, keep, bs, i, freed) && i < bs / 4
    requires Sized(d, bs) && b != 0 && Sound(d, Nodes(d, b, level))
    requires Ptrs(d[b])[i] == 0 || ChildBase(base, i, level, bs) + Span(bs / 4, level - 1) <= keep
    ensures Underway(d, u, e, u', b, level, base, keep, bs, i + 1, freed)
  {
    hide Nodes, Forest, Ptrs, Follow, Span, Off, Released, Untouched, TrimmedAt;
    forall q | |q| == level && IsPath(q, bs) && q[0] < i + 1 ensures TrimmedAt(d, e, b, base, keep, bs, q) {
      if q[0] == i { SkippedPath(d, u, e, u', b, level, base, keep, bs, i, freed, q); }
    }
  }

  lemma SkippedPath(d: Disk, u: set<nat>, e: Disk, u': set<nat>, b: nat, level: nat, base: nat, keep: nat,
                    bs: nat, i: nat, freed: multiset<nat>, q: seq<nat>)
    requires Underway(d, u, e, u', b, level, base, keep, bs, i, freed) && i < bs / 4
    requires Sized(d, bs) && b != 0 && Sound(d, Nodes(d, b, level))
    requires Ptrs(d[b])[i] == 0 || ChildBase(base, i, level, bs) + Span(bs / 4, level - 1) <= keep
    requires |q| == level && IsPath(q, bs) && q[0] == i
    ensures TrimmedAt(d, e, b, base, keep, bs, q)
  {
    hide Nodes, Forest, Ptrs, Follow, Span, Off, Released;
    assert Untouched(d, e, b, level, i);
    ThroughChild(d, b, level, q, bs);
    ThroughChild(e, b, level, q, bs);
    var c := Ptrs(d[b])[i];
    FollowFrame(d, e, c, q[1..], level - 1);
    FollowEnds(d, 0, q[1..]);
    SoundChild(d, b, level, i, bs);
    if Follow(d, b, q) != 0 { FollowInNodes(d, c, q[1..], level - 1, bs); }
  }

  lemma SplitFreed(n: multiset<nat>, m: multiset<nat>, c: multiset<nat>, c': multiset<nat>, f: multiset<nat>,
                   g: multiset<nat>, k: multiset<nat>)
    requires n + c == m + c' && c' + g == c && m + f == k
    ensures n + (f + g) == k
  {
    forall x: nat ensures (n + (f + g))[x] == k[x] {
      assert (n + c)[x] == (m + c')[x] && (c' + g)[x] == c[x] && (m + f)[x] == k[x];
    }
  }

  /** A change below child `i` of `e` leaves its other children where `d` and `e` agree alone. */
  lemma StillUntouched(d: Disk, e: Disk, f: Disk, b: nat, level: nat, i: nat, j: nat, bs: nat)
    requires Sized(e, bs) && b != 0 && level > 0 && Sound(e, Nodes(e, b, level)) && OnlyBelow(e, f, b, level, i)
    requires b < |d| == |e| && |Ptrs(d[b])| == bs / 4 && j < bs / 4 && i != j && Untouched(d, e, b, level, j)
    ensures b < |e| && |Ptrs(e[b])| == bs / 4 && f[b] == e[b] && Untouched(d, f, b, level, j)
  {
    hide Nodes, Forest, Ptrs;
    SoundBelow(e, b, level, bs);
    ChildChanged(e, f, b, level, i, bs);
    NodesFrame(d, e, Ptrs(d[b])[j], level - 1);
  }

  /** A finished path through another child stays finished. */
  lemma StillTrimmed(d: Disk, e: Disk, f: Disk, b: nat, level: nat, base: nat, keep: nat, bs: nat, i: nat, q: seq<nat>)
    requires Sized(e, bs) && Sized(f, bs) && b != 0 && level > 0 && Sound(e, Nodes(e, b, level)) && |d| == |e| == |f|
    requires |q| == level && IsPath(q, bs) && q[0] != i && TrimmedAt(d, e, b, base, keep, bs, q)
    requires i < bs / 4 && b < |e| && |Ptrs(f[b])| == bs / 4 && Ptrs(f[b])[q[0]] == Ptrs(e[b])[q[0]]
    requires Agree(e, f, Nodes(e, Ptrs(e[b])[q[0]], level - 1))
    ensures TrimmedAt(d, f, b, base, keep, bs, q)
  {
    hide Nodes, Forest, Ptrs, Follow, Off, Span;
    var c := Ptrs(e[b])[q[0]];
    SoundChild(e, b, level, q[0], bs);
    ThroughChild(e, b, level, q, bs);
    ThroughChild(f, b, level, q, bs);
    FollowFrame(e, f, c, q[1..], level - 1);
    if Follow(e, b, q) != 0 { FollowInNodes(e, c, q[1..], level - 1, bs); }
  }

  /** Child `i` was itself cut short: its paths are done, and the blocks it lost join those freed. */
  lemma ChildTrimmed(d: Disk, u: set<nat>, e: Disk, u': set<nat>, f: Disk, u'': set<nat>, b: nat, level: nat,
                     base: nat, keep: nat, bs: nat, i: nat, freed: multiset<nat>, more: multiset<nat>)
    requires Sized(d, bs) && b != 0 && level > 0 && i < bs / 4 && Sound(d, Nodes(d, b, level))
    requires Underway(d, u, e, u', b, level, base, keep, bs, i, freed)
    requires Released(e, u', f, u'', Ptrs(e[b])[i], level - 1, bs, more)
    requires Trimmed(e, f, Ptrs(e[b])[i], level - 1, ChildBase(base, i, level, bs), keep, bs)
    ensures f[b] == e[b] && Underway(d, u, f, u'', b, level, base, keep, bs, i + 1, freed + more)
  {
    hide Nodes, Forest, Ptrs, Follow, Off, Span, Sound, Untouched, TrimmedAt, Trimmed;
    ReleasedSound(d, u, e, u', b, level, bs, freed);
    OnlyBelowChild(e, u', f, u'', b, level, bs, i, more);
    SoundBelow(e, b, level, bs);
    SoundChild(e, b, level, i, bs);
    ChildChanged(e, f, b, level, i, bs);
    var c := Ptrs(e[b])[i];
    SplitFreed(Nodes(f, b, level), Nodes(e, b, level), Nodes(e, c, level - 1), Nodes(f, c, level - 1), freed, more, Nodes(d, b, level));
    ReleasedSound(d, u, e, u', b, level, bs, freed);
    forall j | i + 1 <= j < bs / 4 ensures Untouched(d, f, b, level, j) {
      StillUntouched(d, e, f, b, level, i, j, bs);
    }
    forall q | |q| == level && IsPath(q, bs) && q[0] < i + 1 ensures TrimmedAt(d, f, b, base, keep, bs, q) {
      if q[0] == i {
        ChildPath(d, u, e, u', f, b, level, base, keep, bs, i, freed, q);
      } else {
        StillTrimmed(d, e, f, b, level, base, keep, bs, i, q);
      }
    }
  }

  lemma OnlyBelowChild(e: Disk, u': set<nat>, f: Disk, u'': set<nat>, b: nat, level: nat, bs: nat, i: nat, more: multiset<nat>)
    requires Sized(e, bs) && b < |e| && level > 0 && i < bs / 4 && |Ptrs(e[b])| == bs / 4
    requires Released(e, u', f, u'', Ptrs(e[b])[i], level - 1, bs, more)
    ensures OnlyBelow(e, f, b, level, i)
  {
  }

  lemma ChildPath(d: Disk, u: set<nat>, e: Disk, u': set<nat>, f: Disk, b: nat, level: nat,
                  base: nat, keep: nat, bs: nat, i: nat, freed: multiset<nat>, q: seq<nat>)
    requires Sized(d, bs) && b != 0 && level > 0 && i < bs / 4 && Sound(d, Nodes(d, b, level)) && |f| == |e|
    requires Underway(d, u, e, u', b, level, base, keep, bs, i, freed) && f[b] == e[b]
    requires Trimmed(e, f, Ptrs(e[b])[i], level - 1, ChildBase(base, i, level, bs), keep, bs)
    requires |q| == level && IsPath(q, bs) && q[0] == i
    ensures TrimmedAt(d, f, b, base, keep, bs, q)
  {
    hide Nodes, Forest, Ptrs, Follow, Off, Span, Released;
    assert Untouched(d, e, b, level, i);
    var c := Ptrs(e[b])[i];
    ThroughChild(d, b, level, q, bs);
    ThroughChild(f, b, level, q, bs);
    assert TrimmedAt(e, f, c, ChildBase(base, i, level, bs), keep, bs, q[1..]);
    FollowFrame(d, e, c, q[1..], level - 1);
    SoundChild(d, b, level, i, bs);
    if Follow(d, c, q[1..]) != 0 { FollowInNodes(d, c, q[1..], level - 1, bs); }
  }

  /** As `Underway`, but with nothing said about child `i`. */
  ghost predicate Between(d: Disk, u: set<nat>, e: Disk, u': set<nat>, b: nat, level: nat, base: nat, keep: nat,
                          bs: nat, i: nat, freed: multiset<nat>)
  {
    && level > 0 && b < |d| == |e| && Released(d, u, e, u', b, level, bs, freed)
    && |Ptrs(d[b])| == |Ptrs(e[b])| == bs / 4
    && (forall j :: i < j < bs / 4 ==> Untouched(d, e, b, level, j))
    && (forall q :: |q| == level && IsPath(q, bs) && q[0] < i ==> TrimmedAt(d, e, b, base, keep, bs, q))
  }

  /** Freeing child `i`, which owns nothing but itself, and clearing its pointer finishes it, when nothing
      through it was to be kept. */
  lemma ChildDropped(d: Disk, u: set<nat>, f: Disk, u': set<nat>, g: Disk, b: nat, level: nat,
                     base: nat, keep: nat, bs: nat, i: nat, freed: multiset<nat>, c: nat)
    requires Sized(d, bs) && b != 0 && level > 0 && i < bs / 4 && Sound(d, Nodes(d, b, level)) && Sized(g, bs)
    requires Between(d, u, f, u', b, level, base, keep, bs, i, freed) && Cut(f, g, b, i, c)
    requires Nodes(f, c, level - 1) == multiset{c}
    requires forall q :: |q| == level && IsPath(q, bs) && q[0] == i && base + Off(bs / 4, q) < keep ==> Follow(d, b, q) == 0
    ensures Underway(d, u, g, u' - {c}, b, level, base, keep, bs, i + 1, freed + multiset{c})
    ensures c in Nodes(d, b, level) && c !in freed
  {
    hide Nodes, Forest, Ptrs, Follow, Off, Span, Sound, Untouched, TrimmedAt;
    ReleasedSound(d, u, f, u', b, level, bs, freed);
    SoundBelow(f, b, level, bs);
    ChildCut(f, g, b, level, i, c, bs);
    InNodes(f, b, level, i, c, bs);
    SplitFreed(Nodes(g, b, level), Nodes(f, b, level), multiset{c}, multiset{}, freed, multiset{c}, Nodes(d, b, level));
    forall j | i + 1 <= j < bs / 4 ensures Untouched(d, g, b, level, j) {
      CutUntouched(d, f, g, b, level, i, j, c, bs);
    }
    forall q | |q| == level && IsPath(q, bs) && q[0] < i + 1 ensures TrimmedAt(d, g, b, base, keep, bs, q) {
      if q[0] == i {
        CutPath(d, g, b, level, base, keep, bs, i, q);
      } else {
        StillTrimmed(d, f, g, b, level, base, keep, bs, i, q);
      }
    }
  }

  lemma InNodes(d: Disk, b: nat, level: nat, i: nat, c: nat, bs: nat)
    requires Sized(d, bs) && b != 0 && level > 0 && Sound(d, Nodes(d, b, level)) && i < bs / 4
    requires b < |d| && |Ptrs(d[b])| == bs / 4 && c == Ptrs(d[b])[i] && Nodes(d, c, level - 1) == multiset{c}
    ensures c in Nodes(d, b, level)
  {
    hide Nodes, Forest, Ptrs;
    SoundChild(d, b, level, i, bs);
  }

  lemma CutUntouched(d: Disk, f: Disk, g: Disk, b: nat, level: nat, i: nat, j: nat, c: nat, bs: nat)
    requires Sized(f, bs) && b != 0 && level > 0 && b < |d| == |f| && Cut(f, g, b, i, c) && i != j && j < bs / 4
    requires |Ptrs(d[b])| == |Ptrs(f[b])| == bs / 4 && Untouched(d, f, b, level, j)
    requires Agree(f, g, Nodes(f, Ptrs(f[b])[j], level - 1))
    ensures Untouched(d, g, b, level, j)
  {
    hide Nodes, Forest, Ptrs;
    NodesFrame(d, f, Ptrs(d[b])[j], level - 1);
  }

  lemma CutPath(d: Disk, g: Disk, b: nat, level: nat, base: nat, keep: nat, bs: nat, i: nat, q: seq<nat>)
    requires b != 0 && level > 0 && b < |g| && |Ptrs(g[b])| == bs / 4 && i < bs / 4 && Ptrs(g[b])[i] == 0
    requires |q| == level && IsPath(q, bs) && q[0] == i
    requires base + Off(bs / 4, q) < keep ==> Follow(d, b, q) == 0
    ensures TrimmedAt(d, g, b, base, keep, bs, q)
  {
    hide Nodes, Forest, Ptrs, Follow, Off, Span;
    ThroughChild(g, b, level, q, bs);
    FollowEnds(g, 0, q[1..]);
  }

  // ---------------------------------------------------------------- no empty indirect blocks

  /** Some pointer of block `b` is not null. */
  ghost predicate Occupied(d: Disk, b: nat)
  {
    b < |d| && exists i :: 0 <= i < |Ptrs(d[b])| && Ptrs(d[b])[i] != 0
  }

  /** Every indirect block of the tree that reaches past the cut has a pointer left. */
  ghost predicate Packed(d: Disk, b: nat, level: nat, base: nat, keep: nat, bs: nat)
    decreases level, 1
  {
    b == 0 || level == 0 || base + Span(bs / 4, level) <= keep
    || (Occupied(d, b) && PackedBelow(d, b, level, base, keep, bs, bs / 4))
  }

  /** The same for the trees of the first `i` pointers. */
  ghost predicate PackedBelow(d: Disk, b: nat, level: nat, base: nat, keep: nat, bs: nat, i: nat)
    decreases level, 0
  {
    level > 0 && b < |d| && i <= |Ptrs(d[b])|
    && forall j :: 0 <= j < i ==> Packed(d, Ptrs(d[b])[j], level - 1, ChildBase(base, j, level, bs), keep, bs)
  }

  lemma {:induction false} PackedFrame(d: Disk, e: Disk, b: nat, level: nat, base: nat, keep: nat, bs: nat)
    requires Packed(d, b, level, base, keep, bs) && Agree(d, e, Nodes(d, b, level))
    ensures Packed(e, b, level, base, keep, bs)
    decreases level
  {
    hide Nodes, Forest, Ptrs, Span;
    if b != 0 && level > 0 && base + Span(bs / 4, level) > keep {
      RootInNodes(d, b, level);
      NodesSplit(d, b, level);
      forall j | 0 <= j < bs / 4 ensures Packed(e, Ptrs(e[b])[j], level - 1, ChildBase(base, j, level, bs), keep, bs) {
        ForestAgree(d, e, Ptrs(d[b]), j, level - 1);
        PackedFrame(d, e, Ptrs(d[b])[j], level - 1, ChildBase(base, j, level, bs), keep, bs);
      }
    }
  }

  /** Only the indirect blocks matter, not what a data block holds. */
  lemma {:induction false} PackedLeaf(d: Disk, e: Disk, root: nat, path: seq<nat>, base: nat, keep: nat, bs: nat)
    requires Sized(d, bs) && IsPath(path, bs) && Sound(d, Nodes(d, root, |path|)) && Follow(d, root, path) != 0
    requires |e| == |d| && forall y :: 0 <= y < |d| && y != Follow(d, root, path) ==> e[y] == d[y]
    requires Packed(d, root, |path|, base, keep, bs)
    ensures Packed(e, root, |path|, base, keep, bs)
    decreases |path|
  {
    hide Nodes, Forest, Ptrs, Follow, Span, ChildBase;
    if path != [] && root != 0 && base + Span(bs / 4, |path|) > keep {
      var level := |path|;
      SoundBelow(d, root, level, bs);
      SoundChild(d, root, level, path[0], bs);
      FollowStep(d, root, path);
      var ps := Ptrs(d[root]);
      FollowInNodes(d, ps[path[0]], path[1..], level - 1, bs);
      assert e[root] == d[root];
      forall j | 0 <= j < bs / 4 ensures Packed(e, ps[j], level - 1, ChildBase(base, j, level, bs), keep, bs) {
        if j == path[0] {
          PackedLeaf(d, e, ps[j], path[1..], ChildBase(base, j, level, bs), keep, bs);
        } else {
          SiblingFrame(d, e, ps, path[0], j, level - 1);
          PackedFrame(d, e, ps[j], level - 1, ChildBase(base, j, level, bs), keep, bs);
        }
      }
    }
  }

  /** A change that leaves the first `i` children alone leaves them packed. */
  lemma PackedSiblings(d: Disk, e: Disk, b: nat, level: nat, base: nat, keep: nat, bs: nat, i: nat)
    requires level > 0 && PackedBelow(d, b, level, base, keep, bs, i) && b < |e| && |Ptrs(e[b])| == |Ptrs(d[b])|
    requires forall j :: 0 <= j < i ==> Ptrs(e[b])[j] == Ptrs(d[b])[j] && Agree(d, e, Nodes(d, Ptrs(d[b])[j], level - 1))
    ensures PackedBelow(e, b, level, base, keep, bs, i)
  {
    hide Nodes, Ptrs, Packed;
    forall j | 0 <= j < i ensures Packed(e, Ptrs(e[b])[j], level - 1, ChildBase(base, j, level, bs), keep, bs) {
      PackedFrame(d, e, Ptrs(d[b])[j], level - 1, ChildBase(base, j, level, bs), keep, bs);
    }
  }

  lemma PackedStep(d: Disk, b: nat, level: nat, base: nat, keep: nat, bs: nat, i: nat)
    requires level > 0 && PackedBelow(d, b, level, base, keep, bs, i) && i < |Ptrs(d[b])|
    requires Packed(d, Ptrs(d[b])[i], level - 1, ChildBase(base, i, level, bs), keep, bs)
    ensures PackedBelow(d, b, level, base, keep, bs, i + 1)
  {
    hide Nodes, Ptrs, Packed;
  }

  /** A packed tree wholly at or past the cut leads to data, so once its data is gone it is gone. */
  lemma {:induction false} PackedPastCut(d: Disk, b: nat, level: nat, base: nat, keep: nat, bs: nat)
    requires Packed(d, b, level, base, keep, bs) && keep <= base && Sized(d, bs) && bs >= 4
    requires forall q :: |q| == level && IsPath(q, bs) ==> Follow(d, b, q) == 0
    ensures b == 0
    decreases level
  {
    hide Nodes, Ptrs, Follow;
    if level == 0 {
      FollowEnds(d, b, []);
      assert Follow(d, b, []) == 0;
    } else if b != 0 {
      SpanPositive(bs / 4, level);
      PtrsLength(d[b]);
      var i :| 0 <= i < |Ptrs(d[b])| && Ptrs(d[b])[i] != 0;
      forall q | |q| == level - 1 && IsPath(q, bs) ensures Follow(d, Ptrs(d[b])[i], q) == 0 {
        var r := [i] + q;
        assert r[1..] == q;
        FollowStep(d, b, r);
      }
      assert ChildBase(base, i, level, bs) >= base;
      PackedPastCut(d, Ptrs(d[b])[i], level - 1, ChildBase(base, i, level, bs), keep, bs);
    }
  }

  lemma SpanPositive(p: nat, level: nat)
    requires p > 0
    ensures Span(p, level) > 0
  {
    if level > 0 { SpanPositive(p, level - 1); }
  }

  // ---------------------------------------------------------------- the whole inode

  /** The tree of one inode pointer cut short, the pointer included: `b` became `c`. */
  ghost predicate TreeCut(d: Disk, u: set<nat>, b: nat, e: Disk, u': set<nat>, c: nat, level: nat, base: nat, keep: nat,
                          bs: nat, freed: multiset<nat>)
  {
    && |d| == |e| && Sized(e, bs) && (c == b || c == 0)
    && Nodes(e, c, level) + freed == Nodes(d, b, level)
    && (forall x :: 0 <= x < |d| && x !in Nodes(d, b, level) ==> e[x] == d[x])
    && (forall x :: x in u' <==> x in u && x !in freed)
    && (forall q :: |q| == level && IsPath(q, bs) ==> RouteCut(d, b, e, c, base, keep, bs, q))
  }

  ghost predicate RouteCut(d: Disk, b: nat, e: Disk, c: nat, base: nat, keep: nat, bs: nat, q: seq<nat>)
  {
    var x := Follow(d, b, q);
    if base + Off(bs / 4, q) < keep then Follow(e, c, q) == x && (x != 0 && x < |d| && x < |e| ==> e[x] == d[x])
    else Follow(e, c, q) == 0
  }

  /** The inode pointers before `s` are cut short, the others untouched. */
  ghost predicate FileUnderway(d: Disk, u: set<nat>, blk: seq<nat>, e: Disk, u': set<nat>, blk': seq<nat>, keep: nat,
                               bs: nat, s: nat, freed: multiset<nat>)
  {
    && |blk| == |blk'| == SLOTS && |d| == |e| && Sized(e, bs)
    && Owned(e, blk') + freed == Owned(d, blk)
    && (forall x :: 0 <= x < |d| && x !in Owned(d, blk) ==> e[x] == d[x])
    && (forall x :: x in u' <==> x in u && x !in freed)
    && (forall t :: s <= t < SLOTS ==> SlotUntouched(d, blk, e, blk', t))
    && (forall t, q :: 0 <= t < s && t < SLOTS && |q| == SlotLevel(t) && IsPath(q, bs) ==>
          FileRouteCut(d, blk, e, blk', keep, bs, t, q))
  }

  ghost predicate SlotUntouched(d: Disk, blk: seq<nat>, e: Disk, blk': seq<nat>, t: nat)
    requires t < |blk| && t < |blk'|
  {
    blk'[t] == blk[t] && Agree(d, e, Nodes(d, blk[t], SlotLevel(t)))
  }

  ghost predicate FileRouteCut(d: Disk, blk: seq<nat>, e: Disk, blk': seq<nat>, keep: nat, bs: nat, t: nat, q: seq<nat>)
    requires t < |blk| && t < |blk'|
  {
    RouteCut(d, blk[t], e, blk'[t], Base(bs / 4, t), keep, bs, q)
  }

  lemma FileStart(d: Disk, u: set<nat>, blk: seq<nat>, keep: nat, bs: nat)
    requires |blk| == SLOTS && Sized(d, bs)
    ensures FileUnderway(d, u, blk, d, u, blk, keep, bs, 0, multiset{})
  {
    hide Nodes, Roots, Follow;
  }

  lemma FileSound(d: Disk, u: set<nat>, blk: seq<nat>, e: Disk, u': set<nat>, blk': seq<nat>, keep: nat,
                  bs: nat, s: nat, freed: multiset<nat>)
    requires FileUnderway(d, u, blk, e, u', blk', keep, bs, s, freed) && SoundFile(d, blk, bs)
    ensures SoundFile(e, blk', bs)
    ensures forall x :: x in Owned(e, blk') ==> x in Owned(d, blk) && x !in freed
    ensures |Owned(e, blk')| + |freed| == |Owned(d, blk)|
  {
    hide Nodes, Roots, Follow, RouteCut, Sized;
    var n, m := Owned(d, blk), Owned(e, blk');
    forall x: nat ensures m[x] <= n[x] && m[x] + freed[x] == n[x] { assert (m + freed)[x] == n[x]; }
    forall x | x in m ensures x in n && x !in freed { assert m[x] + freed[x] == n[x]; }
  }

  /** Cutting the tree of pointer `s` finishes it. */
  lemma SlotCut(d: Disk, u: set<nat>, blk: seq<nat>, e: Disk, u': set<nat>, blk': seq<nat>, f: Disk, u'': set<nat>,
                c: nat, keep: nat, bs: nat, s: nat, freed: multiset<nat>, more: multiset<nat>)
    requires FileUnderway(d, u, blk, e, u', blk', keep, bs, s, freed) && SoundFile(d, blk, bs) && s < SLOTS
    requires TreeCut(e, u', blk'[s], f, u'', c, SlotLevel(s), Base(bs / 4, s), keep, bs, more)
    ensures FileUnderway(d, u, blk, f, u'', blk'[s := c], keep, bs, s + 1, freed + more)
  {
    hide Nodes, Roots, Follow, RouteCut, Sound, NoAlias, FileRouteCut, SlotUntouched;
    FileSound(d, u, blk, e, u', blk', keep, bs, s, freed);
    SoundSlot(e, blk', s);
    var next := blk'[s := c];
    forall t | 0 <= t < SLOTS && t != s ensures Nodes(f, next[t], SlotLevel(t)) == Nodes(e, blk'[t], SlotLevel(t)) {
      OtherSlot(e, f, blk', bs, s, t);
    }
    RootsReplace(e, f, blk', next, s, SLOTS);
    SplitFreed(Owned(f, next), Owned(e, blk'), Nodes(e, blk'[s], SlotLevel(s)), Nodes(f, c, SlotLevel(s)), freed, more, Owned(d, blk));
    forall t | s + 1 <= t < SLOTS ensures SlotUntouched(d, blk, f, next, t) {
      assert SlotUntouched(d, blk, e, blk', t);
      UntouchedAgain(d, blk, e, blk', f, next, bs, s, t);
    }
    forall t, q | 0 <= t < s + 1 && t < SLOTS && |q| == SlotLevel(t) && IsPath(q, bs)
      ensures FileRouteCut(d, blk, f, next, keep, bs, t, q)
    {
      if t == s {
        assert SlotUntouched(d, blk, e, blk', s);
        assert RouteCut(e, blk'[s], f, c, Base(bs / 4, s), keep, bs, q);
        CutHere(d, blk, e, blk', f, next, keep, bs, s, q);
      } else {
        assert FileRouteCut(d, blk, e, blk', keep, bs, t, q);
        CutElsewhere(d, blk, e, blk', f, next, keep, bs, s, t, q);
      }
    }
  }

  lemma UntouchedAgain(d: Disk, blk: seq<nat>, e: Disk, blk': seq<nat>, f: Disk, next: seq<nat>, bs: nat, s: nat, t: nat)
    requires |blk| == SLOTS && SoundFile(e, blk', bs) && s < SLOTS && t < SLOTS && s != t && |d| == |e| == |f|
    requires |next| == SLOTS && next[t] == blk'[t] && SlotUntouched(d, blk, e, blk', t)
    requires forall y :: 0 <= y < |e| && y !in Nodes(e, blk'[s], SlotLevel(s)) ==> f[y] == e[y]
    ensures SlotUntouched(d, blk, f, next, t)
  {
    hide Nodes, Roots, Follow;
    OtherSlot(e, f, blk', bs, s, t);
    NodesFrame(d, e, blk[t], SlotLevel(t));
  }

  lemma CutHere(d: Disk, blk: seq<nat>, e: Disk, blk': seq<nat>, f: Disk, next: seq<nat>, keep: nat, bs: nat, s: nat, q: seq<nat>)
    requires |blk'| == |next| == SLOTS && SoundFile(d, blk, bs) && s < SLOTS && |d| == |e| == |f| && |q| == SlotLevel(s) && IsPath(q, bs)
    requires SlotUntouched(d, blk, e, blk', s) && RouteCut(e, blk'[s], f, next[s], Base(bs / 4, s), keep, bs, q)
    ensures FileRouteCut(d, blk, f, next, keep, bs, s, q)
  {
    hide Nodes, Roots, Follow, Off, Base;
    FollowFrame(d, e, blk[s], q, SlotLevel(s));
    SoundSlot(d, blk, s);
    if Follow(d, blk[s], q) != 0 { FollowInNodes(d, blk[s], q, SlotLevel(s), bs); }
  }

  lemma CutElsewhere(d: Disk, blk: seq<nat>, e: Disk, blk': seq<nat>, f: Disk, next: seq<nat>, keep: nat, bs: nat,
                     s: nat, t: nat, q: seq<nat>)
    requires |blk| == SLOTS && SoundFile(e, blk', bs) && s < SLOTS && t < SLOTS && s != t && |d| == |e| == |f|
    requires |next| == SLOTS && next[t] == blk'[t] && |q| == SlotLevel(t) && IsPath(q, bs)
    requires forall y :: 0 <= y < |e| && y !in Nodes(e, blk'[s], SlotLevel(s)) ==> f[y] == e[y]
    requires FileRouteCut(d, blk, e, blk', keep, bs, t, q)
    ensures FileRouteCut(d, blk, f, next, keep, bs, t, q)
  {
    hide Nodes, Roots, Follow, Off, Base;
    OtherSlot(e, f, blk', bs, s, t);
    SoundSlot(e, blk', t);
    if Follow(e, blk'[t], q) != 0 { FollowInNodes(e, blk'[t], q, SlotLevel(t), bs); }
  }

  // ---------------------------------------------------------------- how one pointer may be cut

  lemma TreeKept(d: Disk, u: set<nat>, b: nat, level: nat, base: nat, keep: nat, bs: nat)
    requires Sized(d, bs) && (b == 0 || (level == 0 && base < keep))
    ensures TreeCut(d, u, b, d, u, b, level, base, keep, bs, multiset{})
  {
    hide Nodes, Follow;
    forall q | |q| == level && IsPath(q, bs) ensures RouteCut(d, b, d, b, base, keep, bs, q) {
      FollowEnds(d, b, q);
    }
  }

  lemma TreeTrimmed(d: Disk, u: set<nat>, b: nat, e: Disk, u': set<nat>, level: nat, base: nat, keep: nat, bs: nat,
                    freed: multiset<nat>)
    requires Released(d, u, e, u', b, level, bs, freed) && Trimmed(d, e, b, level, base, keep, bs)
    ensures TreeCut(d, u, b, e, u', b, level, base, keep, bs, freed)
  {
    hide Nodes, Follow;
    forall q | |q| == level && IsPath(q, bs) ensures RouteCut(d, b, e, b, base, keep, bs, q) {
      assert TrimmedAt(d, e, b, base, keep, bs, q);
    }
  }

  /** A tree of one block dropped, nothing of it to be kept. */
  lemma TreeDropped(d: Disk, u: set<nat>, b: nat, e: Disk, u': set<nat>, f: Disk, u'': set<nat>, level: nat, base: nat,
                    keep: nat, bs: nat, freed: multiset<nat>)
    requires b != 0 && |d| == |e| == |f| && Sized(f, bs) && Released(d, u, e, u', b, level, bs, freed)
    requires Nodes(e, b, level) == multiset{b} && b in Nodes(d, b, level)
    requires forall x :: 0 <= x < |e| && x != b ==> f[x] == e[x]
    requires forall x :: x in u'' <==> x in u' && x != b
    requires forall q :: |q| == level && IsPath(q, bs) && base + Off(bs / 4, q) < keep ==> Follow(d, b, q) == 0
    ensures TreeCut(d, u, b, f, u'', 0, level, base, keep, bs, freed + multiset{b})
  {
    hide Nodes, Follow, Off;
    NoNodes(f, level);
    forall q | |q| == level && IsPath(q, bs) ensures RouteCut(d, b, f, 0, base, keep, bs, q) {
      FollowEnds(f, 0, q);
    }
  }

  /** No tree of the first `s` inode pointers keeps an empty indirect block that reaches past the cut. */
  ghost predicate FilePacked(d: Disk, blk: seq<nat>, keep: nat, bs: nat, s: nat)
  {
    |blk| == SLOTS && forall t :: 0 <= t < s && t < SLOTS ==> Packed(d, blk[t], SlotLevel(t), Base(bs / 4, t), keep, bs)
  }

  lemma SlotPacked(e: Disk, u: set<nat>, blk: seq<nat>, f: Disk, u': set<nat>, c: nat, keep: nat, bs: nat, s: nat, freed: multiset<nat>)
    requires SoundFile(e, blk, bs) && s < SLOTS && FilePacked(e, blk, keep, bs, s)
    requires TreeCut(e, u, blk[s], f, u', c, SlotLevel(s), Base(bs / 4, s), keep, bs, freed)
    requires Packed(f, c, SlotLevel(s), Base(bs / 4, s), keep, bs)
    ensures FilePacked(f, blk[s := c], keep, bs, s + 1)
  {
    hide Nodes, Roots, Follow, RouteCut, NoAlias, Packed;
    var next := blk[s := c];
    forall t | 0 <= t < s + 1 && t < SLOTS ensures Packed(f, next[t], SlotLevel(t), Base(bs / 4, t), keep, bs) {
      if t != s {
        OtherSlot(e, f, blk, bs, s, t);
        PackedFrame(e, f, blk[t], SlotLevel(t), Base(bs / 4, t), keep, bs);
      }
    }
  }

  lemma FilePackedLeaf(d: Disk, e: Disk, blk: seq<nat>, keep: nat, bs: nat, l: nat)
    requires SoundFile(d, blk, bs) && Map(d, blk, l, bs / 4) != 0 && |e| == |d|
    requires forall y :: 0 <= y < |d| && y != Map(d, blk, l, bs / 4) ==> e[y] == d[y]
    requires FilePacked(d, blk, keep, bs, SLOTS)
    ensures FilePacked(e, blk, keep, bs, SLOTS)
  {
    hide Nodes, Follow, Roots, RouteOf, Off, Base, Packed, NoAlias;
    RouteMeaning(bs / 4, l);
    var r := RouteOf(bs / 4, l).value;
    SoundSlot(d, blk, r.slot);
    FollowInNodes(d, blk[r.slot], r.path, SlotLevel(r.slot), bs);
    forall t | 0 <= t < SLOTS ensures Packed(e, blk[t], SlotLevel(t), Base(bs / 4, t), keep, bs) {
      if t == r.slot {
        PackedLeaf(d, e, blk[t], r.path, Base(bs / 4, t), keep, bs);
      } else {
        OtherSlot(d, e, blk, bs, r.slot, t);
        PackedFrame(d, e, blk[t], SlotLevel(t), Base(bs / 4, t), keep, bs);
      }
    }
  }

  /** Cutting at the start of a slot's range, or before, leaves nothing of it; cutting at 0, nothing at all. */
  lemma PastCutGone(d: Disk, u: set<nat>, blk: seq<nat>, e: Disk, u': set<nat>, blk': seq<nat>, keep: nat, bs: nat,
                    freed: multiset<nat>, s: nat)
    requires FileUnderway(d, u, blk, e, u', blk', keep, bs, SLOTS, freed) && FilePacked(e, blk', keep, bs, SLOTS)
    requires s < SLOTS && keep <= Base(bs / 4, s) && bs >= 4
    ensures blk'[s] == 0
  {
    hide Nodes, Roots, Follow, Packed, SlotUntouched, Base, Off;
    forall q | |q| == SlotLevel(s) && IsPath(q, bs) ensures Follow(e, blk'[s], q) == 0 {
      assert FileRouteCut(d, blk, e, blk', keep, bs, s, q);
    }
    PackedPastCut(e, blk'[s], SlotLevel(s), Base(bs / 4, s), keep, bs);
  }
}
