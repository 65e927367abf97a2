/** The sorted table of virtual memory areas of one address space (kernel/src/vm.rs:40-244),
    and the page map it stands for. */
module VmaTable {
  import opened Basics

  const PAGE: nat := 4096
  const MMAP_BASE: nat := 0x20_0000_0000
  const MMAP_END: nat := 0x3F_0000_0000
  const U64: nat := 0x1_0000_0000_0000_0000

  /** What backs one page: zero-filled private memory, a page of a shared object, or a page of a file. */
  datatype Backing = Anon | Shared(obj: nat, page: nat) | File(ino: nat, page: nat)

  datatype Page = Page(prot: nat, backing: Backing)

  datatype Vma = Vma(start: nat, end: nat, prot: nat, obj: nat, ino: nat, pgoff: nat)
  {
    predicate Covers(a: nat) { start <= a < end }

    /** Non-empty and page aligned. */
    predicate Sane() { start < end && start % PAGE == 0 && end % PAGE == 0 }

    function BackingAt(a: nat): Backing
      requires Covers(a)
    {
      if obj != 0 then Shared(obj, pgoff + (a - start) / PAGE)
      else if ino != 0 then File(ino, pgoff + (a - start) / PAGE)
      else Anon
    }

    function PageAt(a: nat): Page
      requires Covers(a)
    {
      Page(prot, BackingAt(a))
    }
  }

  ghost predicate Sorted(vs: seq<Vma>)
  {
    && (forall i :: 0 <= i < |vs| ==> vs[i].Sane())
    && (forall i, j :: 0 <= i < j < |vs| ==> vs[i].end <= vs[j].start)
  }

  /** The abstract page map: what the table says about address `a`. */
  ghost function At(vs: seq<Vma>, a: nat): Option<Page>
  {
    if vs == [] then None
    else if vs[0].Covers(a) then Some(vs[0].PageAt(a))
    else At(vs[1..], a)
  }

  /** How many entries of the table name the shared object `id`. */
  ghost function Refs(vs: seq<Vma>, id: nat): nat
  {
    if vs == [] then 0 else (if vs[0].obj == id then 1 else 0) + Refs(vs[1..], id)
  }

  lemma {:induction false} AtConcat(xs: seq<Vma>, ys: seq<Vma>, a: nat)
    ensures At(xs + ys, a) == if At(xs, a).Some? then At(xs, a) else At(ys, a)
  {
    if xs == [] {
      assert xs + ys == ys;
    } else {
      assert (xs + ys)[1..] == xs[1..] + ys;
      AtConcat(xs[1..], ys, a);
    }
  }

  lemma {:induction false} RefsConcat(xs: seq<Vma>, ys: seq<Vma>, id: nat)
    ensures Refs(xs + ys, id) == Refs(xs, id) + Refs(ys, id)
  {
    if xs == [] {
      assert xs + ys == ys;
    } else {
      assert (xs + ys)[1..] == xs[1..] + ys;
      RefsConcat(xs[1..], ys, id);
    }
  }

  /** An address is mapped exactly when some entry covers it. */
  lemma {:induction false} AtMapped(vs: seq<Vma>, a: nat)
    ensures At(vs, a).Some? <==> exists i :: 0 <= i < |vs| && vs[i].Covers(a)
  {
    if vs != [] {
      AtMapped(vs[1..], a);
      if vs[0].Covers(a) {
      } else if At(vs, a).Some? {
        var i :| 0 <= i < |vs[1..]| && vs[1..][i].Covers(a);
        assert vs[i + 1].Covers(a);
      } else {
        forall i | 0 <= i < |vs| ensures !vs[i].Covers(a) {
          if i > 0 { assert vs[1..][i - 1] == vs[i]; }
        }
      }
    }
  }

  lemma {:induction false} AtIndex(vs: seq<Vma>, i: nat, a: nat)
    requires Sorted(vs) && i < |vs| && vs[i].Covers(a)
    ensures At(vs, a) == Some(vs[i].PageAt(a))
  {
    if i > 0 {
      assert vs[0].end <= vs[i].start;
      AtIndex(vs[1..], i - 1, a);
    }
  }

  lemma AtOne(v: Vma, a: nat)
    ensures At([v], a) == if v.Covers(a) then Some(v.PageAt(a)) else None
  {
    assert [v][1..] == [];
  }

  /** A table splits around any position: lookups consult the part before, the entry, the part after. */
  lemma AtAround(xs: seq<Vma>, v: Vma, ys: seq<Vma>, a: nat)
    ensures At(xs + [v] + ys, a) ==
            if At(xs, a).Some? then At(xs, a) else if v.Covers(a) then Some(v.PageAt(a)) else At(ys, a)
  {
    AtConcat(xs + [v], ys, a);
    AtConcat(xs, [v], a);
    AtOne(v, a);
  }

  lemma RefsAround(xs: seq<Vma>, v: Vma, ys: seq<Vma>, id: nat)
    ensures Refs(xs + [v] + ys, id) == Refs(xs, id) + (if v.obj == id then 1 else 0) + Refs(ys, id)
  {
    RefsConcat(xs + [v], ys, id);
    RefsConcat(xs, [v], id);
    assert [v][1..] == [];
    assert Refs([v], id) == if v.obj == id then 1 else 0;
  }

  // ---------------------------------------------------------------- carving

  /** The part of `v` from `e` on; its offset into the object or file moves along. */
  function Tail(v: Vma, e: nat): Vma
    requires v.start <= e
  {
    v.(start := e, pgoff := v.pgoff + (e - v.start) / PAGE)
  }

  /** What is left of one entry when [s, e) is taken out of it. */
  function Clip(v: Vma, s: nat, e: nat): seq<Vma>
    requires s < e
  {
    if v.end <= s || e <= v.start then [v]
    else (if v.start < s then [v.(end := s)] else []) + (if e < v.end then [Tail(v, e)] else [])
  }

  /** The reference meaning of `carve`: every entry clipped on its own. */
  function Carved(vs: seq<Vma>, s: nat, e: nat): seq<Vma>
    requires s < e
  {
    if vs == [] then [] else Clip(vs[0], s, e) + Carved(vs[1..], s, e)
  }

  lemma {:induction false} CarvedConcat(xs: seq<Vma>, ys: seq<Vma>, s: nat, e: nat)
    requires s < e
    ensures Carved(xs + ys, s, e) == Carved(xs, s, e) + Carved(ys, s, e)
  {
    if xs == [] {
      assert xs + ys == ys;
    } else {
      assert (xs + ys)[1..] == xs[1..] + ys;
      CarvedConcat(xs[1..], ys, s, e);
    }
  }

  /** Entries away from the range are left alone. */
  lemma {:induction false} CarvedApart(vs: seq<Vma>, s: nat, e: nat)
    requires s < e
    requires forall i :: 0 <= i < |vs| ==> vs[i].end <= s || e <= vs[i].start
    ensures Carved(vs, s, e) == vs
  {
    if vs != [] {
      CarvedApart(vs[1..], s, e);
    }
  }

  lemma TailPage(v: Vma, e: nat, a: nat)
    requires v.Sane() && v.start <= e && e % PAGE == 0 && e <= a < v.end
    ensures Tail(v, e).PageAt(a) == v.PageAt(a)
  {
    assert (a - v.start) / PAGE == (e - v.start) / PAGE + (a - e) / PAGE;
  }

  lemma ClipAt(v: Vma, s: nat, e: nat, a: nat)
    requires v.Sane() && s < e && s % PAGE == 0 && e % PAGE == 0
    ensures At(Clip(v, s, e), a) == if v.Covers(a) && !(s <= a < e) then Some(v.PageAt(a)) else None
  {
    if e <= a < v.end && v.start <= e { TailPage(v, e, a); }
    AtOne(v, a);
    AtOne(v.(end := s), a);
    if v.start <= e {
      AtOne(Tail(v, e), a);
      AtConcat([v.(end := s)], [Tail(v, e)], a);
    }
  }

  /** Carving removes exactly the requested addresses from the page map. */
  lemma {:induction false} CarvedAt(vs: seq<Vma>, s: nat, e: nat, a: nat)
    requires Sorted(vs) && s < e && s % PAGE == 0 && e % PAGE == 0
    ensures At(Carved(vs, s, e), a) == if s <= a < e then None else At(vs, a)
  {
    if vs != [] {
      AtConcat(Clip(vs[0], s, e), Carved(vs[1..], s, e), a);
      ClipAt(vs[0], s, e, a);
      CarvedAt(vs[1..], s, e, a);
    }
  }

  lemma ClipShape(v: Vma, s: nat, e: nat)
    requires v.Sane() && s < e && s % PAGE == 0 && e % PAGE == 0
    ensures Sorted(Clip(v, s, e)) && |Clip(v, s, e)| <= 2
    ensures s <= v.start || v.end <= e ==> |Clip(v, s, e)| <= 1
    ensures forall i :: 0 <= i < |Clip(v, s, e)| ==> v.start <= Clip(v, s, e)[i].start && Clip(v, s, e)[i].end <= v.end
  {
  }

  lemma SortedConcat(xs: seq<Vma>, ys: seq<Vma>, mid: nat)
    requires Sorted(xs) && Sorted(ys)
    requires forall i :: 0 <= i < |xs| ==> xs[i].end <= mid
    requires forall i :: 0 <= i < |ys| ==> mid <= ys[i].start
    ensures Sorted(xs + ys)
  {
  }

  /** The result is a well-formed table that grew by at most one entry, within the old bounds. */
  lemma {:induction false} CarvedSorted(vs: seq<Vma>, s: nat, e: nat)
    requires Sorted(vs) && s < e && s % PAGE == 0 && e % PAGE == 0
    ensures Sorted(Carved(vs, s, e))
    ensures |Carved(vs, s, e)| <= |vs| + 1
    ensures vs != [] && vs[0].start >= s ==> |Carved(vs, s, e)| <= |vs|
    ensures vs != [] ==> forall i :: 0 <= i < |Carved(vs, s, e)| ==> vs[0].start <= Carved(vs, s, e)[i].start
  {
    if vs != [] {
      hide Clip;
      var rest := Carved(vs[1..], s, e);
      CarvedSorted(vs[1..], s, e);
      ClipShape(vs[0], s, e);
      if |vs| > 1 {
        assert vs[1..][0] == vs[1] && vs[0].end <= vs[1].start;
      } else {
        assert vs[1..] == [] && rest == [];
      }
      SortedConcat(Clip(vs[0], s, e), rest, vs[0].end);
    }
  }

  // ---------------------------------------------------------------- inserting, merging, splitting

  /** `v` may be inserted at `i`: it falls between its neighbours. */
  ghost predicate FitsAt(vs: seq<Vma>, i: nat, v: Vma)
  {
    && i <= |vs| && v.Sane()
    && (forall k :: 0 <= k < i ==> vs[k].end <= v.start)
    && (forall k :: i <= k < |vs| ==> v.end <= vs[k].start)
  }

  function Inserted(vs: seq<Vma>, i: nat, v: Vma): (r: seq<Vma>)
    requires i <= |vs|
    ensures |r| == |vs| + 1
  {
    vs[..i] + [v] + vs[i..]
  }

  /** The search position of a free range is where its entry fits. */
  lemma FitsFromFree(vs: seq<Vma>, i: nat, v: Vma)
    requires Sorted(vs) && v.Sane() && i <= |vs| && Free(vs, v.start, v.end - v.start)
    requires forall k :: 0 <= k < i ==> vs[k].end <= v.start
    requires forall k :: i <= k < |vs| ==> v.start < vs[k].end
    ensures FitsAt(vs, i, v)
  {
    FreeEntries(vs, v.start, v.end - v.start);
  }

  lemma InsertedSorted(vs: seq<Vma>, i: nat, v: Vma)
    requires Sorted(vs) && FitsAt(vs, i, v)
    ensures Sorted(Inserted(vs, i, v))
  {
    var r := Inserted(vs, i, v);
    forall k | 0 <= k < |r| ensures r[k] == if k < i then vs[k] else if k == i then v else vs[k - 1] {
    }
  }

  /** Inserting an entry maps its own addresses and nothing else. */
  lemma InsertedAt(vs: seq<Vma>, i: nat, v: Vma, a: nat)
    requires Sorted(vs) && FitsAt(vs, i, v)
    ensures At(Inserted(vs, i, v), a) == if v.Covers(a) then Some(v.PageAt(a)) else At(vs, a)
  {
    AtAround(vs[..i], v, vs[i..], a);
    AtConcat(vs[..i], vs[i..], a);
    assert vs[..i] + vs[i..] == vs;
    AtMapped(vs[..i], a);
  }

  lemma InsertedRefs(vs: seq<Vma>, i: nat, v: Vma, id: nat)
    requires i <= |vs|
    ensures Refs(Inserted(vs, i, v), id) == Refs(vs, id) + if v.obj == id then 1 else 0
  {
    RefsAround(vs[..i], v, vs[i..], id);
    RefsConcat(vs[..i], vs[i..], id);
    assert vs[..i] + vs[i..] == vs;
  }

  predicate Mergeable(x: Vma, y: Vma)
  {
    && x.end == y.start && x.prot == y.prot && x.obj == y.obj && x.ino == y.ino
    && ((x.obj == 0 && x.ino == 0) || x.pgoff + (x.end - x.start) / PAGE == y.pgoff)
  }

  /** Entries `i` and `i + 1` replaced by one entry that spans both. */
  function Fused(vs: seq<Vma>, i: nat): (r: seq<Vma>)
    requires i + 1 < |vs|
    ensures |r| == |vs| - 1
  {
    vs[..i] + [vs[i].(end := vs[i + 1].end)] + vs[i + 2..]
  }

  lemma FusedSorted(vs: seq<Vma>, i: nat)
    requires Sorted(vs) && i + 1 < |vs| && Mergeable(vs[i], vs[i + 1])
    ensures Sorted(Fused(vs, i))
  {
    var r := Fused(vs, i);
    forall k | 0 <= k < |r|
      ensures r[k] == if k < i then vs[k] else if k == i then vs[i].(end := vs[i + 1].end) else vs[k + 1] {
    }
  }

  lemma MergedPage(x: Vma, y: Vma, a: nat)
    requires x.Sane() && y.Sane() && Mergeable(x, y) && y.Covers(a)
    ensures x.(end := y.end).PageAt(a) == y.PageAt(a)
  {
    assert (a - x.start) / PAGE == (x.end - x.start) / PAGE + (a - y.start) / PAGE;
  }

  /** Fusing two compatible neighbours does not change the page map. */
  lemma FusedAt(vs: seq<Vma>, i: nat, a: nat)
    requires Sorted(vs) && i + 1 < |vs| && Mergeable(vs[i], vs[i + 1])
    ensures At(Fused(vs, i), a) == At(vs, a)
  {
    var x, y := vs[i], vs[i + 1];
    AtAround(vs[..i], x.(end := y.end), vs[i + 2..], a);
    AtAround(vs[..i], x, vs[i + 1..], a);
    assert vs[..i] + [x] + vs[i + 1..] == vs;
    assert vs[i + 1..][1..] == vs[i + 2..];
    if y.Covers(a) { MergedPage(x, y, a); }
  }

  lemma FusedRefs(vs: seq<Vma>, i: nat, id: nat)
    requires i + 1 < |vs| && Mergeable(vs[i], vs[i + 1])
    ensures Refs(Fused(vs, i), id) + (if vs[i + 1].obj == id then 1 else 0) == Refs(vs, id)
  {
    RefsAround(vs[..i], vs[i].(end := vs[i + 1].end), vs[i + 2..], id);
    RefsAround(vs[..i], vs[i], vs[i + 1..], id);
    assert vs[..i] + [vs[i]] + vs[i + 1..] == vs;
    assert vs[i + 1..][1..] == vs[i + 2..];
  }

  /** Entry `i` cut in two at `addr`. */
  function Halved(vs: seq<Vma>, i: nat, addr: nat): seq<Vma>
    requires i < |vs| && vs[i].start <= addr
  {
    vs[..i] + [vs[i].(end := addr)] + [Tail(vs[i], addr)] + vs[i + 1..]
  }

  /** Fusing the halves gives the table back. */
  lemma HalvedFused(vs: seq<Vma>, i: nat, addr: nat)
    requires Sorted(vs) && i < |vs| && vs[i].start < addr < vs[i].end && addr % PAGE == 0
    ensures var r := Halved(vs, i, addr);
            && Sorted(r) && |r| == |vs| + 1 && Mergeable(r[i], r[i + 1]) && Fused(r, i) == vs
  {
    var r := Halved(vs, i, addr);
    TwoHalves(vs[i], addr);
    hide Tail, Mergeable;
    forall k | 0 <= k < |r|
      ensures r[k] == if k < i then vs[k] else if k == i then vs[i].(end := addr)
                      else if k == i + 1 then Tail(vs[i], addr) else vs[k - 1] {
    }
    HalvedSorted(vs, r, i, vs[i].(end := addr), Tail(vs[i], addr));
    assert r[i + 2..] == vs[i + 1..];
    assert r[..i] == vs[..i];
    assert r[i].(end := r[i + 1].end) == vs[i];
  }

  /** The two halves of one entry. */
  lemma TwoHalves(v: Vma, addr: nat)
    requires v.Sane() && v.start < addr < v.end && addr % PAGE == 0
    ensures var x, y := v.(end := addr), Tail(v, addr);
            x.Sane() && y.Sane() && y.start == addr && y.end == v.end && Mergeable(x, y) && x.(end := y.end) == v
  {
  }

  lemma HalvedSorted(vs: seq<Vma>, r: seq<Vma>, i: nat, x: Vma, y: Vma)
    requires Sorted(vs) && i < |vs| && x.Sane() && y.Sane() && r == vs[..i] + [x] + [y] + vs[i + 1..]
    requires x.start == vs[i].start && x.end <= y.start && y.end == vs[i].end
    ensures Sorted(r)
  {
    hide Sorted;
    forall k | 0 <= k < |r| ensures r[k].Sane() {
      if k < i { SaneAt(vs, k); } else if k > i + 1 { SaneAt(vs, k - 1); }
    }
    forall j, k | 0 <= j < k < |r| ensures r[j].end <= r[k].start {
      if k <= i { ApartAt(vs, j, k); } else if j > i { ApartAt(vs, j - 1, k - 1); }
      else if j < k - 1 { ApartAt(vs, j, k - 1); }
      if k == i { assert x.start <= x.end; }
      if j == i + 1 { assert y.start <= y.end; }
    }
    SortedFrom(r);
  }

  lemma SaneAt(vs: seq<Vma>, k: nat)
    requires Sorted(vs) && k < |vs|
    ensures vs[k].Sane() && vs[k].start < vs[k].end
  {
  }

  lemma ApartAt(vs: seq<Vma>, j: nat, k: nat)
    requires Sorted(vs) && j < k < |vs|
    ensures vs[j].end <= vs[k].start
  {
  }

  lemma SortedFrom(r: seq<Vma>)
    requires forall k :: 0 <= k < |r| ==> r[k].Sane()
    requires forall j, k :: 0 <= j < k < |r| ==> r[j].end <= r[k].start
    ensures Sorted(r)
  {
  }

  /** Entry `i` shrunk in place. */
  lemma ShrunkMeaning(vs: seq<Vma>, i: nat, v: Vma)
    requires Sorted(vs) && i < |vs| && v.Sane() && vs[i].start <= v.start && v.end <= vs[i].end && v.obj == vs[i].obj
    ensures Sorted(vs[i := v])
    ensures forall id :: Refs(vs[i := v], id) == Refs(vs, id)
  {
    forall id ensures Refs(vs[i := v], id) == Refs(vs, id) {
      RefsAround(vs[..i], v, vs[i + 1..], id);
      RefsAround(vs[..i], vs[i], vs[i + 1..], id);
      assert vs[..i] + [v] + vs[i + 1..] == vs[i := v];
      assert vs[..i] + [vs[i]] + vs[i + 1..] == vs;
    }
  }

  lemma RemovedSorted(vs: seq<Vma>, i: nat)
    requires Sorted(vs) && i < |vs|
    ensures Sorted(vs[..i] + vs[i + 1..])
  {
    var r := vs[..i] + vs[i + 1..];
    forall k | 0 <= k < |r| ensures r[k] == if k < i then vs[k] else vs[k + 1] {
    }
  }

  lemma RemovedRefs(vs: seq<Vma>, i: nat, id: nat)
    requires i < |vs|
    ensures Refs(vs[..i] + vs[i + 1..], id) + (if vs[i].obj == id then 1 else 0) == Refs(vs, id)
  {
    RefsConcat(vs[..i], vs[i + 1..], id);
    RefsAround(vs[..i], vs[i], vs[i + 1..], id);
    assert vs[..i] + [vs[i]] + vs[i + 1..] == vs;
  }

  lemma CarvedStep(vs: seq<Vma>, i: nat, s: nat, e: nat)
    requires i < |vs| && s < e
    ensures Carved(vs[i..], s, e) == Clip(vs[i], s, e) + Carved(vs[i + 1..], s, e)
  {
    assert vs[i..][1..] == vs[i + 1..];
  }

  lemma CarvedBefore(vs: seq<Vma>, i: nat, s: nat, e: nat)
    requires s < e && i <= |vs| && forall k :: 0 <= k < i ==> vs[k].end <= s
    ensures Carved(vs, s, e) == vs[..i] + Carved(vs[i..], s, e)
  {
    CarvedConcat(vs[..i], vs[i..], s, e);
    CarvedApart(vs[..i], s, e);
    assert vs[..i] + vs[i..] == vs;
  }

  lemma CarvedBeyond(vs: seq<Vma>, i: nat, s: nat, e: nat)
    requires Sorted(vs) && s < e && i <= |vs| && (i < |vs| ==> e <= vs[i].start)
    ensures Carved(vs[i..], s, e) == vs[i..]
  {
    forall k | 0 <= k < |vs[i..]| ensures e <= vs[i..][k].start {
      if k > 0 { assert vs[i].end <= vs[i + k].start; }
    }
    CarvedApart(vs[i..], s, e);
  }

  lemma UpdateAround(vs: seq<Vma>, i: nat, v: Vma)
    requires i < |vs|
    ensures vs[..i] + ([v] + vs[i + 1..]) == vs[i := v]
    ensures vs[i := v][..i + 1] == vs[..i] + [v]
    ensures vs[i := v][i + 1..] == vs[i + 1..]
  {
  }

  lemma CarvedAfter(vs: seq<Vma>, i: nat, s: nat, e: nat)
    requires Sorted(vs) && s < e && i < |vs| && e <= vs[i].end
    ensures Carved(vs[i + 1..], s, e) == vs[i + 1..]
  {
    if i + 1 < |vs| { assert vs[i].end <= vs[i + 1].start; }
    CarvedBeyond(vs, i + 1, s, e);
  }

  // ---------------------------------------------------------------- changing protection

  /** `ws` is `vs` with the protection of entries [i, j) replaced. */
  ghost predicate Reprotected(vs: seq<Vma>, ws: seq<Vma>, i: nat, j: nat, prot: nat)
  {
    && |vs| == |ws|
    && forall k :: 0 <= k < |vs| ==> ws[k] == if i <= k < j then vs[k].(prot := prot) else vs[k]
  }

  lemma {:induction false} ReprotectedRefs(vs: seq<Vma>, ws: seq<Vma>, i: nat, j: nat, prot: nat, id: nat)
    requires Reprotected(vs, ws, i, j, prot)
    ensures Refs(ws, id) == Refs(vs, id)
  {
    if vs != [] {
      ReprotectedRefs(vs[1..], ws[1..], if i == 0 then 0 else i - 1, if j == 0 then 0 else j - 1, prot, id);
    }
  }

  lemma ReprotectedSorted(vs: seq<Vma>, ws: seq<Vma>, i: nat, j: nat, prot: nat)
    requires Sorted(vs) && Reprotected(vs, ws, i, j, prot)
    ensures Sorted(ws)
  {
  }

  lemma ReprotectedEntry(vs: seq<Vma>, ws: seq<Vma>, i: nat, j: nat, prot: nat, k: nat, a: nat)
    requires Sorted(vs) && Reprotected(vs, ws, i, j, prot) && k < |vs| && vs[k].Covers(a)
    ensures At(vs, a).Some?
    ensures At(ws, a) == if i <= k < j then Some(At(vs, a).value.(prot := prot)) else At(vs, a)
  {
    hide At;
    ReprotectedSorted(vs, ws, i, j, prot);
    AtIndex(vs, k, a);
    AtIndex(ws, k, a);
  }

  /** When [i, j) are exactly the entries inside [s, e), the change is confined to that range and
      keeps what backs each page. */
  lemma ReprotectedAt(vs: seq<Vma>, ws: seq<Vma>, i: nat, j: nat, prot: nat, s: nat, e: nat, a: nat)
    requires Sorted(vs) && Reprotected(vs, ws, i, j, prot) && i <= j <= |vs|
    requires forall k :: 0 <= k < i ==> vs[k].end <= s
    requires forall k :: i <= k < j ==> s <= vs[k].start && vs[k].end <= e
    requires forall k :: j <= k < |vs| ==> e <= vs[k].start
    ensures At(ws, a) == if s <= a < e && At(vs, a).Some? then Some(At(vs, a).value.(prot := prot)) else At(vs, a)
  {
    hide Sorted, At;
    AtMapped(vs, a);
    AtMapped(ws, a);
    if At(vs, a).Some? {
      var k :| 0 <= k < |vs| && vs[k].Covers(a);
      ReprotectedEntry(vs, ws, i, j, prot, k, a);
    } else {
      forall k | 0 <= k < |ws| ensures !ws[k].Covers(a) { assert !vs[k].Covers(a); }
    }
  }

  // ---------------------------------------------------------------- searching

  /** Binary search: index of the first entry that ends after `addr`. */
  method Lower(vs: seq<Vma>, addr: nat) returns (i: nat)
    requires Sorted(vs)
    ensures i <= |vs|
    ensures forall k :: 0 <= k < i ==> vs[k].end <= addr
    ensures forall k :: i <= k < |vs| ==> addr < vs[k].end
  {
    var lo, hi := 0, |vs|;
    while lo < hi
      invariant 0 <= lo <= hi <= |vs|
      invariant forall k :: 0 <= k < lo ==> vs[k].end <= addr
      invariant forall k :: hi <= k < |vs| ==> addr < vs[k].end
    {
      var mid := (lo + hi) / 2;
      assert forall k :: 0 <= k < mid ==> vs[k].end <= vs[mid].start;
      assert forall k :: mid < k < |vs| ==> vs[mid].end <= vs[k].start;
      if vs[mid].end <= addr { lo := mid + 1; } else { hi := mid; }
    }
    i := lo;
  }

  /** The entry that maps `addr`, if any: it yields what the page map says. */
  method Find(vs: seq<Vma>, addr: nat) returns (r: Option<Vma>)
    requires Sorted(vs)
    ensures r.Some? <==> At(vs, addr).Some?
    ensures r.Some? ==> r.value in vs && r.value.Covers(addr) && At(vs, addr) == Some(r.value.PageAt(addr))
  {
    var i := Lower(vs, addr);
    AtMapped(vs, addr);
    if i < |vs| && vs[i].start <= addr {
      AtIndex(vs, i, addr);
      r := Some(vs[i]);
    } else {
      forall k | 0 <= k < |vs| ensures !vs[k].Covers(addr) {
        if i < k { assert vs[i].end <= vs[k].start; }
      }
      r := None;
    }
  }

  /** No address of [a, a + len) is mapped. */
  ghost predicate Free(vs: seq<Vma>, a: nat, len: nat)
  {
    forall x :: a <= x < a + len ==> At(vs, x).None?
  }

  /** The first free range from the hint on, or if there is none, the first of all. */
  ghost predicate NextFit(vs: seq<Vma>, hint: nat, len: nat, a: nat)
  {
    if Max(hint, MMAP_BASE) <= a then
      forall b :: Max(hint, MMAP_BASE) <= b < a ==> !Free(vs, b, len)
    else
      && (forall b :: Max(hint, MMAP_BASE) <= b && b + len <= MMAP_END ==> !Free(vs, b, len))
      && (forall b :: MMAP_BASE <= b < a ==> !Free(vs, b, len))
  }

  lemma FreeEntries(vs: seq<Vma>, a: nat, len: nat)
    requires Sorted(vs) && len > 0
    ensures Free(vs, a, len) <==> forall k :: 0 <= k < |vs| ==> vs[k].end <= a || a + len <= vs[k].start
  {
    if Free(vs, a, len) {
      forall k | 0 <= k < |vs| ensures vs[k].end <= a || a + len <= vs[k].start {
        var x := if a < vs[k].start then vs[k].start else a;
        if vs[k].Covers(x) { AtIndex(vs, k, x); }
      }
    }
    if forall k :: 0 <= k < |vs| ==> vs[k].end <= a || a + len <= vs[k].start {
      forall x | a <= x < a + len ensures At(vs, x).None? {
        AtMapped(vs, x);
      }
    }
  }

  /** Is some page of [start, end) mapped? */
  method Overlaps(vs: seq<Vma>, start: nat, end: nat) returns (r: bool)
    requires Sorted(vs) && start < end
    ensures r <==> !Free(vs, start, end - start)
  {
    var i := Lower(vs, start);
    FreeEntries(vs, start, end - start);
    r := i < |vs| && vs[i].start < end;
    if !r && i < |vs| {
      assert forall k :: i < k < |vs| ==> vs[i].end <= vs[k].start;
    }
  }

  /** Is [start, end) mapped without holes? */
  method Covered(vs: seq<Vma>, start: nat, end: nat) returns (r: bool)
    requires Sorted(vs)
    ensures r <==> forall a: nat :: start <= a < end ==> At(vs, a).Some?
  {
    var i := Lower(vs, start);
    var at := start;
    while at < end
      invariant start <= at && i <= |vs|
      invariant forall k :: 0 <= k < i ==> vs[k].end <= at
      invariant forall k :: i <= k < |vs| ==> at < vs[k].end
      invariant forall a: nat :: start <= a < at ==> At(vs, a).Some?
      decreases |vs| - i
    {
      if i >= |vs| || vs[i].start > at {
        AtMapped(vs, at);
        if i < |vs| { assert forall k :: i < k < |vs| ==> vs[i].end <= vs[k].start; }
        return false;
      }
      forall a | at <= a < vs[i].end ensures At(vs, a).Some? { AtIndex(vs, i, a); }
      assert forall k :: i < k < |vs| ==> vs[i].end <= vs[k].start && vs[k].start < vs[k].end;
      at := vs[i].end;
      i := i + 1;
    }
    return true;
  }

  function Max(x: nat, y: nat): nat { if x < y then y else x }

  /** First-fit from `from`: the lowest free range of `len` bytes in the mmap region at or after it,
      and a failure only when there is none. */
  method GapFrom(vs: seq<Vma>, from: nat, len: nat) returns (r: Option<nat>)
    requires Sorted(vs) && 0 < len
    ensures r.Some? ==> Max(from, MMAP_BASE) <= r.value && r.value + len <= MMAP_END && Free(vs, r.value, len)
    ensures r.Some? ==> forall b :: Max(from, MMAP_BASE) <= b < r.value ==> !Free(vs, b, len)
    ensures r.None? ==> forall b :: Max(from, MMAP_BASE) <= b && b + len <= MMAP_END ==> !Free(vs, b, len)
    ensures r.Some? && from % PAGE == 0 ==> r.value % PAGE == 0
  {
    var first := Max(from, MMAP_BASE);
    var cand := first;
    var i := Lower(vs, cand);
    while true
      invariant first <= cand && i <= |vs|
      invariant from % PAGE == 0 ==> cand % PAGE == 0
      invariant forall k :: 0 <= k < i ==> vs[k].end <= cand
      invariant forall k :: i <= k < |vs| ==> cand < vs[k].end
      invariant forall b :: first <= b < cand ==> !Free(vs, b, len)
      decreases |vs| - i
    {
      var end := cand + len;
      if end >= U64 { return None; }          // checked_add
      if end > MMAP_END { return None; }
      if i >= |vs| || vs[i].start >= end {
        if i < |vs| { assert forall k :: i < k < |vs| ==> vs[i].end <= vs[k].start; }
        FreeEntries(vs, cand, len);
        return Some(cand);
      }
      forall b | cand <= b < vs[i].end ensures !Free(vs, b, len) { FreeEntries(vs, b, len); }
      assert forall k :: i < k < |vs| ==> vs[i].end <= vs[k].start && vs[k].start < vs[k].end;
      cand := Max(cand, vs[i].end);
      i := i + 1;
    }
  }

  /** Next-fit: try from the hint, then from the bottom of the region. It fails only when no free
      range of that length exists anywhere in the region. */
  method Gap(vs: seq<Vma>, hint: nat, len: nat) returns (r: Option<nat>)
    requires Sorted(vs) && 0 < len && hint % PAGE == 0
    ensures r.Some? ==> MMAP_BASE <= r.value && r.value + len <= MMAP_END && Free(vs, r.value, len)
    ensures r.Some? ==> r.value % PAGE == 0 && NextFit(vs, hint, len, r.value)
    ensures r.None? <==> forall b :: MMAP_BASE <= b && b + len <= MMAP_END ==> !Free(vs, b, len)
  {
    r := GapFrom(vs, hint, len);
    if r.None? { r := GapFrom(vs, MMAP_BASE, len); }
  }
}
