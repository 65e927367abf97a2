/** Shared-memory objects and their reference counts (kernel/src/shm.rs): descriptors and VMAs hold
    an object, and it is reclaimed when neither is left and it has no name. */
module ShmObjects {
  import opened VmaTable

  const MAX_OBJS: nat := 512

  datatype Obj = Obj(used: bool, fdRefs: nat, mapRefs: nat, named: bool)

  const EMPTY := Obj(false, 0, 0, false)

  /** An address space's table, the frames that hold it, and its next-fit hint. */
  datatype Space = Space(vmas: seq<Vma>, pages: nat, hint: nat)

  const NO_SPACE := Space([], 0, MMAP_BASE)

  /** Entries of all tables that name object `id`. */
  ghost function Total(spaces: seq<Space>, id: nat): nat
  {
    if spaces == [] then 0 else Refs(spaces[0].vmas, id) + Total(spaces[1..], id)
  }

  lemma {:induction false} TotalUpdate(spaces: seq<Space>, l: nat, sp: Space, id: nat)
    requires l < |spaces|
    ensures Total(spaces[l := sp], id) + Refs(spaces[l].vmas, id) == Total(spaces, id) + Refs(sp.vmas, id)
  {
    if l == 0 {
      assert spaces[l := sp][1..] == spaces[1..];
    } else {
      assert spaces[l := sp][1..] == spaces[1..][l - 1 := sp];
      TotalUpdate(spaces[1..], l - 1, sp, id);
    }
  }

  lemma {:induction false} TotalAtLeast(spaces: seq<Space>, l: nat, id: nat)
    requires l < |spaces|
    ensures Refs(spaces[l].vmas, id) <= Total(spaces, id)
  {
    if l > 0 { TotalAtLeast(spaces[1..], l - 1, id); }
  }

  lemma {:induction false} RefsPositive(vs: seq<Vma>, i: nat)
    requires i < |vs|
    ensures Refs(vs, vs[i].obj) > 0
  {
    if i > 0 { RefsPositive(vs[1..], i - 1); }
  }

  predicate Unheld(o: Obj) { o.fdRefs == 0 && o.mapRefs == 0 && !o.named }

  predicate Live(objs: seq<Obj>, id: nat)
  {
    1 <= id <= |objs| && objs[id - 1].used
  }

  /** One VMA more (`delta` = 1) or less (`delta` = -1) names object `id`; 0 names no object. */
  function MapRef(objs: seq<Obj>, id: nat, delta: int): seq<Obj>
  {
    if !Live(objs, id) then objs
    else
      var o := objs[id - 1];
      var n := o.(mapRefs := if o.mapRefs + delta < 0 then 0 else o.mapRefs + delta);
      objs[id - 1 := if delta < 0 && Unheld(n) then EMPTY else n]
  }

  /** Object `id` counts exactly the entries that name it, but for one reference if it is `plus` (not
      yet dropped) or `minus` (not yet added); a dead slot is blank and nobody names it. */
  ghost predicate ExactAt(objs: seq<Obj>, spaces: seq<Space>, plus: nat, minus: nat, id: nat)
    requires 1 <= id <= |objs|
  {
    var o := objs[id - 1];
    && o.mapRefs + (if id == minus then 1 else 0) == Total(spaces, id) + (if id == plus then 1 else 0)
    && (!o.used ==> o == EMPTY && id != plus && id != minus)
  }

  ghost predicate Exact(objs: seq<Obj>, spaces: seq<Space>, plus: nat, minus: nat)
  {
    forall id :: 1 <= id <= |objs| ==> ExactAt(objs, spaces, plus, minus, id)
  }

  /** A slot that is not in use is blank, and no entry of any table names it. */
  lemma DeadUnnamed(objs: seq<Obj>, spaces: seq<Space>, id: nat)
    requires Exact(objs, spaces, 0, 0) && 1 <= id <= |objs| && !objs[id - 1].used
    ensures objs[id - 1] == EMPTY && Total(spaces, id) == 0
    ensures forall l, i :: 0 <= l < |spaces| && 0 <= i < |spaces[l].vmas| ==> spaces[l].vmas[i].obj != id
  {
    assert ExactAt(objs, spaces, 0, 0, id);
    forall l, i | 0 <= l < |spaces| && 0 <= i < |spaces[l].vmas| ensures spaces[l].vmas[i].obj != id {
      RefsPositive(spaces[l].vmas, i);
      TotalAtLeast(spaces, l, id);
    }
  }

  /** Only mapping counts move; an object disappears only unheld by descriptors and name, and one
      that loses its last VMA disappears unless a descriptor or a name still holds it. */
  ghost predicate Kept(before: seq<Obj>, after: seq<Obj>)
  {
    && |before| == |after|
    && forall k :: 0 <= k < |before| ==>
         || (&& after[k] == before[k].(mapRefs := after[k].mapRefs)
             && (!before[k].used ==> after[k] == before[k])
             && (before[k].mapRefs > 0 && after[k].mapRefs == 0 ==> before[k].fdRefs > 0 || before[k].named))
         || (after[k] == EMPTY && before[k].fdRefs == 0 && !before[k].named)
  }

  lemma KeptReflexive(a: seq<Obj>)
    ensures Kept(a, a)
  {
  }

  lemma KeptTransitive(a: seq<Obj>, b: seq<Obj>, c: seq<Obj>)
    requires Kept(a, b) && Kept(b, c)
    ensures Kept(a, c)
  {
    forall k | 0 <= k < |a|
      ensures || (&& c[k] == a[k].(mapRefs := c[k].mapRefs)
                  && (!a[k].used ==> c[k] == a[k])
                  && (a[k].mapRefs > 0 && c[k].mapRefs == 0 ==> a[k].fdRefs > 0 || a[k].named))
              || (c[k] == EMPTY && a[k].fdRefs == 0 && !a[k].named)
    {
      assert b[k] == a[k].(mapRefs := b[k].mapRefs) || b[k] == EMPTY;
    }
  }

  /** As `Kept`, and objects that no VMA names are left alone. */
  ghost predicate Loosened(before: seq<Obj>, after: seq<Obj>)
  {
    && Kept(before, after)
    && forall k :: 0 <= k < |before| && before[k].mapRefs == 0 ==> after[k] == before[k]
  }

  lemma LoosenedKept(a: seq<Obj>, b: seq<Obj>)
    requires Loosened(a, b)
    ensures Kept(a, b)
  {
  }

  lemma LoosenedReflexive(a: seq<Obj>)
    ensures Loosened(a, a)
  {
  }

  lemma LoosenedTransitive(a: seq<Obj>, b: seq<Obj>, c: seq<Obj>)
    requires Loosened(a, b) && Loosened(b, c)
    ensures Loosened(a, c)
  {
    KeptTransitive(a, b, c);
  }

  /** Dropping the outstanding reference settles the counts; the object goes exactly when unheld. */
  lemma MapRefDrop(objs: seq<Obj>, spaces: seq<Space>, id: nat)
    requires Exact(objs, spaces, id, 0)
    ensures Exact(MapRef(objs, id, -1), spaces, 0, 0)
    ensures Loosened(objs, MapRef(objs, id, -1))
  {
    var next := MapRef(objs, id, -1);
    if Live(objs, id) { assert ExactAt(objs, spaces, id, 0, id); }
    forall k | 1 <= k <= |objs| ensures ExactAt(next, spaces, 0, 0, k) { assert ExactAt(objs, spaces, id, 0, k); }
  }

  lemma MapRefAdd(objs: seq<Obj>, spaces: seq<Space>, id: nat)
    requires Exact(objs, spaces, 0, id)
    ensures Exact(MapRef(objs, id, 1), spaces, 0, 0)
    ensures Kept(objs, MapRef(objs, id, 1))
    ensures Live(objs, id) && objs[id - 1].mapRefs > 0 ==> Loosened(objs, MapRef(objs, id, 1))
    ensures id == 0 ==> Loosened(objs, MapRef(objs, id, 1))
  {
    var next := MapRef(objs, id, 1);
    forall k | 1 <= k <= |objs| ensures ExactAt(next, spaces, 0, 0, k) { assert ExactAt(objs, spaces, 0, id, k); }
  }

  /** A reference counted before its VMA is in the table. */
  lemma MapRefPlus(objs: seq<Obj>, spaces: seq<Space>, id: nat)
    requires Exact(objs, spaces, 0, 0) && (id == 0 || Live(objs, id))
    ensures Exact(MapRef(objs, id, 1), spaces, id, 0)
    ensures Kept(objs, MapRef(objs, id, 1))
  {
    var next := MapRef(objs, id, 1);
    forall k | 1 <= k <= |objs| ensures ExactAt(next, spaces, id, 0, k) { assert ExactAt(objs, spaces, 0, 0, k); }
  }

  /** Someone other than a VMA holds the object, or no VMA names it yet. */
  predicate Held(o: Obj) { o.fdRefs > 0 || o.named || o.mapRefs == 0 }

  lemma LoosenedLive(before: seq<Obj>, after: seq<Obj>, id: nat)
    requires Loosened(before, after) && Live(before, id) && Held(before[id - 1])
    ensures Live(after, id)
  {
    var k := id - 1;
    assert after[k] == before[k].(mapRefs := after[k].mapRefs) || after[k] == EMPTY;
  }

  /** Object `id` counts exactly but for the references of the entries `more`, not yet dropped, and
      those of `less`, not yet added. */
  ghost predicate OwingAt(objs: seq<Obj>, spaces: seq<Space>, more: seq<Vma>, less: seq<Vma>, id: nat)
    requires 1 <= id <= |objs|
  {
    var o := objs[id - 1];
    && o.mapRefs + Refs(less, id) == Total(spaces, id) + Refs(more, id)
    && (!o.used ==> o == EMPTY && Refs(more, id) == Refs(less, id) == 0)
  }

  ghost predicate Owing(objs: seq<Obj>, spaces: seq<Space>, more: seq<Vma>, less: seq<Vma>)
  {
    forall id :: 1 <= id <= |objs| ==> OwingAt(objs, spaces, more, less, id)
  }

  lemma OwingNothing(objs: seq<Obj>, spaces: seq<Space>)
    ensures Owing(objs, spaces, [], []) <==> Exact(objs, spaces, 0, 0)
  {
    forall id | 1 <= id <= |objs|
      ensures OwingAt(objs, spaces, [], [], id) <==> ExactAt(objs, spaces, 0, 0, id)
    {
    }
  }

  lemma OwingDrop(objs: seq<Obj>, spaces: seq<Space>, more: seq<Vma>)
    requires more != [] && Owing(objs, spaces, more, [])
    ensures Owing(MapRef(objs, more[0].obj, -1), spaces, more[1..], [])
    ensures Loosened(objs, MapRef(objs, more[0].obj, -1))
  {
    var id := more[0].obj;
    var next := MapRef(objs, id, -1);
    if 1 <= id <= |objs| { assert OwingAt(objs, spaces, more, [], id); }
    forall k | 1 <= k <= |objs| ensures OwingAt(next, spaces, more[1..], [], k) {
      assert OwingAt(objs, spaces, more, [], k);
    }
  }

  lemma OwingAdd(objs: seq<Obj>, spaces: seq<Space>, less: seq<Vma>)
    requires less != [] && Owing(objs, spaces, [], less)
    ensures Owing(MapRef(objs, less[0].obj, 1), spaces, [], less[1..])
    ensures Kept(objs, MapRef(objs, less[0].obj, 1))
  {
    var id := less[0].obj;
    var next := MapRef(objs, id, 1);
    forall k | 1 <= k <= |objs| ensures OwingAt(next, spaces, [], less[1..], k) {
      assert OwingAt(objs, spaces, [], less, k);
    }
  }
}
