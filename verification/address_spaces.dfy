/** mmap, munmap, mprotect, mremap, fork copies and release over the table of address spaces
    (kernel/src/vm.rs:272-392, 554-601), together with the shared-object counts they maintain. */
module AddressSpaces {
  import opened Basics
  import opened VmaTable
  import opened ShmObjects

  const MAX_PROCS: nat := 256
  const VMA_SIZE: nat := 40
  const FIRST_PAGES: nat := 4
  const MAX_PAGES: nat := 256

  const ENOMEM: int := 12
  const EEXIST: int := 17
  const EINVAL: int := 22

  /** Entries that fit in a table of `pages` frames. */
  function Cap(pages: nat): nat { pages * 4096 / VMA_SIZE }

  /** The table can take `extra` more entries: as it is, or doubled if there are `frames` for that. */
  predicate RoomFor(sp: Space, extra: nat, frames: bool)
  {
    || |sp.vmas| + extra <= Cap(sp.pages)
    || (frames && (if sp.pages == 0 then FIRST_PAGES else sp.pages * 2) <= MAX_PAGES)
  }

  ghost predicate SpaceOk(sp: Space)
  {
    && Sorted(sp.vmas)
    && |sp.vmas| <= Cap(sp.pages)
    && sp.hint % PAGE == 0
    && forall i :: 0 <= i < |sp.vmas| ==> sp.vmas[i].obj <= MAX_OBJS
  }

  /** Round up to a page, unless that overflows 64 bits. */
  function PageUp(x: nat): Option<nat>
  {
    if x + 4095 >= U64 then None else Some((x + 4095) / PAGE * PAGE)
  }

  /** The least multiple of the page size that is not below `x`, if its computation does not overflow. */
  lemma PageUpLeast(x: nat)
    ensures PageUp(x).Some? <==> x <= U64 - 4096
    ensures PageUp(x).Some? ==> PageUp(x).value % PAGE == 0 && x <= PageUp(x).value < x + PAGE
  {
  }

  /** Rounded lengths are whole pages, and so is what one exceeds the other by. */
  lemma Multiples(x: nat, y: nat)
    ensures PageUp(x).Some? ==> PageUp(x).value % PAGE == 0 && PageUp(x).value < U64 && (x > 0 <==> PageUp(x).value > 0)
    ensures PageUp(y).Some? ==> PageUp(y).value % PAGE == 0 && PageUp(y).value < U64 && (y > 0 <==> PageUp(y).value > 0)
    ensures PageUp(x).Some? && PageUp(y).Some? && PageUp(y).value < PageUp(x).value ==>
              PageUp(PageUp(x).value - PageUp(y).value) == Some(PageUp(x).value - PageUp(y).value)
  {
  }

  /** As many entries of 40 bytes as the frames of the table have room for. */
  lemma CapFits(pages: nat, n: nat)
    ensures n <= Cap(pages) <==> n * 40 <= pages * 4096
  {
  }

  class Vm {
    var spaces: seq<Space>
    var objs: seq<Obj>

    ghost predicate Shaped()
      reads this
    {
      && |spaces| == MAX_PROCS && |objs| == MAX_OBJS
      && forall l :: 0 <= l < MAX_PROCS ==> SpaceOk(spaces[l])
    }

    ghost predicate Valid()
      reads this
    {
      Shaped() && Exact(objs, spaces, 0, 0)
    }

    constructor ()
      ensures Valid()
      ensures forall l :: 0 <= l < MAX_PROCS ==> spaces[l] == NO_SPACE
    {
      spaces := seq(MAX_PROCS, _ => NO_SPACE);
      objs := seq(MAX_OBJS, _ => EMPTY);
      new;
      forall id | 1 <= id <= |objs| ensures ExactAt(objs, spaces, 0, 0, id) { TotalEmpty(spaces, id); }
    }

    /** Makes room for `extra` more entries; the table frames double when they are full. `frames` says
        whether the frame allocator can supply the new table. */
    method Reserve(l: nat, extra: nat, frames: bool) returns (ok: bool)
      requires Valid() && l < MAX_PROCS && extra <= 2
      modifies this`spaces
      ensures Valid()
      ensures spaces == old(spaces)[l := old(spaces[l]).(pages := spaces[l].pages)]
      ensures ok <==> RoomFor(old(spaces[l]), extra, frames)
      ensures ok ==> |spaces[l].vmas| + extra <= Cap(spaces[l].pages)
      ensures ok && |spaces[l].vmas| + extra > Cap(old(spaces[l]).pages) ==>
                spaces[l].pages == (if old(spaces[l]).pages == 0 then 4 else 2 * old(spaces[l]).pages) <= 256
      ensures !ok || |spaces[l].vmas| + extra <= Cap(old(spaces[l]).pages) ==> spaces == old(spaces)
    {
      var sp := spaces[l];
      if |sp.vmas| + extra <= Cap(sp.pages) { return true; }
      var pages := if sp.pages == 0 then FIRST_PAGES else sp.pages * 2;
      if pages > MAX_PAGES { return false; }
      if !frames { return false; }
      Retable(l, sp.(pages := pages));
      return true;
    }

    /** Replaces the record of space `l`, its entries kept: the counts stay exact. */
    method Retable(l: nat, sp: Space)
      requires Valid() && l < MAX_PROCS && SpaceOk(sp) && sp.vmas == spaces[l].vmas
      modifies this`spaces
      ensures Valid() && spaces == old(spaces)[l := sp]
    {
      var next := spaces[l := sp];
      forall id | 1 <= id <= |objs| ensures ExactAt(objs, next, 0, 0, id) {
        TotalUpdate(spaces, l, sp, id);
        assert ExactAt(objs, spaces, 0, 0, id);
      }
      spaces := next;
    }

    /** Replaces the entries of space `l`; `plus`/`minus` say how the entry count of one object moved. */
    method SetTable(l: nat, vs: seq<Vma>, ghost plus: nat, ghost minus: nat)
      requires Shaped() && l < MAX_PROCS
      requires SpaceOk(spaces[l].(vmas := vs))
      requires Exact(objs, spaces, 0, 0) && (minus != 0 ==> Live(objs, minus)) && (plus != 0 ==> Live(objs, plus))
      requires forall id :: 1 <= id <= MAX_OBJS ==>
                 Refs(vs, id) + (if id == plus then 1 else 0) ==
                 Refs(spaces[l].vmas, id) + (if id == minus then 1 else 0)
      modifies this`spaces
      ensures Shaped() && spaces == old(spaces)[l := old(spaces[l]).(vmas := vs)]
      ensures Exact(objs, spaces, plus, minus)
    {
      hide At, Refs;
      var next := spaces[l := spaces[l].(vmas := vs)];
      forall id | 1 <= id <= |objs| ensures ExactAt(objs, next, plus, minus, id) {
        TotalUpdate(spaces, l, spaces[l].(vmas := vs), id);
        assert ExactAt(objs, spaces, 0, 0, id);
      }
      spaces := next;
    }

    method ObjRef(obj: nat, delta: int)
      modifies this`objs
      ensures objs == MapRef(old(objs), obj, delta)
    {
      objs := MapRef(objs, obj, delta);
    }

    /** Takes [s, e) out of space `l`, trimming, splitting and dropping entries. */
    method Carve(l: nat, s: nat, e: nat)
      requires Valid() && l < MAX_PROCS
      requires s < e && s % PAGE == 0 && e % PAGE == 0
      requires |spaces[l].vmas| + 1 <= Cap(spaces[l].pages)
      modifies this
      ensures Valid()
      ensures spaces == old(spaces)[l := old(spaces[l]).(vmas := Carved(old(spaces[l].vmas), s, e))]
      ensures Loosened(old(objs), objs)
    {
      hide Exact, Loosened, Refs, At, Carved, Sorted, SpaceOk;
      var was := spaces[l].vmas;
      TableSorted(l);
      var i := Lower(was, s);
      CarvedBefore(was, i, s, e);
      LoosenedReflexive(objs);
      while i < |spaces[l].vmas|
        invariant Valid() && 0 <= i <= |spaces[l].vmas| <= |was|
        invariant spaces == old(spaces)[l := old(spaces[l]).(vmas := spaces[l].vmas)]
        invariant Carved(was, s, e) == spaces[l].vmas[..i] + Carved(spaces[l].vmas[i..], s, e)
        invariant forall k :: i <= k < |spaces[l].vmas| ==> s < spaces[l].vmas[k].end
        invariant Loosened(old(objs), objs)
        decreases |spaces[l].vmas| - i
      {
        var vs := spaces[l].vmas;
        var v := vs[i];
        if v.start >= e { break; }
        CarvedStep(vs, i, s, e);
        TableSorted(l);
        if v.start < s && v.end > e {
          ghost var mid := objs;
          CarveMiddle(l, i, s, e);
          LoosenedTransitive(old(objs), mid, objs);
          return;
        }
        if v.start < s {
          UpdateAround(vs, i, v.(end := s));
          Shrink(l, i, v.(end := s));
          i := i + 1;
        } else if v.end > e {
          CarvedAfter(vs, i, s, e);
          Shrink(l, i, Tail(v, e));
          assert Clip(v, s, e) == [Tail(v, e)];
          UpdateAround(vs, i, Tail(v, e));
          return;
        } else {
          ghost var mid := objs;
          Drop(l, i);
          LoosenedTransitive(old(objs), mid, objs);
          assert spaces[l].vmas[i..] == vs[i + 1..];
          assert spaces[l].vmas[..i] == vs[..i];
        }
      }
      TableSorted(l);
      CarvedBeyond(spaces[l].vmas, i, s, e);
      assert spaces[l].vmas[..i] + spaces[l].vmas[i..] == spaces[l].vmas;
    }

    /** The range lies inside entry `i`: what is left of it becomes two entries. */
    method CarveMiddle(l: nat, i: nat, s: nat, e: nat)
      requires Valid() && l < MAX_PROCS && i < |spaces[l].vmas|
      requires s % PAGE == 0 && e % PAGE == 0
      requires spaces[l].vmas[i].start < s < e < spaces[l].vmas[i].end
      requires |spaces[l].vmas| + 1 <= Cap(spaces[l].pages)
      modifies this
      ensures Valid()
      ensures spaces == old(spaces)[l := old(spaces[l]).(vmas :=
                old(spaces[l].vmas)[..i] + Carved(old(spaces[l].vmas)[i..], s, e))]
      ensures Loosened(old(objs), objs)
    {
      hide Exact, Loosened, Refs, At, Carved, Sorted, Tail, Inserted;
      var vs := spaces[l].vmas;
      var v := vs[i];
      NamedLive(l, i);
      TableSorted(l);
      MiddleCut(vs, i, s, e);
      var next := Inserted(vs[i := v.(end := s)], i + 1, Tail(v, e));
      SetTable(l, next, 0, v.obj);
      MapRefAdd(objs, spaces, v.obj);
      ObjRef(v.obj, 1);
    }

    /** Trims entry `i` at one end. */
    method Shrink(l: nat, i: nat, v: Vma)
      requires Valid() && l < MAX_PROCS && i < |spaces[l].vmas|
      requires v.start == spaces[l].vmas[i].start || v.start % PAGE == 0
      requires v.end == spaces[l].vmas[i].end || v.end % PAGE == 0
      requires v.obj == spaces[l].vmas[i].obj
      requires spaces[l].vmas[i].start <= v.start < v.end <= spaces[l].vmas[i].end
      modifies this`spaces
      ensures Valid()
      ensures spaces == old(spaces)[l := old(spaces[l]).(vmas := old(spaces[l].vmas)[i := v])]
    {
      ShrunkMeaning(spaces[l].vmas, i, v);
      SetTable(l, spaces[l].vmas[i := v], 0, 0);
    }

    /** Removes entry `i` and its reference. */
    method Drop(l: nat, i: nat)
      requires Valid() && l < MAX_PROCS && i < |spaces[l].vmas|
      modifies this
      ensures Valid()
      ensures spaces == old(spaces)[l := old(spaces[l]).(vmas := old(spaces[l].vmas)[..i] + old(spaces[l].vmas)[i + 1..])]
      ensures Loosened(old(objs), objs)
    {
      var vs := spaces[l].vmas;
      NamedLive(l, i);
      RemovedSorted(vs, i);
      forall id ensures Refs(vs[..i] + vs[i + 1..], id) + (if vs[i].obj == id then 1 else 0) == Refs(vs, id) {
        RemovedRefs(vs, i, id);
      }
      SetTable(l, vs[..i] + vs[i + 1..], vs[i].obj, 0);
      MapRefDrop(objs, spaces, vs[i].obj);
      ObjRef(vs[i].obj, -1);
    }

    /** Puts `v`, whose reference is already counted, between its neighbours. */
    method Insert(l: nat, i: nat, v: Vma)
      requires Shaped() && l < MAX_PROCS && Exact(objs, spaces, v.obj, 0)
      requires FitsAt(spaces[l].vmas, i, v) && v.obj <= MAX_OBJS
      requires |spaces[l].vmas| + 1 <= Cap(spaces[l].pages)
      modifies this`spaces
      ensures Valid()
      ensures spaces == old(spaces)[l := old(spaces[l]).(vmas := Inserted(old(spaces[l].vmas), i, v))]
    {
      hide At, Refs;
      var vs := Inserted(spaces[l].vmas, i, v);
      InsertedSorted(spaces[l].vmas, i, v);
      var next := spaces[l := spaces[l].(vmas := vs)];
      forall id | 1 <= id <= |objs| ensures ExactAt(objs, next, 0, 0, id) {
        InsertedRefs(spaces[l].vmas, i, v, id);
        TotalUpdate(spaces, l, spaces[l].(vmas := vs), id);
        assert ExactAt(objs, spaces, v.obj, 0, id);
      }
      spaces := next;
    }

    /** Fuses entry `i + 1` into entry `i`: one entry and one reference fewer, the same page map. */
    method Fuse(l: nat, i: nat)
      requires Valid() && l < MAX_PROCS && i + 1 < |spaces[l].vmas|
      requires Mergeable(spaces[l].vmas[i], spaces[l].vmas[i + 1])
      modifies this
      ensures Valid() && Kept(old(objs), objs)
      ensures spaces == old(spaces)[l := old(spaces[l]).(vmas := Fused(old(spaces[l].vmas), i))]
      ensures forall a: nat :: At(spaces[l].vmas, a) == At(old(spaces[l].vmas), a)
    {
      hide At, Refs, Exact, Kept;
      var vs := spaces[l].vmas;
      var obj := vs[i + 1].obj;
      NamedLive(l, i + 1);
      FusedSorted(vs, i);
      forall id ensures Refs(Fused(vs, i), id) + (if obj == id then 1 else 0) == Refs(vs, id) {
        FusedRefs(vs, i, id);
      }
      forall a: nat ensures At(Fused(vs, i), a) == At(vs, a) { FusedAt(vs, i, a); }
      SetTable(l, Fused(vs, i), obj, 0);
      MapRefDrop(objs, spaces, obj);
      ObjRef(obj, -1);
    }

    /** Adds `v` (its object reference already counted) to a free range and merges it with compatible
        neighbours. The page map changes on [v.start, v.end) only. */
    method AddVma(l: nat, v: Vma)
      requires Shaped() && l < MAX_PROCS && Exact(objs, spaces, v.obj, 0)
      requires v.Sane() && v.obj <= MAX_OBJS && Free(spaces[l].vmas, v.start, v.end - v.start)
      requires |spaces[l].vmas| + 1 <= Cap(spaces[l].pages)
      modifies this
      ensures Valid() && Kept(old(objs), objs)
      ensures spaces == old(spaces)[l := old(spaces[l]).(vmas := spaces[l].vmas)]
      ensures |spaces[l].vmas| <= old(|spaces[l].vmas|) + 1
      ensures forall a: nat :: At(spaces[l].vmas, a) == if v.Covers(a) then Some(v.PageAt(a)) else At(old(spaces[l].vmas), a)
    {
      hide At, Refs, Exact, Kept, Sorted, Free, FitsAt, Inserted;
      var vs := spaces[l].vmas;
      var i := Lower(vs, v.start);
      FitsFromFree(vs, i, v);
      forall a: nat ensures At(Inserted(vs, i, v), a) == if v.Covers(a) then Some(v.PageAt(a)) else At(vs, a) {
        InsertedAt(vs, i, v, a);
      }
      Insert(l, i, v);
      MergeAround(l, i);
    }

    /** Fuses entry `i` with its neighbours where it can: the same page map. */
    method MergeAround(l: nat, i0: nat)
      requires Valid() && l < MAX_PROCS && i0 < |spaces[l].vmas|
      modifies this
      ensures Valid() && Kept(old(objs), objs)
      ensures spaces == old(spaces)[l := old(spaces[l]).(vmas := spaces[l].vmas)]
      ensures |spaces[l].vmas| <= old(|spaces[l].vmas|)
      ensures forall a: nat :: At(spaces[l].vmas, a) == At(old(spaces[l].vmas), a)
    {
      hide At, Refs, Exact, Kept, Sorted, Mergeable, Fused;
      var i := i0;
      KeptReflexive(objs);
      if i > 0 && Mergeable(spaces[l].vmas[i - 1], spaces[l].vmas[i]) {
        Fuse(l, i - 1);
        i := i - 1;
      }
      if i + 1 < |spaces[l].vmas| && Mergeable(spaces[l].vmas[i], spaces[l].vmas[i + 1]) {
        ghost var mid := objs;
        Fuse(l, i);
        KeptTransitive(old(objs), mid, objs);
      }
    }

    /** Cuts the entry that strictly contains `addr`, if there is one, in two: the same page map, and
        now no entry straddles `addr`. */
    method SplitAt(l: nat, addr: nat)
      requires Valid() && l < MAX_PROCS && addr % PAGE == 0
      requires |spaces[l].vmas| + 1 <= Cap(spaces[l].pages)
      modifies this
      ensures Valid() && Kept(old(objs), objs)
      ensures spaces == old(spaces)[l := old(spaces[l]).(vmas := spaces[l].vmas)]
      ensures |spaces[l].vmas| <= old(|spaces[l].vmas|) + 1
      ensures forall a: nat :: At(spaces[l].vmas, a) == At(old(spaces[l].vmas), a)
      ensures NoStraddle(spaces[l].vmas, addr)
      ensures forall b :: old(NoStraddle(spaces[l].vmas, b)) ==> NoStraddle(spaces[l].vmas, b)
    {
      hide At, Refs, Exact, Kept;
      var vs := spaces[l].vmas;
      var i := Lower(vs, addr);
      KeptReflexive(objs);
      if i >= |vs| { return; }
      var v := vs[i];
      if v.start >= addr || v.end <= addr {
        assert forall k :: i < k < |vs| ==> v.end <= vs[k].start;
        return;
      }
      NamedLive(l, i);
      HalvedFused(vs, i, addr);
      var cut := Halved(vs, i, addr);
      forall a: nat ensures At(cut, a) == At(vs, a) { FusedAt(cut, i, a); }
      forall id ensures Refs(cut, id) == Refs(vs, id) + if v.obj == id then 1 else 0 { FusedRefs(cut, i, id); }
      HalvedStraddle(vs, i, addr);
      SetTable(l, cut, 0, v.obj);
      MapRefAdd(objs, spaces, v.obj);
      ObjRef(v.obj, 1);
    }

    /** A blank range of the table, as a caller of `AddVma` needs it after carving. */
    lemma CarvedFree(vs: seq<Vma>, s: nat, e: nat)
      requires Sorted(vs) && s < e && s % PAGE == 0 && e % PAGE == 0
      ensures Free(Carved(vs, s, e), s, e - s)
      ensures forall a: nat :: At(Carved(vs, s, e), a) == if s <= a < e then None else At(vs, a)
      ensures |Carved(vs, s, e)| <= |vs| + 1
    {
      forall a: nat ensures At(Carved(vs, s, e), a) == if s <= a < e then None else At(vs, a) {
        CarvedAt(vs, s, e, a);
      }
      CarvedSorted(vs, s, e);
    }

    /** The common body of the three mmap system calls, for a caller running in space `l`. On failure
        the page map is unchanged; on success it changes on the returned range only, which was free
        unless the caller asked to replace it. */
    method MmapFull(l: nat, addr: nat, len0: nat, prot: nat, fixed: bool, noReplace: bool,
                    obj: nat, ino: nat, pgoff: nat, frames: bool) returns (r: int)
      requires Valid() && l < MAX_PROCS && addr < U64
      // the caller holds the object: by a descriptor, by its name, or because it was just created
      requires obj != 0 ==> Live(objs, obj) && Held(objs[obj - 1])
      modifies this
      ensures Valid() && Kept(old(objs), objs)
      ensures spaces == old(spaces)[l := spaces[l]]
      ensures r < 0 ==> spaces[l].vmas == old(spaces[l].vmas) && objs == old(objs)
      ensures r >= 0 ==> PageUp(len0).Some? && prot <= 7
      ensures r >= 0 ==>
                var len := PageUp(len0).value;
                && r % PAGE == 0 && MMAP_BASE <= r && r + len <= MMAP_END
                && (fixed ==> r == addr)
                && (!fixed || noReplace ==> old(Free(spaces[l].vmas, r, len)))
                && forall a: nat :: At(spaces[l].vmas, a) == if r <= a < r + len
                     then Some(Vma(r, r + len, prot, obj, ino, pgoff).PageAt(a)) else At(old(spaces[l].vmas), a)
      // where it goes: the hinted place, or the next fit, from which the next search starts
      ensures if fixed || r < 0 then spaces[l].hint == old(spaces[l]).hint
              else Chosen(old(spaces[l]), spaces[l], addr, PageUp(len0).value, true, r)
      // it fails exactly when the arguments are bad, the table cannot grow, or there is no room
      ensures r >= 0 <==>
                && PageUp(len0).Some? && PageUp(len0).value > 0 && prot <= 7 && RoomFor(old(spaces[l]), 2, frames)
                && if fixed then FixedFits(old(spaces[l].vmas), addr, PageUp(len0).value, noReplace)
                   else SomeGap(old(spaces[l].vmas), PageUp(len0).value)
      ensures r < 0 ==> r in {-EINVAL, -ENOMEM, -EEXIST}
      ensures r == -EINVAL <==>
                PageUp(len0).Some? && (PageUp(len0).value == 0 || prot > 7 || (RoomFor(old(spaces[l]), 2, frames) && fixed && addr % PAGE != 0))
      ensures r == -EEXIST <==>
                && PageUp(len0).Some? && PageUp(len0).value > 0 && prot <= 7 && RoomFor(old(spaces[l]), 2, frames)
                && fixed && noReplace && FixedFits(old(spaces[l].vmas), addr, PageUp(len0).value, false)
                && !Free(old(spaces[l].vmas), addr, PageUp(len0).value)
    {
      hide Exact, At, Refs, Kept, Loosened, Free, Sorted;
      KeptReflexive(objs);
      if PageUp(len0).None? { return -ENOMEM; }
      var len := PageUp(len0).value;
      if len == 0 || prot > 7 { return -EINVAL; }
      var room := Reserve(l, 2, frames);
      if !room { return -ENOMEM; }
      var err, start := Place(l, addr, len, fixed, noReplace);
      if err < 0 { return err; }
      if obj != 0 { LoosenedLive(old(objs), objs, obj); }
      ghost var mid := objs;
      LoosenedKept(old(objs), mid);
      MapNew(l, Vma(start, start + len, prot, obj, ino, pgoff));
      KeptTransitive(old(objs), mid, objs);
      r := start;
    }

    /** Chooses the range of a new mapping. */
    method Place(l: nat, addr: nat, len: nat, fixed: bool, noReplace: bool) returns (err: int, start: nat)
      requires Valid() && l < MAX_PROCS && len > 0 && len % PAGE == 0
      requires |spaces[l].vmas| + 1 <= Cap(spaces[l].pages)
      modifies this
      ensures Valid() && Loosened(old(objs), objs)
      ensures spaces == old(spaces)[l := spaces[l]] && spaces[l].pages == old(spaces[l].pages)
      ensures |spaces[l].vmas| <= old(|spaces[l].vmas|) + 1
      ensures err < 0 ==> spaces == old(spaces) && objs == old(objs)
      ensures err <= 0
      ensures err == 0 <==> if fixed then FixedFits(old(spaces[l].vmas), addr, len, noReplace) else SomeGap(old(spaces[l].vmas), len)
      ensures if fixed then spaces[l].hint == old(spaces[l]).hint else Chosen(old(spaces[l]), spaces[l], addr, len, err == 0, start)
      ensures if fixed then FixedErrors(old(spaces[l].vmas), addr, len, noReplace, err) else err in {0, -ENOMEM}
      ensures err == 0 ==>
                && start % PAGE == 0 && MMAP_BASE <= start && start + len <= MMAP_END
                && (fixed ==> start == addr)
                && (!fixed || noReplace ==> old(Free(spaces[l].vmas, start, len)))
                && Free(spaces[l].vmas, start, len)
                && forall a: nat :: !(start <= a < start + len) ==> At(spaces[l].vmas, a) == At(old(spaces[l].vmas), a)
    {
      hide Exact, At, Refs, Free, Sorted, Loosened, Kept, SpaceOk;
      if fixed {
        start := addr;
        err := PlaceFixed(l, addr, len, noReplace);
      } else {
        LoosenedReflexive(objs);
        err, start := PlaceAnywhere(l, addr, len);
      }
    }

    /** Exactly at `addr`, replacing what is there unless told not to. */
    method PlaceFixed(l: nat, addr: nat, len: nat, noReplace: bool) returns (err: int)
      requires Valid() && l < MAX_PROCS && len > 0 && len % PAGE == 0
      requires |spaces[l].vmas| + 1 <= Cap(spaces[l].pages)
      modifies this
      ensures Valid() && Loosened(old(objs), objs)
      ensures spaces == old(spaces)[l := spaces[l]] && spaces[l].pages == old(spaces[l].pages)
      ensures |spaces[l].vmas| <= old(|spaces[l].vmas|) + 1
      ensures err < 0 ==> spaces == old(spaces) && objs == old(objs)
      ensures err <= 0 && (err == 0 <==> FixedFits(old(spaces[l].vmas), addr, len, noReplace))
      ensures FixedErrors(old(spaces[l].vmas), addr, len, noReplace, err) && spaces[l].hint == old(spaces[l]).hint
      ensures err == 0 ==>
                && addr % PAGE == 0 && MMAP_BASE <= addr && addr + len <= MMAP_END
                && (noReplace ==> old(Free(spaces[l].vmas, addr, len)))
                && Free(spaces[l].vmas, addr, len)
                && forall a: nat :: !(addr <= a < addr + len) ==> At(spaces[l].vmas, a) == At(old(spaces[l].vmas), a)
    {
      hide Exact, At, Refs, Kept, Loosened, Free, Carved, Sorted;
      TableSorted(l);
      LoosenedReflexive(objs);
      if addr % PAGE != 0 { return -EINVAL; }
      if addr + len >= U64 { return -ENOMEM; }          // checked_add
      if addr < MMAP_BASE || addr + len > MMAP_END { return -ENOMEM; }
      var busy := Overlaps(spaces[l].vmas, addr, addr + len);
      if busy {
        if noReplace { return -EEXIST; }
        CarvedFree(spaces[l].vmas, addr, addr + len);
        Carve(l, addr, addr + len);
      }
      err := 0;
    }

    /** At the hint if that range is free, otherwise the next fit. */
    method PlaceAnywhere(l: nat, addr: nat, len: nat) returns (err: int, start: nat)
      requires Valid() && l < MAX_PROCS && len > 0 && len % PAGE == 0
      modifies this`spaces
      ensures Valid()
      ensures spaces == old(spaces)[l := old(spaces[l]).(hint := spaces[l].hint)]
      ensures err < 0 ==> spaces == old(spaces)
      ensures err <= 0 && err != -EEXIST && (err == 0 <==> SomeGap(old(spaces[l].vmas), len))
      ensures err <= 0 && (err != 0 ==> err == -ENOMEM) && Chosen(old(spaces[l]), spaces[l], addr, len, err == 0, start)
      ensures err == 0 ==>
                && start % PAGE == 0 && MMAP_BASE <= start && start + len <= MMAP_END
                && Free(spaces[l].vmas, start, len)
    {
      hide Exact, At, Refs, Free, Sorted, NextFit;
      TableSorted(l);
      var hinted := addr - addr % PAGE;
      if hinted >= MMAP_BASE && hinted + len < U64 && hinted + len <= MMAP_END {
        var busy := Overlaps(spaces[l].vmas, hinted, hinted + len);
        if !busy { return 0, hinted; }
      }
      var g := Gap(spaces[l].vmas, spaces[l].hint, len);
      if g.None? { return -ENOMEM, 0; }
      Retable(l, spaces[l].(hint := g.value + len));
      return 0, g.value;
    }

    /** Counts the new VMA's reference and adds it. */
    method MapNew(l: nat, v: Vma)
      requires Valid() && l < MAX_PROCS
      requires v.obj != 0 ==> Live(objs, v.obj)
      requires v.Sane() && v.obj <= MAX_OBJS && Free(spaces[l].vmas, v.start, v.end - v.start)
      requires |spaces[l].vmas| + 1 <= Cap(spaces[l].pages)
      modifies this
      ensures Valid() && Kept(old(objs), objs)
      ensures spaces == old(spaces)[l := old(spaces[l]).(vmas := spaces[l].vmas)]
      ensures |spaces[l].vmas| <= old(|spaces[l].vmas|) + 1
      ensures forall a: nat :: At(spaces[l].vmas, a) == if v.Covers(a) then Some(v.PageAt(a)) else At(old(spaces[l].vmas), a)
    {
      hide At, Refs, Free, Kept, Exact;
      MapRefPlus(objs, spaces, v.obj);
      ObjRef(v.obj, 1);
      ghost var mid := objs;
      AddVma(l, v);
      KeptTransitive(old(objs), mid, objs);
    }

    /** munmap: afterwards nothing of [addr, addr + len) is mapped and the rest is as before. */
    method Munmap(l: nat, addr: nat, len0: nat, frames: bool) returns (r: int)
      requires Valid() && l < MAX_PROCS && addr < U64
      modifies this
      ensures Valid() && Kept(old(objs), objs)
      ensures spaces == old(spaces)[l := spaces[l]] && spaces[l].hint == old(spaces[l].hint)
      ensures r == 0 || (r in {-EINVAL, -ENOMEM} && spaces[l].vmas == old(spaces[l].vmas) && objs == old(objs))
      ensures r == 0 ==>
                && PageUp(len0).Some?
                && forall a: nat :: At(spaces[l].vmas, a) ==
                     if addr <= a < addr + PageUp(len0).value then None else At(old(spaces[l].vmas), a)
      ensures r == if !UnmapArgs(addr, len0) then -EINVAL else if !RoomFor(old(spaces[l]), 1, frames) then -ENOMEM else 0
    {
      hide Exact, At, Refs, Kept, Loosened, Sorted, Carved;
      KeptReflexive(objs);
      if addr % PAGE != 0 { return -EINVAL; }
      if PageUp(len0).None? { return -EINVAL; }
      var len := PageUp(len0).value;
      if addr + len >= U64 { return -EINVAL; }
      if len == 0 || addr < MMAP_BASE || addr + len > MMAP_END { return -EINVAL; }
      var room := Reserve(l, 1, frames);
      if !room { return -ENOMEM; }
      TableSorted(l);
      CarvedFree(spaces[l].vmas, addr, addr + len);
      Carve(l, addr, addr + len);
      LoosenedKept(old(objs), objs);
      r := 0;
    }

    /** mprotect: all of the range must be mapped; its protection changes, what backs it does not. */
    method Mprotect(l: nat, addr: nat, len0: nat, prot: nat, frames: bool) returns (r: int)
      requires Valid() && l < MAX_PROCS && addr < U64
      modifies this
      ensures Valid() && Kept(old(objs), objs)
      ensures spaces == old(spaces)[l := spaces[l]] && spaces[l].hint == old(spaces[l].hint)
      ensures r == 0 || (r in {-EINVAL, -ENOMEM} && spaces[l].vmas == old(spaces[l].vmas) && objs == old(objs))
      ensures r == 0 ==>
                && prot <= 7 && PageUp(len0).Some?
                && var end := addr + PageUp(len0).value;
                   forall a: nat :: At(spaces[l].vmas, a) ==
                     if addr <= a < end && At(old(spaces[l].vmas), a).Some? then Some(At(old(spaces[l].vmas), a).value.(prot := prot))
                     else At(old(spaces[l].vmas), a)
      ensures r == -EINVAL <==> addr % PAGE != 0 || prot > 7
      ensures r == 0 <==>
                && addr % PAGE == 0 && prot <= 7 && PageUp(len0).Some? && addr + PageUp(len0).value < U64
                && (forall a: nat :: addr <= a < addr + PageUp(len0).value ==> At(old(spaces[l].vmas), a).Some?)
                && (PageUp(len0).value > 0 ==> RoomFor(old(spaces[l]), 2, frames))
    {
      hide Exact, Refs, Kept, Sorted, NoStraddle;
      KeptReflexive(objs);
      if addr % PAGE != 0 || prot > 7 { return -EINVAL; }
      if PageUp(len0).None? { return -ENOMEM; }
      var len := PageUp(len0).value;
      if addr + len >= U64 { return -ENOMEM; }
      if len == 0 { return 0; }
      TableSorted(l);
      var all := Covered(spaces[l].vmas, addr, addr + len);
      if !all { return -ENOMEM; }
      var room := Reserve(l, 2, frames);
      if !room { return -ENOMEM; }
      SplitAt(l, addr);
      ghost var mid := objs;
      SplitAt(l, addr + len);
      KeptTransitive(old(objs), mid, objs);
      Reprotect(l, addr, addr + len, prot);
      r := 0;
    }

    method SetProt(l: nat, i: nat, prot: nat)
      requires Valid() && l < MAX_PROCS && i < |spaces[l].vmas|
      modifies this`spaces
      ensures Valid()
      ensures spaces == old(spaces)[l := old(spaces[l]).(vmas :=
                old(spaces[l].vmas)[i := old(spaces[l].vmas)[i].(prot := prot)])]
    {
      hide At, Refs, Total;
      var vs := spaces[l].vmas;
      ShrunkMeaning(vs, i, vs[i].(prot := prot));
      SetTable(l, vs[i := vs[i].(prot := prot)], 0, 0);
    }

    /** Sets the protection of every entry inside [s, e), whose borders no entry straddles. */
    method Reprotect(l: nat, s: nat, e: nat, prot: nat)
      requires Valid() && l < MAX_PROCS && s < e
      requires NoStraddle(spaces[l].vmas, s) && NoStraddle(spaces[l].vmas, e)
      modifies this`spaces
      ensures Valid()
      ensures spaces == old(spaces)[l := old(spaces[l]).(vmas := spaces[l].vmas)]
      ensures forall a: nat :: At(spaces[l].vmas, a) ==
                if s <= a < e && At(old(spaces[l].vmas), a).Some? then Some(At(old(spaces[l].vmas), a).value.(prot := prot))
                else At(old(spaces[l].vmas), a)
    {
      hide Exact, At, Refs, Total, SpaceOk, Sorted, NoStraddle, Reprotected;
      TableSorted(l);
      var was := spaces[l].vmas;
      var i0 := Lower(was, s);
      var i := i0;
      ReprotectedNone(was, i0, prot);
      while i < |spaces[l].vmas| && spaces[l].vmas[i].start < e
        invariant Valid()
        invariant 0 <= i0 <= i <= |was| == |spaces[l].vmas|
        invariant Reprotected(was, spaces[l].vmas, i0, i, prot)
        invariant spaces == old(spaces)[l := old(spaces[l]).(vmas := spaces[l].vmas)]
        invariant i0 < i ==> was[i - 1].start < e
        decreases |was| - i
      {
        ReprotectedNext(was, spaces[l].vmas, i0, i, prot);
        SetProt(l, i, prot);
        i := i + 1;
      }
      if i < |was| { ReprotectedNext(was, spaces[l].vmas, i0, i, prot); }
      forall a: nat
        ensures At(spaces[l].vmas, a) == if s <= a < e && At(was, a).Some?
                  then Some(At(was, a).value.(prot := prot)) else At(was, a)
      {
        ReprotectedBetween(was, spaces[l].vmas, i0, i, prot, s, e, a);
      }
    }

    /** mremap of private anonymous memory: shrink, grow in place, or move. The result maps
        [r, r + new_len) with the old protection; when it moves, the old range is gone. */
    method Mremap(l: nat, oldAddr: nat, oldLen0: nat, newLen0: nat, mayMove: bool, frames: bool) returns (r: int)
      requires Valid() && l < MAX_PROCS && oldAddr < U64
      modifies this
      ensures Valid() && Kept(old(objs), objs)
      ensures spaces == old(spaces)[l := spaces[l]]
      ensures r >= 0 || (r in {-EINVAL, -ENOMEM} && spaces[l].vmas == old(spaces[l].vmas) && objs == old(objs))
      ensures r >= 0 ==> PageUp(oldLen0).Some? && PageUp(newLen0).Some? && r % PAGE == 0
      ensures r >= 0 && PageUp(newLen0) == PageUp(oldLen0) ==>
                r == oldAddr && forall a: nat :: At(spaces[l].vmas, a) == At(old(spaces[l].vmas), a)
      ensures r >= 0 && PageUp(newLen0).value < PageUp(oldLen0).value ==>
                && r == oldAddr
                && forall a: nat :: At(spaces[l].vmas, a) ==
                     if oldAddr + PageUp(newLen0).value <= a < oldAddr + PageUp(oldLen0).value then None
                     else At(old(spaces[l].vmas), a)
      ensures r >= 0 && PageUp(newLen0).value > PageUp(oldLen0).value ==>
                Regrown(old(spaces[l].vmas), spaces[l].vmas, oldAddr, PageUp(oldLen0).value, r, PageUp(newLen0).value)
      ensures r >= 0 && !mayMove ==> r == oldAddr
      ensures r >= 0 && PageUp(newLen0).value > PageUp(oldLen0).value
              && !GrowsHere(old(spaces[l].vmas), oldAddr, PageUp(oldLen0).value, PageUp(newLen0).value) ==>
                NextFit(old(spaces[l].vmas), old(spaces[l]).hint, PageUp(newLen0).value, r) && spaces[l].hint == r + PageUp(newLen0).value
      ensures r >= 0 <==>
                && RemapArgs(oldAddr, oldLen0, newLen0)
                && (PageUp(newLen0).value < PageUp(oldLen0).value ==> RoomFor(old(spaces[l]), 1, frames))
                && (PageUp(newLen0).value > PageUp(oldLen0).value ==>
                      RoomFor(old(spaces[l]), 2, frames)
                      && CanGrow(old(spaces[l].vmas), oldAddr, PageUp(oldLen0).value, PageUp(newLen0).value, mayMove))
    {
      Multiples(oldLen0, newLen0);
      hide Exact, Refs, Kept, Sorted, Free, At, Carved, CanGrow, NextFit, GrowsHere, PageUp, Regrown, RoomFor;
      KeptReflexive(objs);
      if oldAddr % PAGE != 0 || oldAddr < MMAP_BASE || oldLen0 == 0 || newLen0 == 0 { return -EINVAL; }
      if PageUp(oldLen0).None? || PageUp(newLen0).None? { return -ENOMEM; }
      var oldLen, newLen := PageUp(oldLen0).value, PageUp(newLen0).value;
      if oldAddr + oldLen >= U64 { return -EINVAL; }
      var oldEnd := oldAddr + oldLen;
      if oldEnd > MMAP_END { return -EINVAL; }
      if newLen == oldLen { return oldAddr; }
      if newLen < oldLen {
        assert UnmapArgs(oldAddr + newLen, oldLen - newLen);
        var e := Munmap(l, oldAddr + newLen, oldLen - newLen, frames);
        return if e < 0 then e else oldAddr;
      }
      r := Grow(l, oldAddr, oldLen, newLen, mayMove, frames);
    }

    /** The growing half of mremap. */
    method Grow(l: nat, oldAddr: nat, oldLen: nat, newLen: nat, mayMove: bool, frames: bool) returns (r: int)
      requires Valid() && l < MAX_PROCS
      requires oldAddr % PAGE == 0 && oldLen % PAGE == 0 && newLen % PAGE == 0
      requires MMAP_BASE <= oldAddr && oldAddr + oldLen <= MMAP_END && 0 < oldLen < newLen < U64
      modifies this
      ensures Valid() && Kept(old(objs), objs)
      ensures spaces == old(spaces)[l := spaces[l]]
      ensures r >= 0 || (r in {-EINVAL, -ENOMEM} && spaces[l].vmas == old(spaces[l].vmas) && objs == old(objs))
      ensures r >= 0 ==> r % PAGE == 0 && Regrown(old(spaces[l].vmas), spaces[l].vmas, oldAddr, oldLen, r, newLen)
      ensures r >= 0 && !mayMove ==> r == oldAddr
      ensures r >= 0 && !GrowsHere(old(spaces[l].vmas), oldAddr, oldLen, newLen) ==>
                NextFit(old(spaces[l].vmas), old(spaces[l]).hint, newLen, r) && spaces[l].hint == r + newLen
      ensures r >= 0 <==> RoomFor(old(spaces[l]), 2, frames) && CanGrow(old(spaces[l].vmas), oldAddr, oldLen, newLen, mayMove)
      ensures r == -EINVAL <==> At(old(spaces[l].vmas), oldAddr).None?
    {
      hide Exact, Refs, Kept, Sorted, Free, At, Carved, SpaceOk, Regrown, RoomFor, SomeGap, GrowsHere, AnonRun, NextFit;
      KeptReflexive(objs);
      TableSorted(l);
      ghost var was := spaces[l].vmas;
      var f := Find(spaces[l].vmas, oldAddr);
      CoveringRun(was, oldAddr, oldLen, f);
      if f.None? { return -EINVAL; }
      var v := f.value;
      if v.start > oldAddr || v.end < oldAddr + oldLen || v.obj != 0 || v.ino != 0 { return -ENOMEM; }
      var room := Reserve(l, 2, frames);
      if !room { return -ENOMEM; }
      var here := FitsHere(spaces[l].vmas, oldAddr, oldLen, newLen);
      if here {
        Extend(l, v, oldAddr, oldLen, newLen);
        return oldAddr;
      }
      if !mayMove { return -ENOMEM; }
      r := Move(l, v, oldAddr, oldLen, newLen);
    }

    /** What follows the run is free, as far as it is to grow. */
    method FitsHere(vs: seq<Vma>, from: nat, oldLen: nat, newLen: nat) returns (here: bool)
      requires Sorted(vs) && oldLen < newLen
      ensures here <==> GrowsHere(vs, from, oldLen, newLen)
    {
      hide Sorted, At;
      var end := if from + newLen >= U64 then U64 - 1 else from + newLen;      // saturating_add
      if end > MMAP_END { return false; }
      var busy := Overlaps(vs, from + oldLen, end);
      here := !busy;
    }

    /** The run grows where it is. */
    method Extend(l: nat, v: Vma, from: nat, oldLen: nat, newLen: nat)
      requires Valid() && l < MAX_PROCS && v in spaces[l].vmas && v.obj == 0 && v.ino == 0
      requires v.start <= from && from + oldLen <= v.end && 0 < oldLen < newLen
      requires from % PAGE == 0 && oldLen % PAGE == 0 && newLen % PAGE == 0
      requires GrowsHere(spaces[l].vmas, from, oldLen, newLen)
      requires |spaces[l].vmas| + 1 <= Cap(spaces[l].pages)
      modifies this
      ensures Valid() && Kept(old(objs), objs)
      ensures spaces == old(spaces)[l := spaces[l]]
      ensures Regrown(old(spaces[l].vmas), spaces[l].vmas, from, oldLen, from, newLen)
    {
      WholePages(from, oldLen, newLen, v.prot);
      hide Exact, Refs, Kept, Sorted, Free, At, Carved, SpaceOk, Regrown, Vma.Sane;
      TableSorted(l);
      ghost var was := spaces[l].vmas;
      MapNew(l, Vma(from + oldLen, from + newLen, v.prot, 0, 0, 0));
      RegrownIntro(was, spaces[l].vmas, v, from, oldLen, from, newLen);
    }

    /** Gives the run a new place, the next fit for its new length. */
    method Move(l: nat, v: Vma, from: nat, oldLen: nat, newLen: nat) returns (r: int)
      requires Valid() && l < MAX_PROCS && v in spaces[l].vmas && v.obj == 0 && v.ino == 0
      requires v.start <= from && from + oldLen <= v.end && 0 < oldLen < newLen
      requires from % PAGE == 0 && oldLen % PAGE == 0 && newLen % PAGE == 0
      requires !GrowsHere(spaces[l].vmas, from, oldLen, newLen)
      requires |spaces[l].vmas| + 2 <= Cap(spaces[l].pages)
      modifies this
      ensures Valid() && Kept(old(objs), objs)
      ensures spaces == old(spaces)[l := spaces[l]]
      ensures r >= 0 || (r == -ENOMEM && spaces == old(spaces) && objs == old(objs))
      ensures r >= 0 <==> SomeGap(old(spaces[l].vmas), newLen)
      ensures r >= 0 ==> r % PAGE == 0 && Regrown(old(spaces[l].vmas), spaces[l].vmas, from, oldLen, r, newLen)
      ensures r >= 0 ==> NextFit(old(spaces[l].vmas), old(spaces[l]).hint, newLen, r) && spaces[l].hint == r + newLen
    {
      hide Exact, Refs, Kept, Loosened, Sorted, Free, At, Carved, SpaceOk, Regrown, NextFit;
      KeptReflexive(objs);
      TableSorted(l);
      HintAligned(l);
      var was := spaces[l].vmas;
      var g := Gap(was, spaces[l].hint, newLen);
      if g.None? { return -ENOMEM; }
      var to := g.value;
      Retable(l, spaces[l].(hint := to + newLen));
      CarvedFree(was, from, from + oldLen);
      StillFree(was, from, from + oldLen, to, newLen);
      Carve(l, from, from + oldLen);
      LoosenedKept(old(objs), objs);
      ghost var mid := objs;
      MapNew(l, Vma(to, to + newLen, v.prot, 0, 0, 0));
      KeptTransitive(old(objs), mid, objs);
      NotFree(was, v, from, to, newLen);
      RegrownIntro(was, spaces[l].vmas, v, from, oldLen, to, newLen);
      r := to;
    }

    /** The stack of a new process: refused if the range is taken. */
    method AddRegion(l: nat, start: nat, end: nat, prot: nat, frames: bool) returns (ok: bool)
      requires Valid() && l < MAX_PROCS && start < end && start % PAGE == 0 && end % PAGE == 0
      modifies this
      ensures Valid() && Kept(old(objs), objs)
      ensures spaces == old(spaces)[l := spaces[l]]
      ensures !ok ==> spaces[l].vmas == old(spaces[l].vmas)
      ensures ok <==> RoomFor(old(spaces[l]), 1, frames) && Free(old(spaces[l].vmas), start, end - start)
      ensures ok ==> Mapped(old(spaces[l].vmas), spaces[l].vmas, start, end, prot)
    {
      hide Exact, Refs, Kept, Sorted, Free, At;
      KeptReflexive(objs);
      var room := Reserve(l, 1, frames);
      if !room { return false; }
      TableSorted(l);
      var busy := Overlaps(spaces[l].vmas, start, end);
      if busy { return false; }
      MapNew(l, Vma(start, end, prot, 0, 0, 0));
      ok := true;
    }

    /** A loaded segment, over whatever an earlier segment left in its pages. Without room nothing happens. */
    method AddRegionOver(l: nat, start: nat, end: nat, prot: nat, frames: bool) returns (ghost done: bool)
      requires Valid() && l < MAX_PROCS && start % PAGE == 0 && end % PAGE == 0
      modifies this
      ensures Valid() && Kept(old(objs), objs)
      ensures spaces == old(spaces)[l := spaces[l]]
      ensures !done ==> spaces[l].vmas == old(spaces[l].vmas)
      ensures done <==> start < end && RoomFor(old(spaces[l]), 2, frames)
      ensures done ==> Mapped(old(spaces[l].vmas), spaces[l].vmas, start, end, prot)
    {
      hide Exact, Refs, Kept, Loosened, Sorted, Free, At, Carved;
      KeptReflexive(objs);
      done := false;
      if start >= end { return; }
      var room := Reserve(l, 2, frames);
      if !room { return; }
      TableSorted(l);
      CarvedFree(spaces[l].vmas, start, end);
      Carve(l, start, end);
      LoosenedKept(old(objs), objs);
      ghost var mid := objs;
      MapNew(l, Vma(start, end, prot, 0, 0, 0));
      KeptTransitive(old(objs), mid, objs);
      done := true;
    }

    /** fork: space `dst`, unused so far, becomes a copy of `src`, and every shared object gains the
        copy's references. Without frames for the table the copy stays empty. */
    method CloneSpace(src: nat, dst: nat, frames: bool)
      requires Valid() && src < MAX_PROCS && dst < MAX_PROCS && src != dst
      requires spaces[dst].vmas == []
      modifies this
      ensures Valid() && Kept(old(objs), objs)
      ensures spaces == old(spaces)[dst := spaces[dst]]
      ensures spaces[dst].vmas == if frames then spaces[src].vmas else []
    {
      hide Sorted, At, Kept, Owing, MapRef;
      KeptReflexive(objs);
      var s := spaces[src];
      Retable(dst, NO_SPACE.(hint := s.hint));
      if s.vmas == [] || !frames { return; }
      OwingNothing(objs, spaces);
      OwingCopy(objs, spaces, src, dst, s);
      spaces := spaces[dst := s];
      var k := 0;
      while k < |s.vmas|
        invariant 0 <= k <= |s.vmas|
        invariant Shaped() && Kept(old(objs), objs) && Owing(objs, spaces, [], s.vmas[k..])
        invariant spaces == old(spaces)[dst := s]
      {
        OwingAdd(objs, spaces, s.vmas[k..]);
        assert s.vmas[k..][1..] == s.vmas[k + 1..];
        ghost var mid := objs;
        ObjRef(s.vmas[k].obj, 1);
        KeptTransitive(old(objs), mid, objs);
        k := k + 1;
      }
      assert s.vmas[k..] == [];
      OwingNothing(objs, spaces);
    }

    /** The last user of space `l` left: every entry drops its reference and the table is blank again. */
    method Release(l: nat)
      requires Valid() && l < MAX_PROCS
      modifies this
      ensures Valid() && Kept(old(objs), objs)
      ensures spaces == old(spaces)[l := NO_SPACE]
    {
      hide At, Kept, Loosened, Owing, MapRef;
      KeptReflexive(objs);
      var sp := spaces[l];
      var after := spaces[l := NO_SPACE];
      OwingNothing(objs, spaces);
      OwingRelease(objs, spaces, l);
      var k := 0;
      while k < |sp.vmas|
        invariant 0 <= k <= |sp.vmas|
        invariant |objs| == MAX_OBJS && Kept(old(objs), objs) && Owing(objs, after, sp.vmas[k..], [])
        invariant spaces == old(spaces)
      {
        OwingDrop(objs, after, sp.vmas[k..]);
        assert sp.vmas[k..][1..] == sp.vmas[k + 1..];
        ghost var mid := objs;
        ObjRef(sp.vmas[k].obj, -1);
        LoosenedKept(mid, objs);
        KeptTransitive(old(objs), mid, objs);
        k := k + 1;
      }
      assert sp.vmas[k..] == [];
      spaces := after;
      OwingNothing(objs, spaces);
    }

    /** A new object with one descriptor reference: no VMA names its slot. */
    method Create(named: bool) returns (id: nat)
      requires Valid()
      modifies this`objs
      ensures Valid() && id <= MAX_OBJS
      ensures id == 0 ==> objs == old(objs) && forall k :: 0 <= k < MAX_OBJS ==> objs[k].used
      ensures id != 0 ==> !Live(old(objs), id) && objs == old(objs)[id - 1 := Obj(true, 1, 0, named)]
    {
      for i := 0 to MAX_OBJS
        invariant forall k :: 0 <= k < i ==> objs[k].used
      {
        if !objs[i].used {
          DeadUnnamed(objs, spaces, i + 1);
          SetObj(i + 1, Obj(true, 1, 0, named));
          return i + 1;
        }
      }
      return 0;
    }

    /** Overwrites an object, its mapping count kept; a dead result must be unmapped. */
    method SetObj(id: nat, o: Obj)
      requires Valid() && 1 <= id <= MAX_OBJS && o.mapRefs == objs[id - 1].mapRefs
      requires !o.used ==> o == EMPTY
      modifies this`objs
      ensures Valid() && objs == old(objs)[id - 1 := o]
    {
      ghost var was := objs;
      objs := objs[id - 1 := o];
      forall k | 1 <= k <= |objs| ensures ExactAt(objs, spaces, 0, 0, k) { assert ExactAt(was, spaces, 0, 0, k); }
    }

    /** An object for shared anonymous memory: sized, and not yet referenced by anyone. */
    method CreateAnon(sized: bool) returns (id: nat)
      requires Valid()
      modifies this`objs
      ensures Valid() && id <= MAX_OBJS
      ensures id == 0 ==> objs == old(objs)
      ensures id != 0 ==> !Live(old(objs), id) && objs == old(objs)[id - 1 := Obj(true, 0, 0, false)]
    {
      id := Create(false);
      if id == 0 { return; }
      SetObj(id, objs[id - 1].(fdRefs := 0));
      if !sized {
        MaybeFree(id);
        DeadUnnamed(old(objs), spaces, id);
        id := 0;
      }
    }

    /** Reclaims the object if no descriptor, no VMA and no name holds it. */
    method MaybeFree(id: nat)
      requires Valid()
      modifies this`objs
      ensures Valid()
      ensures objs == if Live(old(objs), id) && Unheld(old(objs)[id - 1]) then old(objs)[id - 1 := EMPTY] else old(objs)
    {
      if Live(objs, id) && Unheld(objs[id - 1]) { SetObj(id, EMPTY); }
    }

    /** A descriptor of the object opened (1) or closed (-1). */
    method FdRef(id: nat, delta: int)
      requires Valid() && (delta == 1 || delta == -1)
      modifies this`objs
      ensures Valid()
      ensures !Live(old(objs), id) ==> objs == old(objs)
      ensures Live(old(objs), id) ==>
                var o := old(objs)[id - 1];
                var n := if delta > 0 then o.fdRefs + 1 else if o.fdRefs > 0 then o.fdRefs - 1 else 0;
                objs == old(objs)[id - 1 := if delta < 0 && n == 0 && o.mapRefs == 0 && !o.named then EMPTY
                                            else o.(fdRefs := n)]
    {
      if Live(objs, id) {
        var o := objs[id - 1];
        SetObj(id, o.(fdRefs := if o.fdRefs + delta < 0 then 0 else o.fdRefs + delta));
      }
      if delta < 0 { MaybeFree(id); }
    }

    /** shm_unlink: the name goes; the object stays while it is held. */
    method Unlink(id: nat)
      requires Valid() && Live(objs, id) && objs[id - 1].named
      modifies this`objs
      ensures Valid()
      ensures var o := old(objs)[id - 1];
              objs == old(objs)[id - 1 := if o.fdRefs == 0 && o.mapRefs == 0 then EMPTY else o.(named := false)]
    {
      SetObj(id, objs[id - 1].(named := false));
      MaybeFree(id);
    }

    lemma HintAligned(l: nat)
      requires Valid() && l < MAX_PROCS
      ensures spaces[l].hint % PAGE == 0
      ensures forall h: nat :: h % PAGE == 0 ==> SpaceOk(spaces[l].(hint := h))
    {
    }

    lemma TableSorted(l: nat)
      requires Valid() && l < MAX_PROCS
      ensures Sorted(spaces[l].vmas)
    {
    }

    lemma NamedLive(l: nat, i: nat)
      requires Valid() && l < MAX_PROCS && i < |spaces[l].vmas|
      ensures var id := spaces[l].vmas[i].obj; id != 0 ==> Live(objs, id) && objs[id - 1].mapRefs > 0
    {
      var id := spaces[l].vmas[i].obj;
      RefsPositive(spaces[l].vmas, i);
      TotalAtLeast(spaces, l, id);
      if id != 0 { assert ExactAt(objs, spaces, 0, 0, id); }
    }
  }

  /** What munmap accepts. */
  predicate UnmapArgs(addr: nat, len0: nat)
  {
    addr % PAGE == 0 && PageUp(len0).Some? && 0 < PageUp(len0).value && MMAP_BASE <= addr && addr + PageUp(len0).value <= MMAP_END
  }

  /** There is a free run of that length in the mmap region. */
  ghost predicate SomeGap(vs: seq<Vma>, len: nat)
  {
    exists b: nat :: MMAP_BASE <= b && b + len <= MMAP_END && Free(vs, b, len)
  }

  /** The page of the hint starts a free run. */
  ghost predicate HintFree(vs: seq<Vma>, addr: nat, len: nat)
  {
    var start := addr - addr % PAGE;
    MMAP_BASE <= start && start + len <= MMAP_END && Free(vs, start, len)
  }

  /** Where a mapping goes that may go anywhere: to the hinted page if there is room, which leaves the start of the next
      search alone, or to the next fit, behind which the next search starts. */
  ghost predicate Chosen(was: Space, now: Space, addr: nat, len: nat, ok: bool, start: int)
  {
    if !ok then now.hint == was.hint
    else if HintFree(was.vmas, addr, len) then start == addr - addr % PAGE && now.hint == was.hint
    else start >= 0 && NextFit(was.vmas, was.hint, len, start) && now.hint == start + len
  }

  /** Which error a fixed mapping gets: misaligned, outside the region, or taken and not to be replaced. */
  ghost predicate FixedErrors(vs: seq<Vma>, addr: nat, len: nat, noReplace: bool, err: int)
  {
    && err in {0, -EINVAL, -ENOMEM, -EEXIST} && (err == -EINVAL <==> addr % PAGE != 0)
    && (err == -EEXIST <==> FixedFits(vs, addr, len, false) && noReplace && !Free(vs, addr, len))
  }

  /** A fixed mapping may go there. */
  ghost predicate FixedFits(vs: seq<Vma>, addr: nat, len: nat, noReplace: bool)
  {
    addr % PAGE == 0 && MMAP_BASE <= addr && addr + len <= MMAP_END && (noReplace ==> Free(vs, addr, len))
  }

  predicate RemapArgs(oldAddr: nat, oldLen0: nat, newLen0: nat)
  {
    && oldAddr % PAGE == 0 && MMAP_BASE <= oldAddr && oldLen0 > 0 && newLen0 > 0
    && PageUp(oldLen0).Some? && PageUp(newLen0).Some? && oldAddr + PageUp(oldLen0).value <= MMAP_END
  }

  /** The run can become longer, where it is or somewhere else. */
  ghost predicate CanGrow(vs: seq<Vma>, from: nat, oldLen: nat, newLen: nat, mayMove: bool)
  {
    AnonRun(vs, from, oldLen) && (GrowsHere(vs, from, oldLen, newLen) || (mayMove && SomeGap(vs, newLen)))
  }

  /** An entry that covers the run is the one found at its start. */
  lemma CoveringRun(vs: seq<Vma>, from: nat, len: nat, f: Option<Vma>)
    requires Sorted(vs) && len > 0
    requires f.None? ==> At(vs, from).None?
    requires f.Some? ==> f.value in vs && f.value.Covers(from)
    ensures AnonRun(vs, from, len) <==>
            f.Some? && f.value.start <= from && from + len <= f.value.end && f.value.obj == 0 && f.value.ino == 0
  {
    hide At;
    forall v | v in vs && v.Covers(from) ensures f == Some(v) {
      var k :| 0 <= k < |vs| && vs[k] == v;
      AtIndex(vs, k, from);
      if f.Some? {
        var j :| 0 <= j < |vs| && vs[j] == f.value;
        assert j == k;
      }
    }
    if f.Some? && f.value.start <= from && from + len <= f.value.end && f.value.obj == 0 && f.value.ino == 0 {
      assert f.value in vs;
    }
  }

  /** What follows the run is free. */
  ghost predicate GrowsHere(vs: seq<Vma>, from: nat, oldLen: nat, newLen: nat)
  {
    oldLen <= newLen && from + newLen <= MMAP_END && Free(vs, from + oldLen, newLen - oldLen)
  }

  /** An anonymous private entry covers the whole run. */
  ghost predicate AnonRun(vs: seq<Vma>, from: nat, len: nat)
  {
    exists v :: v in vs && v.start <= from && from + len <= v.end && v.obj == 0 && v.ino == 0
  }

  /** `now` is `was` with private zeroed memory on [start, end). */
  ghost predicate Mapped(was: seq<Vma>, now: seq<Vma>, start: nat, end: nat, prot: nat)
  {
    forall a: nat :: At(now, a) == if start <= a < end then Some(Page(prot, Anon)) else At(was, a)
  }

  /** `now` is `was` with the anonymous run [from, from + oldLen) replaced by one of `newLen` bytes and
      the same protection at `to`: the same place, or a range that was free. */
  ghost predicate Regrown(was: seq<Vma>, now: seq<Vma>, from: nat, oldLen: nat, to: nat, newLen: nat)
  {
    && At(was, from).Some? && At(was, from).value.backing == Anon
    && (forall a: nat :: from <= a < from + oldLen ==> At(was, a) == At(was, from))
    && (if GrowsHere(was, from, oldLen, newLen) then to == from else Free(was, to, newLen))
    && forall a: nat :: At(now, a) ==
         if to <= a < to + newLen then At(was, from)
         else if from <= a < from + oldLen then None
         else At(was, a)
  }

  lemma RegrownIntro(was: seq<Vma>, now: seq<Vma>, v: Vma, from: nat, oldLen: nat, to: nat, newLen: nat)
    requires Sorted(was) && v in was && v.obj == 0 && v.ino == 0
    requires v.start <= from && from + oldLen <= v.end && 0 < oldLen < newLen
    requires if GrowsHere(was, from, oldLen, newLen) then to == from else Free(was, to, newLen)
    requires forall a: nat :: At(now, a) ==
               if to <= a < to + newLen && (to == from ==> from + oldLen <= a) then Some(Page(v.prot, Anon))
               else if to != from && from <= a < from + oldLen then None
               else At(was, a)
    ensures Regrown(was, now, from, oldLen, to, newLen)
  {
    hide At;
    var k :| 0 <= k < |was| && was[k] == v;
    forall a: nat | from <= a < from + oldLen ensures At(was, a) == Some(Page(v.prot, Anon)) {
      AtIndex(was, k, a);
    }
  }

  lemma NotFree(vs: seq<Vma>, v: Vma, x: nat, a: nat, len: nat)
    requires Sorted(vs) && v in vs && v.Covers(x) && Free(vs, a, len)
    ensures !(a <= x < a + len)
  {
    hide At;
    var k :| 0 <= k < |vs| && vs[k] == v;
    AtIndex(vs, k, x);
  }

  lemma StillFree(vs: seq<Vma>, s: nat, e: nat, a: nat, len: nat)
    requires Sorted(vs) && s < e && s % PAGE == 0 && e % PAGE == 0 && Free(vs, a, len)
    ensures Free(Carved(vs, s, e), a, len)
  {
    hide At;
    forall x: nat | a <= x < a + len ensures At(Carved(vs, s, e), x).None? { CarvedAt(vs, s, e, x); }
  }

  lemma OwingCopy(objs: seq<Obj>, spaces: seq<Space>, src: nat, dst: nat, s: Space)
    requires src < |spaces| && dst < |spaces| && spaces[dst].vmas == [] && spaces[src].vmas == s.vmas
    requires Owing(objs, spaces, [], [])
    ensures Owing(objs, spaces[dst := s], [], s.vmas)
  {
    var next := spaces[dst := s];
    forall id | 1 <= id <= |objs| ensures OwingAt(objs, next, [], s.vmas, id) {
      TotalUpdate(spaces, dst, s, id);
      TotalAtLeast(spaces, src, id);
      assert OwingAt(objs, spaces, [], [], id);
    }
  }

  lemma OwingRelease(objs: seq<Obj>, spaces: seq<Space>, l: nat)
    requires l < |spaces| && Owing(objs, spaces, [], [])
    ensures Owing(objs, spaces[l := NO_SPACE], spaces[l].vmas, [])
  {
    var next, gone := spaces[l := NO_SPACE], spaces[l].vmas;
    forall id | 1 <= id <= |objs| ensures OwingAt(objs, next, gone, [], id) {
      TotalUpdate(spaces, l, NO_SPACE, id);
      TotalAtLeast(spaces, l, id);
      assert OwingAt(objs, spaces, [], [], id);
    }
  }

  /** No entry has `addr` strictly inside. */
  ghost predicate NoStraddle(vs: seq<Vma>, addr: nat)
  {
    forall k :: 0 <= k < |vs| ==> addr <= vs[k].start || vs[k].end <= addr
  }

  lemma HalvedStraddle(vs: seq<Vma>, i: nat, addr: nat)
    requires Sorted(vs) && i < |vs| && vs[i].start < addr < vs[i].end
    ensures NoStraddle(Halved(vs, i, addr), addr)
    ensures forall b :: NoStraddle(vs, b) ==> NoStraddle(Halved(vs, i, addr), b)
  {
    var r := Halved(vs, i, addr);
    forall k | 0 <= k < |r|
      ensures r[k] == if k < i then vs[k] else if k == i then vs[i].(end := addr)
                      else if k == i + 1 then Tail(vs[i], addr) else vs[k - 1] {
    }
  }

  lemma {:induction false} TotalEmpty(spaces: seq<Space>, id: nat)
    requires forall l :: 0 <= l < |spaces| ==> spaces[l].vmas == []
    ensures Total(spaces, id) == 0
  {
    if spaces != [] { TotalEmpty(spaces[1..], id); }
  }

  lemma ReprotectedNone(vs: seq<Vma>, i: nat, prot: nat)
    ensures Reprotected(vs, vs, i, i, prot)
  {
  }

  lemma ReprotectedNext(vs: seq<Vma>, ws: seq<Vma>, i: nat, j: nat, prot: nat)
    requires Reprotected(vs, ws, i, j, prot) && i <= j < |vs|
    ensures |ws| == |vs| && ws[j] == vs[j] && Reprotected(vs, ws[j := ws[j].(prot := prot)], i, j + 1, prot)
  {
  }

  /** The entries from the first that ends after `s` up to the first that starts at `e` or later are those inside, if
      none straddles either border. */
  lemma ReprotectedBetween(vs: seq<Vma>, ws: seq<Vma>, i: nat, j: nat, prot: nat, s: nat, e: nat, a: nat)
    requires Sorted(vs) && Reprotected(vs, ws, i, j, prot) && i <= j <= |vs| && NoStraddle(vs, s) && NoStraddle(vs, e)
    requires (forall k :: 0 <= k < i ==> vs[k].end <= s) && (forall k :: i <= k < |vs| ==> s < vs[k].end)
    requires (i < j ==> vs[j - 1].start < e) && (j < |vs| ==> e <= vs[j].start)
    ensures At(ws, a) == if s <= a < e && At(vs, a).Some? then Some(At(vs, a).value.(prot := prot)) else At(vs, a)
  {
    hide At, Reprotected;
    assert forall k :: i <= k < j - 1 ==> vs[k].end <= vs[j - 1].start;
    assert j < |vs| ==> forall k :: j < k < |vs| ==> vs[j].end <= vs[k].start;
    ReprotectedAt(vs, ws, i, j, prot, s, e, a);
  }

  /** What is left of an entry on both sides of a hole. */
  lemma CutEnds(v: Vma, s: nat, e: nat)
    requires v.Sane() && s % PAGE == 0 && e % PAGE == 0 && v.start < s < e < v.end
    ensures var x, y := v.(end := s), Tail(v, e);
            && x.Sane() && y.Sane() && y.start == e && y.end == v.end && x.obj == y.obj == v.obj && Clip(v, s, e) == [x] + [y]
  {
  }

  lemma CutRefs(vs: seq<Vma>, i: nat, x: Vma, y: Vma, id: nat)
    requires i < |vs| && x.obj == y.obj == vs[i].obj
    ensures Refs(vs[..i] + [x] + [y] + vs[i + 1..], id) == Refs(vs, id) + if vs[i].obj == id then 1 else 0
  {
    hide Refs;
    RefsAround(vs[..i] + [x], y, vs[i + 1..], id);
    RefsAround(vs[..i], x, [], id);
    assert vs[..i] + [x] + [] == vs[..i] + [x];
    RefsNone(id);
    RefsAround(vs[..i], vs[i], vs[i + 1..], id);
    assert vs[..i] + [vs[i]] + vs[i + 1..] == vs;
  }

  lemma RefsNone(id: nat)
    ensures Refs([], id) == 0
  {
  }

  /** An entry with a hole in the middle is two entries. */
  lemma MiddleCut(vs: seq<Vma>, i: nat, s: nat, e: nat)
    requires Sorted(vs) && i < |vs| && s % PAGE == 0 && e % PAGE == 0 && vs[i].start < s < e < vs[i].end
    ensures var next := Inserted(vs[i := vs[i].(end := s)], i + 1, Tail(vs[i], e));
            && Sorted(next) && |next| == |vs| + 1 && next == vs[..i] + Carved(vs[i..], s, e)
            && (forall id :: Refs(next, id) == Refs(vs, id) + if vs[i].obj == id then 1 else 0)
            && ((forall k :: 0 <= k < |vs| ==> vs[k].obj <= MAX_OBJS) ==> forall k :: 0 <= k < |next| ==> next[k].obj <= MAX_OBJS)
  {
    SaneAt(vs, i);
    CutEnds(vs[i], s, e);
    CarvedStep(vs, i, s, e);
    CutBeyond(vs, i, s, e);
    hide Refs, Carved, Tail, Clip, Sorted, Inserted, Vma.Sane;
    var x, y := vs[i].(end := s), Tail(vs[i], e);
    var next := vs[..i] + [x] + [y] + vs[i + 1..];
    InTheMiddle(vs, i, x, y);
    HalvedSorted(vs, next, i, x, y);
    forall id ensures Refs(next, id) == Refs(vs, id) + if vs[i].obj == id then 1 else 0 { CutRefs(vs, i, x, y, id); }
  }

  lemma InTheMiddle(vs: seq<Vma>, i: nat, x: Vma, y: Vma)
    requires i < |vs|
    ensures var next := vs[..i] + [x] + [y] + vs[i + 1..];
            && |next| == |vs| + 1 && Inserted(vs[i := x], i + 1, y) == next && vs[..i] + ([x] + [y] + vs[i + 1..]) == next
            && forall k :: 0 <= k < |next| ==> next[k] == x || next[k] == y || next[k] in vs
  {
  }

  lemma CutBeyond(vs: seq<Vma>, i: nat, s: nat, e: nat)
    requires Sorted(vs) && i < |vs| && s < e < vs[i].end
    ensures Carved(vs[i + 1..], s, e) == vs[i + 1..]
  {
    CarvedBeyond(vs, i + 1, s, e);
  }

  /** Two ends of whole pages make an entry. */
  lemma WholePages(from: nat, oldLen: nat, newLen: nat, prot: nat)
    requires from % PAGE == 0 && oldLen % PAGE == 0 && newLen % PAGE == 0 && oldLen < newLen
    ensures Vma(from + oldLen, from + newLen, prot, 0, 0, 0).Sane()
  {
  }
}
