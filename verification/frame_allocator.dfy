/** Physical 4 KiB frames: a bitmap searched by words, a reference count per frame, a search hint and a count of
    free frames (kernel/src/frame_allocator.rs). */
module FrameAllocator {
  import opened Basics

  const PAGE: nat := 4096
  const MAX_REFS: nat := 65535

  /** Bits of the bitmap for `frames` frames: whole words. */
  function Bits(frames: nat): nat
  {
    Words(frames) * 64
  }

  function Words(frames: nat): nat
  {
    (frames + 63) / 64
  }

  /** Clear bits. */
  function Clear(bits: seq<bool>): nat
  {
    if bits == [] then 0 else Clear(bits[..|bits| - 1]) + if bits[|bits| - 1] then 0 else 1
  }

  lemma {:induction false} ClearUpdate(bits: seq<bool>, i: nat, v: bool)
    requires i < |bits| && bits[i] != v
    ensures Clear(bits[i := v]) == if v then Clear(bits) - 1 else Clear(bits) + 1
  {
    var k := |bits| - 1;
    if i < k {
      assert bits[i := v][..k] == bits[..k][i := v];
      ClearUpdate(bits[..k], i, v);
    } else {
      assert bits[i := v][..k] == bits[..k];
    }
  }

  lemma {:induction false} SomeClear(bits: seq<bool>, i: nat)
    requires i < |bits| && !bits[i]
    ensures Clear(bits) > 0
  {
    if i < |bits| - 1 { SomeClear(bits[..|bits| - 1], i); }
  }

  lemma {:induction false} NoneClear(bits: seq<bool>)
    requires forall i :: 0 <= i < |bits| ==> bits[i]
    ensures Clear(bits) == 0
  {
    if bits != [] { NoneClear(bits[..|bits| - 1]); }
  }

  /** All the bits are clear: one word of the bitmap at boot, say. */
  lemma {:induction false} AllClear(bits: seq<bool>)
    requires forall i :: 0 <= i < |bits| ==> !bits[i]
    ensures Clear(bits) == |bits|
  {
    if bits != [] { AllClear(bits[..|bits| - 1]); }
  }

  /** `n` clear bits from `s` on. */
  ghost predicate FreeRun(bits: seq<bool>, s: nat, n: nat)
  {
    s + n <= |bits| && forall i :: s <= i < s + n ==> !bits[i]
  }

  ghost predicate NoRunBefore(bits: seq<bool>, s: nat, n: nat)
  {
    forall t: nat :: t < s ==> !FreeRun(bits, t, n)
  }

  class Frames {
    const base: nat
    const frames: nat
    /** The frames of the graphics area, which are never given out or taken back. */
    const reservedFrom: nat
    const reservedTo: nat
    const bits: array<bool>
    const refs: array<nat>
    var hint: nat
    var free: nat

    ghost predicate Valid()
      reads this, bits, refs
    {
      && frames > 0 && bits.Length == Bits(frames) >= frames && refs.Length == frames && hint < frames
      && (forall i :: frames <= i < bits.Length ==> bits[i])
      && (forall i :: 0 <= i < frames ==> (bits[i] <==> refs[i] > 0) && refs[i] <= MAX_REFS)
      && free == Clear(bits[..])
    }

    /** Boot: everything is free but the bits past the last frame and the graphics area. */
    constructor (base: nat, frames: nat, reservedFrom: nat, reservedTo: nat)
      requires frames > 0 && reservedFrom <= reservedTo <= frames
      ensures Valid() && this.base == base && this.frames == frames && fresh(bits) && fresh(refs)
      ensures this.reservedFrom == reservedFrom && this.reservedTo == reservedTo
      ensures forall i :: 0 <= i < frames ==> refs[i] == if reservedFrom <= i < reservedTo then 1 else 0
      ensures free == frames - (reservedTo - reservedFrom)
    {
      this.base, this.frames, this.reservedFrom, this.reservedTo := base, frames, reservedFrom, reservedTo;
      bits := new bool[Bits(frames)](i => i >= frames);
      refs := new nat[frames](_ => 0);
      hint, free := 0, frames;
      new;
      BitsEnough(frames);
      BootClear(bits[..], frames);
      for a := reservedFrom to reservedTo
        invariant Valid() && free == frames - (a - reservedFrom)
        invariant forall i :: 0 <= i < frames ==> refs[i] == if reservedFrom <= i < a then 1 else 0
      {
        SetUsed(a);
      }
    }

    method SetUsed(i: nat)
      requires Valid() && i < frames && !bits[i]
      modifies this`free, bits, refs
      ensures Valid() && free == old(free) - 1
      ensures bits[..] == old(bits[..])[i := true] && refs[..] == old(refs[..])[i := 1]
    {
      ClearUpdate(bits[..], i, true);
      SomeClear(bits[..], i);
      bits[i] := true;
      refs[i] := 1;
      free := free - 1;
      assert bits[..] == old(bits[..])[i := true];
    }

    /** The lowest clear bit of word `w`, if it is not full. */
    method FirstClear(w: nat) returns (r: Option<nat>)
      requires Valid() && w < Words(frames)
      ensures r.None? ==> forall i :: w * 64 <= i < w * 64 + 64 ==> bits[i]
      ensures r.Some? ==> w * 64 <= r.value < w * 64 + 64 && r.value < frames && !bits[r.value]
      ensures r.Some? ==> forall i :: w * 64 <= i < r.value ==> bits[i]
    {
      for k := 0 to 64
        invariant forall i :: w * 64 <= i < w * 64 + k ==> bits[i]
      {
        if !bits[w * 64 + k] { return Some(w * 64 + k); }
      }
      r := None;
    }

    /** alloc_frame: the first clear bit from the hint's word on, around the bitmap; none only when no frame is
        free. */
    method AllocFrame() returns (r: Option<nat>)
      requires Valid()
      modifies this`hint, this`free, bits, refs
      ensures Valid()
      ensures r.None? ==> free == old(free) == 0 && refs[..] == old(refs[..])
      ensures r.Some? ==> exists i: nat :: Taken(old(refs[..]), refs[..], i) && r.value == base + i * PAGE && hint == i
      ensures r.Some? ==> free == old(free) - 1
    {
      var start := hint / 64;
      HintWord(hint, frames);
      for k := 0 to Words(frames)
        invariant Valid() && free == old(free) && refs[..] == old(refs[..])
        invariant forall j: nat :: j < k ==> FullWord(WordAt(start, j, Words(frames)))
      {
        var w := WordAt(start, k, Words(frames));
        var b := FirstClear(w);
        if b.Some? {
          SetUsed(b.value);
          hint := b.value;
          assert Taken(old(refs[..]), refs[..], b.value);
          return Some(base + b.value * PAGE);
        }
      }
      forall i | 0 <= i < bits.Length ensures bits[i] {
        var j := Steps(start, i / 64, Words(frames));
        assert FullWord(WordAt(start, j, Words(frames)));
        assert i / 64 * 64 <= i < i / 64 * 64 + 64;
      }
      NoneClear(bits[..]);
      r := None;
    }

    ghost predicate FullWord(w: nat)
      reads bits
    {
      w * 64 + 64 <= bits.Length && forall i :: w * 64 <= i < w * 64 + 64 ==> bits[i]
    }

    /** free_idx_locked: one reference less; the last one frees the frame. Freeing a free frame does nothing. */
    method FreeIdx(i: nat)
      requires Valid() && i < frames
      modifies this`hint, this`free, bits, refs
      ensures Valid() && refs[..] == old(refs[..])[i := if old(refs[i]) == 0 then 0 else old(refs[i]) - 1]
      ensures free == old(free) + if old(refs[i]) == 1 then 1 else 0
    {
      if bits[i] {
        if refs[i] > 1 {
          refs[i] := refs[i] - 1;
          return;
        }
        refs[i] := 0;
        ClearUpdate(bits[..], i, false);
        bits[i] := false;
        assert bits[..] == old(bits[..])[i := false];
        free := free + 1;
        if i < hint { hint := i; }
      } else {
        assert refs[..] == old(refs[..])[i := 0];
      }
    }

    /** Address `addr` lies in frame `i`, which is managed here: in the window and not in the graphics area. */
    ghost predicate Meant(addr: nat, i: nat)
    {
      i < frames && base + i * PAGE <= addr < base + i * PAGE + PAGE && !(reservedFrom <= i < reservedTo)
    }

    /** The frame at an address, unless it lies outside the window or in the graphics area. */
    method FrameOf(addr: nat) returns (r: Option<nat>)
      requires Valid()
      ensures r.None? ==> forall i: nat :: !Meant(addr, i)
      ensures r.Some? ==> r.value < frames && forall i: nat :: Meant(addr, i) <==> i == r.value
    {
      if addr < base || addr >= base + frames * PAGE { return None; }
      var i := (addr - base) / PAGE;
      r := if reservedFrom <= i < reservedTo then None else Some(i);
      forall k: nat ensures Meant(addr, k) ==> k == i { }
    }

    method FreeFrame(addr: nat)
      requires Valid()
      modifies this`hint, this`free, bits, refs
      ensures Valid()
      ensures forall i :: 0 <= i < frames ==> refs[i] == (if Meant(addr, i) then OneLess(old(refs[i])) else old(refs[i]))
    {
      var i := FrameOf(addr);
      if i.Some? { FreeIdx(i.value); }
    }

    /** inc_ref: one reference more, up to the largest the counter can hold. A reference to a frame that is free is
        the one thing that breaks the bookkeeping. */
    method IncRef(addr: nat)
      requires Valid()
      modifies refs
      ensures Valid() <==> forall i :: 0 <= i < frames && Meant(addr, i) ==> old(refs[i]) > 0
      ensures refs.Length == frames && forall i :: 0 <= i < frames ==>
                refs[i] == (if Meant(addr, i) && old(refs[i]) < MAX_REFS then old(refs[i]) + 1 else old(refs[i]))
    {
      var i := FrameOf(addr);
      if i.Some? {
        if refs[i.value] < MAX_REFS { refs[i.value] := refs[i.value] + 1; }
      }
    }

    /** alloc_contig: for two frames or more the lowest run that is free, none only when there is none. */
    method AllocContig(n: nat) returns (r: Option<nat>)
      requires Valid()
      modifies this`hint, this`free, bits, refs
      ensures Valid()
      ensures n == 0 ==> r.None?
      ensures r.None? ==> refs[..] == old(refs[..])
      ensures r.None? && n > 0 ==> forall s: nat :: s + n <= frames ==> !FreeRun(old(bits[..]), s, n)
      ensures r.Some? ==> exists s: nat :: (r.value == base + s * PAGE && TakenRun(old(refs[..]), refs[..], s, n)
                && (n >= 2 ==> NoRunBefore(old(bits[..]), s, n)))
      ensures r.Some? ==> free == old(free) - n
    {
      if n == 0 { return None; }
      if n == 1 {
        r := AllocFrame();
        if r.None? {
          forall s: nat | s + n <= frames ensures !FreeRun(old(bits[..]), s, n) {
            if !old(bits[..])[s] { SomeClear(old(bits[..]), s); }
          }
        } else {
          ghost var i: nat :| Taken(old(refs[..]), refs[..], i) && r.value == base + i * PAGE;
          assert TakenRun(old(refs[..]), refs[..], i, 1);
        }
        return;
      }
      var run := FindRun(n);
      if run.None? { return None; }
      TakeRun(run.value, n);
      r := Some(base + run.value * PAGE);
    }

    /** The scan of alloc_contig, which skips full words when no run is under way. */
    method FindRun(n: nat) returns (r: Option<nat>)
      requires Valid() && n >= 2
      ensures r.None? ==> forall s: nat :: s + n <= frames ==> !FreeRun(bits[..], s, n)
      ensures r.Some? ==> r.value + n <= frames && FreeRun(bits[..], r.value, n)
      ensures r.Some? ==> NoRunBefore(bits[..], r.value, n)
    {
      var run, start, i := 0, 0, 0;
      while i < frames
        invariant run < n && run <= i && i <= bits.Length && (run > 0 ==> start + run == i)
        invariant FreeRun(bits[..], i - run, run)
        invariant i - run > 0 ==> bits[i - run - 1]
        invariant forall s: nat :: s + n <= i ==> !FreeRun(bits[..], s, n)
        invariant i > frames ==> run == 0
      {
        if run == 0 && i % 64 == 0 {
          WordFits(i, frames);
          var b := FirstClear(i / 64);
          if b.None? {
            forall s: nat | i < s + n <= i + 64 ensures !FreeRun(bits[..], s, n) { assert bits[..][s + n - 1]; }
            i := i + 64;
            continue;
          }
        }
        if !bits[i] {
          if run == 0 { start := i; }
          run := run + 1;
          if run == n {
            return Some(start);
          }
          if i + 1 >= n {
            var s := i + 1 - n;
            if s < i + 1 - run { assert bits[..][i - run]; }
          }
        } else {
          run := 0;
          forall s: nat | s + n == i + 1 ensures !FreeRun(bits[..], s, n) { assert bits[..][i]; }
        }
        i := i + 1;
      }
      r := None;
    }

    method TakeRun(s: nat, n: nat)
      requires Valid() && s + n <= frames && FreeRun(bits[..], s, n)
      modifies this`free, bits, refs
      ensures Valid() && TakenRun(old(refs[..]), refs[..], s, n) && free == old(free) - n
    {
      for i := s to s + n
        invariant Valid() && TakenRun(old(refs[..]), refs[..], s, i - s) && free == old(free) - (i - s)
        invariant forall j :: i <= j < s + n ==> !bits[j]
      {
        ghost var before := refs[..];
        SetUsed(i);
      }
    }

    /** free_contig: each of the frames loses one reference. */
    method FreeContig(addr: nat, n: nat)
      requires Valid()
      modifies this`hint, this`free, bits, refs
      ensures Valid()
      ensures forall i :: 0 <= i < frames ==>
                refs[i] == (if exists j: nat :: j <= i < j + n && Meant(addr, j) then OneLess(old(refs[i])) else old(refs[i]))
    {
      var first := FrameOf(addr);
      if first.None? || n == 0 { return; }
      assert Meant(addr, first.value);
      assert forall j: nat :: Meant(addr, j) ==> j == first.value;
      var end := if first.value + n < frames then first.value + n else frames;
      for i := first.value to end
        invariant Valid()
        invariant forall j :: 0 <= j < frames ==> refs[j] == if first.value <= j < i then OneLess(old(refs[j])) else old(refs[j])
      {
        ghost var before := refs[..];
        FreeIdx(i);
        assert refs[..] == before[i := OneLess(before[i])];
      }
    }
  }

  function OneLess(k: nat): nat { if k > 0 then k - 1 else 0 }

  /** Exactly frame `i`, free before, is now in use, once. */
  ghost predicate Taken(a: seq<nat>, b: seq<nat>, i: nat)
  {
    i < |a| && a[i] == 0 && b == a[i := 1]
  }

  /** Exactly the `n` frames from `s` on, all free before, are now in use, once each. */
  ghost predicate TakenRun(a: seq<nat>, b: seq<nat>, s: nat, n: nat)
  {
    && s + n <= |a| == |b|
    && forall i :: 0 <= i < |a| ==> b[i] == (if s <= i < s + n then 1 else a[i]) && (s <= i < s + n ==> a[i] == 0)
  }

  lemma BitsEnough(frames: nat)
    ensures frames <= Bits(frames) < frames + 64 && Bits(frames) % 64 == 0
  {
  }

  lemma {:induction false} BootClear(bits: seq<bool>, frames: nat)
    requires frames <= |bits| && forall i :: 0 <= i < |bits| ==> (bits[i] <==> i >= frames)
    ensures Clear(bits) == frames
  {
    if |bits| > frames { BootClear(bits[..|bits| - 1], frames); } else { AllClear(bits); }
  }

  lemma HintWord(hint: nat, frames: nat)
    requires hint < frames
    ensures hint / 64 < Words(frames)
  {
  }

  lemma WordFits(i: nat, frames: nat)
    requires i < frames && i % 64 == 0
    ensures i / 64 < Words(frames) && i / 64 * 64 == i && i + 64 <= Bits(frames)
  {
  }

  /** Word `k` places after word `start`, around the bitmap. */
  function WordAt(start: nat, k: nat, words: nat): (w: nat)
    requires words > 0
    ensures w < words
  {
    (start + k) % words
  }

  /** The distance around the bitmap from one word to another. */
  function Steps(start: nat, w: nat, words: nat): (j: nat)
    requires start < words && w < words
    ensures j < words && WordAt(start, j, words) == w
  {
    if w >= start then Ahead(start, w, words) else Around(start, w, words)
  }

  function Ahead(start: nat, w: nat, words: nat): (j: nat)
    requires start <= w < words
    ensures j < words && WordAt(start, j, words) == w
  {
    w - start
  }

  function Around(start: nat, w: nat, words: nat): (j: nat)
    requires w < start < words
    ensures j < words && WordAt(start, j, words) == w
  {
    ModOnce(w, words);
    w + words - start
  }

  lemma ModOnce(w: nat, words: nat)
    requires w < words
    ensures (w + words) % words == w
  {
  }
}
