/** A program that may be loaded anywhere means the same at every base (kernel/src/exec.rs:137-190, 194-210). */
module Relocations {
  import opened Basics
  import opened LittleEndian
  import opened PageMemory
  import opened Executables
  import opened LoadPieces
  import opened ElfSegments

  /** The same pages, `k` pages further up. */
  ghost predicate MovedMemory(m: Memory, n: Memory, k: nat)
  {
    && (forall q: nat :: q in n <==> q >= k && q - k in m)
    && (forall q: nat :: q in n && q >= k && q - k in m ==> n[q] == m[q - k])
  }

  ghost predicate MovedRanges(a: seq<Range>, b: seq<Range>, d: nat)
  {
    |a| == |b| && forall i :: 0 <= i < |a| ==> b[i] == Range(a[i].start + d, a[i].end + d, a[i].prot)
  }

  ghost predicate MovedImage(a: Image, b: Image, k: nat)
  {
    MovedMemory(a.memory, b.memory, k) && a.frames == b.frames && MovedRanges(a.ranges, b.ranges, k * PAGE)
  }

  function MovedPiece(s: Piece, k: nat): Piece
  {
    s.(va := s.va + k * PAGE)
  }

  lemma PagesMoved(s: Piece, k: nat)
    ensures Lo(MovedPiece(s, k)) == Lo(s) + k && Hi(MovedPiece(s, k)) == Hi(s) + k
  {
  }

  /** A byte is found as many pages further up. */
  lemma AtMoved(m: Memory, n: Memory, k: nat, x: nat)
    requires MovedMemory(m, n, k)
    ensures At(n, x + k * PAGE) == At(m, x)
  {
    var q := (x + k * PAGE) / PAGE;
    assert q == x / PAGE + k && (x + k * PAGE) % PAGE == x % PAGE;
    assert q in n <==> q >= k && q - k in m;
  }

  lemma {:induction false} NewMoved(m: Memory, n: Memory, k: nat, lo: nat, hi: nat)
    requires MovedMemory(m, n, k)
    ensures New(n, lo + k, hi + k) == New(m, lo, hi)
  {
    if hi > lo {
      NewMoved(m, n, k, lo, hi - 1);
      assert hi - 1 + k in n <==> hi - 1 in m;
    }
  }

  lemma PageMoved(m: Memory, n: Memory, k: nat, s: Piece, p: nat)
    requires MovedMemory(m, n, k)
    ensures PageAfter(n, MovedPiece(s, k), p + k) == PageAfter(m, s, p)
  {
    hide At, Widened;
    var a, b := BytesAfter(m, s, p, PAGE), BytesAfter(n, MovedPiece(s, k), p + k, PAGE);
    forall i | 0 <= i < PAGE ensures a[i] == b[i] {
      assert (p + k) * PAGE + i == (p * PAGE + i) + k * PAGE;
      AtMoved(m, n, k, p * PAGE + i);
    }
    assert a == b;
    assert p + k in n <==> p in m;
  }

  lemma CopiedMoved(m: Memory, n: Memory, k: nat, s: Piece)
    requires MovedMemory(m, n, k)
    ensures MovedMemory(Copied(m, s), Copied(n, MovedPiece(s, k)), k)
  {
    hide Copied, PageAfter;
    PagesMoved(s, k);
    hide Lo, Hi, MovedPiece;
    var t := MovedPiece(s, k);
    var m', n' := Copied(m, s), Copied(n, t);
    forall q: nat ensures q in n' <==> q >= k && q - k in m' {
      CopiedPage(n, t, q);
      if q >= k { CopiedPage(m, s, q - k); }
    }
    forall q: nat | q in n' && q >= k && q - k in m' ensures n'[q] == m'[q - k] {
      CopiedPage(n, t, q);
      CopiedPage(m, s, q - k);
      PageMoved(m, n, k, s, q - k);
    }
  }

  lemma AddedMoved(a: Image, b: Image, k: nat, s: Piece)
    requires MovedImage(a, b, k)
    ensures Added(a, s).Some? <==> Added(b, MovedPiece(s, k)).Some?
    ensures Added(a, s).Some? ==> MovedImage(Added(a, s).value, Added(b, MovedPiece(s, k)).value, k)
  {
    hide Copied, New, MovedMemory;
    PagesMoved(s, k);
    hide Lo, Hi;
    NewMoved(a.memory, b.memory, k, Lo(s), Hi(s));
    CopiedMoved(a.memory, b.memory, k, s);
  }

  ghost predicate MovedPieces(ss: seq<Piece>, ts: seq<Piece>, k: nat)
  {
    |ss| == |ts| && forall i :: 0 <= i < |ss| ==> ts[i] == MovedPiece(ss[i], k)
  }

  /** Moved pieces load exactly when the originals do, and the image is moved as a whole. */
  lemma {:induction false} AddAllMoved(a: Image, b: Image, k: nat, ss: seq<Piece>, ts: seq<Piece>)
    requires MovedImage(a, b, k) && MovedPieces(ss, ts, k)
    ensures AddAll(a, ss).Some? <==> AddAll(b, ts).Some?
    ensures AddAll(a, ss).Some? ==> MovedImage(AddAll(a, ss).value, AddAll(b, ts).value, k)
    decreases |ss|
  {
    hide Added, MovedImage, MovedPiece;
    if ss != [] {
      AddedMoved(a, b, k, ss[0]);
      if Added(a, ss[0]).Some? {
        AddAllMoved(Added(a, ss[0]).value, Added(b, ts[0]).value, k, ss[1..], ts[1..]);
      }
    }
  }

  /** Nowhere in both, or further up by `d`. */
  predicate MovedAddress(x: nat, y: nat, d: nat)
  {
    if x == 0 then y == 0 else y == x + d
  }

  lemma {:induction false} LastPhdrMoved(x: nat, y: nat, ps: seq<Phdr>, base: nat, d: nat)
    requires base > 0 && MovedAddress(x, y, d)
    ensures MovedAddress(LastPhdr(x, ps, base), LastPhdr(y, ps, base + d), d)
    decreases |ps|
  {
    if ps != [] {
      var p := ps[0];
      LastPhdrMoved(if p.ptype == PT_PHDR then p.vaddr + base else x, if p.ptype == PT_PHDR then p.vaddr + (base + d) else y,
                    ps[1..], base, d);
    }
  }

  lemma PhdrVaMoved(ps: seq<Phdr>, phoff: nat, base: nat, d: nat)
    requires base > 0
    ensures MovedAddress(PhdrVa(LastPhdr(0, ps, base), FirstOf(None, Loads(ps), base), phoff),
                         PhdrVa(LastPhdr(0, ps, base + d), FirstOf(None, Loads(ps), base + d), phoff), d)
  {
    hide Loads;
    LastPhdrMoved(0, 0, ps, base, d);
  }

  /** A position-independent program, loaded at a base and at one `k` pages further up, both of which leave it within
      the user's addresses: it loads at both or at neither, and pages, ranges, entry and the address of its program
      headers are moved by exactly that distance. */
  lemma Relocated(file: Bytes, m: Arch, base: nat, k: nat, frames: nat, ps: seq<Phdr>)
    requires ElfHeader(file, m) && Phdrs(file, Phoff(file), PHENT, Phnum(file)) == Some(ps) && Etype(file) == 3 && base > 0
    requires AllFit(file, m, base, ps) && AllFit(file, m, base + k * PAGE, ps)
    ensures var a, b := ElfLoad(file, m, base, frames), ElfLoad(file, m, base + k * PAGE, frames);
            && (a.Ok? <==> b.Ok?)
            && (a.Ok? ==>
                && MovedImage(a.value.image, b.value.image, k) && b.value.entry == a.value.entry + k * PAGE
                && MovedAddress(a.value.phdr, b.value.phdr, k * PAGE)
                && b.value.phnum == a.value.phnum && b.value.interp == a.value.interp)
  {
    hide Loads, AllFit, AddAll, ElfLoad, Phdrs, PhdrVa, LastPhdr, FirstOf, LastInterp, Rd, ElfPieces, MovedMemory, MovedAddress;
    LoadSucceeds(file, m, base, frames, ps);
    LoadSucceeds(file, m, base + k * PAGE, frames, ps);
    PhdrVaMoved(ps, Phoff(file), base, k * PAGE);
    var im := Image(map[], frames, []);
    NothingMoved(im, k);
    PiecesMoved(file, Loads(ps), base, k);
    AddAllMoved(im, im, k, ElfPieces(file, Loads(ps), base), ElfPieces(file, Loads(ps), base + k * PAGE));
  }

  lemma NothingMoved(im: Image, k: nat)
    requires im.memory == map[] && im.ranges == []
    ensures MovedImage(im, im, k)
  {
  }

  lemma PiecesMoved(file: Bytes, ls: seq<Phdr>, base: nat, k: nat)
    requires Inside(file, ls)
    ensures MovedPieces(ElfPieces(file, ls, base), ElfPieces(file, ls, base + k * PAGE), k)
  {
  }
}
