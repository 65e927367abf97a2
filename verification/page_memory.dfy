/** A process image being built: pages filled by copy_into and the ranges to be registered (kernel/src/exec.rs:80-131). */
module PageMemory {
  import opened Basics
  import opened LittleEndian

  const PAGE: nat := 4096
  const MAX_RANGES: nat := 24

  type Frame = d: Bytes | |d| == PAGE witness seq(PAGE, _ => 0)

  function Zeros(): (r: Frame)
    ensures forall i :: 0 <= i < PAGE ==> r[i] == 0
  {
    seq(PAGE, _ => 0)
  }

  datatype Page = Page(prot: nat, data: Frame)

  /** The pages of an address space, by page number. */
  type Memory = map<nat, Page>

  /** Bytes for `memsz` addresses from `va` on; those past `data` are not given. */
  datatype Piece = Piece(va: nat, data: Bytes, prot: nat, memsz: nat)

  datatype Range = Range(start: nat, end: nat, prot: nat)

  /** What loading builds: pages, free frames left, ranges. */
  datatype Image = Image(memory: Memory, frames: nat, ranges: seq<Range>)

  function Lo(s: Piece): nat
  {
    s.va / PAGE
  }

  function Hi(s: Piece): nat
  {
    (s.va + s.memsz + PAGE - 1) / PAGE
  }

  /** The byte at an address; memory not mapped reads as zero. */
  function At(m: Memory, x: nat): byte
  {
    if x / PAGE in m then m[x / PAGE].data[x % PAGE] else 0
  }

  /** The byte at an address once the piece is there. */
  function Given(m: Memory, s: Piece, x: nat): byte
  {
    if s.va <= x < s.va + |s.data| then s.data[x - s.va] else At(m, x)
  }

  /** Protection of a page that two pieces share: the later piece's, and readable and writable. */
  function Widened(prot: nat): nat
  {
    prot / 4 * 4 + 3
  }

  /** The first `n` bytes of page `p` once the piece is there. */
  function BytesAfter(m: Memory, s: Piece, p: nat, n: nat): (r: Bytes)
    ensures |r| == n && forall i :: 0 <= i < n ==> r[i] == Given(m, s, p * PAGE + i)
  {
    if n == 0 then [] else BytesAfter(m, s, p, n - 1) + [Given(m, s, p * PAGE + n - 1)]
  }

  function PageAfter(m: Memory, s: Piece, p: nat): Page
  {
    Page(if p in m then Widened(s.prot) else s.prot, BytesAfter(m, s, p, PAGE))
  }

  function Pages(lo: nat, hi: nat): (r: set<nat>)
    ensures forall p :: p in r <==> lo <= p < hi
  {
    if hi <= lo then {} else Pages(lo, hi - 1) + {hi - 1}
  }

  /** Memory after the piece's pages below `hi` were filled. */
  function CopiedTo(m: Memory, s: Piece, hi: nat): Memory
  {
    map p | p in m.Keys + Pages(Lo(s), hi) :: if Lo(s) <= p < hi then PageAfter(m, s, p) else m[p]
  }

  function Copied(m: Memory, s: Piece): Memory
  {
    CopiedTo(m, s, Hi(s))
  }

  /** Pages in a range that are not there yet. */
  function New(m: Memory, lo: nat, hi: nat): nat
  {
    if hi <= lo then 0 else New(m, lo, hi - 1) + if hi - 1 in m then 0 else 1
  }

  lemma {:induction false} NewGrows(m: Memory, lo: nat, mid: nat, hi: nat)
    requires mid <= hi
    ensures New(m, lo, mid) <= New(m, lo, hi)
  {
    if mid < hi { NewGrows(m, lo, mid, hi - 1); }
  }

  lemma CopiedNone(m: Memory, s: Piece)
    ensures CopiedTo(m, s, Lo(s)) == m && New(m, Lo(s), Lo(s)) == 0 && Lo(s) <= Hi(s)
  {
  }

  lemma CopiedStep(m: Memory, s: Piece, p: nat)
    requires Lo(s) <= p
    ensures CopiedTo(m, s, p + 1) == CopiedTo(m, s, p)[p := PageAfter(m, s, p)]
    ensures p in CopiedTo(m, s, p) <==> p in m
    ensures p in m ==> CopiedTo(m, s, p)[p] == m[p]
  {
    hide PageAfter;
  }

  /** The bytes of a page with the part of the piece that falls into it. */
  function Filled(s: Piece, p: nat, data: Frame): (r: Frame)
  {
    var base := p * PAGE;
    var lo, hi := Max(base, s.va), Min(base + PAGE, s.va + |s.data|);
    if lo < hi then data[..lo - base] + s.data[lo - s.va..hi - s.va] + data[hi - base..] else data
  }

  lemma FilledAt(s: Piece, p: nat, data: Frame, i: nat)
    requires i < PAGE
    ensures Filled(s, p, data)[i] == if s.va <= p * PAGE + i < s.va + |s.data| then s.data[p * PAGE + i - s.va] else data[i]
  {
    var base := p * PAGE;
    var lo, hi := Max(base, s.va), Min(base + PAGE, s.va + |s.data|);
    if lo < hi {
      var a, src, b := data[..lo - base], s.data[lo - s.va..hi - s.va], data[hi - base..];
      assert |a| == lo - base && |a + src| == hi - base;
      assert (a + src + b)[i] == if i < |a| then a[i] else if i < |a + src| then src[i - |a|] else b[i - |a + src|];
    }
  }

  lemma PageFilled(m: Memory, s: Piece, p: nat)
    ensures PageAfter(m, s, p) ==
            if p in m then Page(Widened(s.prot), Filled(s, p, m[p].data)) else Page(s.prot, Filled(s, p, Zeros()))
  {
    hide Filled, Widened;
    var data := if p in m then m[p].data else Zeros();
    var filled := Filled(s, p, data);
    assert filled == BytesAfter(m, s, p, PAGE) by {
      forall i | 0 <= i < PAGE ensures filled[i] == Given(m, s, p * PAGE + i) {
        Split(p, i);
        FilledAt(s, p, data, i);
      }
    }
  }

  lemma Split(p: nat, i: nat)
    requires i < PAGE
    ensures (p * PAGE + i) / PAGE == p && (p * PAGE + i) % PAGE == i
  {
  }

  lemma NewNext(m: Memory, lo: nat, p: nat)
    requires lo <= p
    ensures New(m, lo, p + 1) == New(m, lo, p) + if p in m then 0 else 1
  {
  }

  /** copy_into (kernel/src/exec.rs:100-131): it fails exactly when frames run out. */
  method CopyInto(m: Memory, s: Piece, frames: nat) returns (ok: bool, m': Memory, left: nat)
    requires |s.data| <= s.memsz
    ensures ok <==> New(m, Lo(s), Hi(s)) <= frames
    ensures ok ==> m' == Copied(m, s) && left == frames - New(m, Lo(s), Hi(s))
  {
    hide CopiedTo, At, Widened, PageAfter, Filled, Zeros, New, Lo, Hi;
    m', left := m, frames;
    var page := Lo(s);
    CopiedNone(m, s);
    while page < Hi(s)
      invariant Lo(s) <= page <= Hi(s)
      invariant m' == CopiedTo(m, s, page)
      invariant New(m, Lo(s), page) <= frames && left == frames - New(m, Lo(s), page)
      decreases Hi(s) - page
    {
      NewNext(m, Lo(s), page);
      CopiedStep(m, s, page);
      NewGrows(m, Lo(s), page + 1, Hi(s));
      PageFilled(m, s, page);
      var data, prot := Zeros(), s.prot;
      if page in m' {
        data, prot := m'[page].data, Widened(s.prot);
      } else {
        if left == 0 { return false, m', left; }
        left := left - 1;
      }
      m' := m'[page := Page(prot, Filled(s, page, data))];
      page := page + 1;
    }
    return true, m', left;
  }

  function Max(a: int, b: int): int
  {
    if a < b then b else a
  }

  function Min(a: int, b: int): int
  {
    if a < b then a else b
  }
}
