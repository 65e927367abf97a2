/** Loading a list of pieces one after the other: what memory holds in the end, and what does not matter for it. */
module LoadPieces {
  import opened Basics
  import opened LittleEndian
  import opened PageMemory
  import opened Executables

  /** All the pieces added in turn. */
  function AddAll(im: Image, ss: seq<Piece>): Option<Image>
    decreases |ss|
  {
    if ss == [] then Some(im)
    else match Added(im, ss[0])
         case None => None
         case Some(next) => AddAll(next, ss[1..])
  }

  /** The piece's data and then zeros, and its protection on each of its pages. */
  ghost predicate Holds(m: Memory, s: Piece)
  {
    && (forall x: nat :: s.va <= x < s.va + s.memsz ==> At(m, x) == ByteOf(s, x))
    && (forall p: nat :: Lo(s) <= p < Hi(s) ==> p in m && m[p].prot == s.prot)
  }

  function ByteOf(s: Piece, x: nat): byte
    requires s.va <= x
  {
    if x < s.va + |s.data| then s.data[x - s.va] else 0
  }

  /** The pieces have no page in common. */
  predicate Apart(s: Piece, t: Piece)
  {
    Hi(s) <= Lo(t) || Hi(t) <= Lo(s)
  }

  ghost predicate AllApart(ss: seq<Piece>)
  {
    forall i, j :: 0 <= i < j < |ss| ==> Apart(ss[i], ss[j])
  }

  /** None of the piece's pages is there yet. */
  ghost predicate Fresh(keys: set<nat>, s: Piece)
  {
    forall p: nat :: Lo(s) <= p < Hi(s) ==> p !in keys
  }

  ghost predicate AllFresh(keys: set<nat>, ss: seq<Piece>)
  {
    forall i :: 0 <= i < |ss| ==> Fresh(keys, ss[i])
  }

  function KeysAfter(keys: set<nat>, s: Piece): set<nat>
  {
    keys + Pages(Lo(s), Hi(s))
  }

  lemma CopiedKeys(m: Memory, s: Piece)
    ensures Copied(m, s).Keys == KeysAfter(m.Keys, s)
  {
    hide PageAfter;
  }

  /** A page of the piece, or one that is not. */
  lemma CopiedPage(m: Memory, s: Piece, p: nat)
    ensures Lo(s) <= p < Hi(s) ==> p in Copied(m, s) && Copied(m, s)[p] == PageAfter(m, s, p)
    ensures !(Lo(s) <= p < Hi(s)) ==> (p in Copied(m, s) <==> p in m) && (p in m ==> Copied(m, s)[p] == m[p])
  {
    hide PageAfter, Lo, Hi;
  }

  /** On any memory: the piece's bytes are at their addresses, and every other byte of its pages is what it was, or zero
      on a new page. */
  lemma CopiedBytes(m: Memory, s: Piece, x: nat)
    requires |s.data| <= s.memsz
    ensures At(Copied(m, s), x) == if s.va <= x < s.va + |s.data| then s.data[x - s.va] else At(m, x)
  {
    hide Copied, Lo, Hi, PageAfter;
    CopiedPage(m, s, x / PAGE);
    if Lo(s) <= x / PAGE < Hi(s) { CopiedByte(m, s, x); }
    if s.va <= x < s.va + |s.data| { Addresses(s, x); }
  }

  /** A new page gets the piece's protection; a page that two pieces share is readable and writable, and executable if
      the later one is. */
  lemma CopiedProt(m: Memory, s: Piece, p: nat)
    requires Lo(s) <= p < Hi(s)
    ensures p in Copied(m, s)
    ensures var prot := Copied(m, s)[p].prot;
            if p !in m then prot == s.prot
            else prot % 2 == 1 && prot / 2 % 2 == 1 && prot / 4 == s.prot / 4
  {
    CopiedPage(m, s, p);
    hide Lo, Hi, Copied, BytesAfter, Widened;
    WidenedBits(s.prot);
  }

  lemma WidenedBits(prot: nat)
    ensures Widened(prot) % 2 == 1 && Widened(prot) / 2 % 2 == 1 && Widened(prot) / 4 == prot / 4
  {
  }

  /** The pages of a range that are not there. */
  function Missing(m: Memory, lo: nat, hi: nat): (r: set<nat>)
    ensures forall p :: p in r <==> lo <= p < hi && p !in m
  {
    if hi <= lo then {} else if hi - 1 in m then Missing(m, lo, hi - 1) else Missing(m, lo, hi - 1) + {hi - 1}
  }

  /** The frames a piece needs are those of its pages that are not there. */
  lemma {:induction false} NewCounts(m: Memory, lo: nat, hi: nat)
    ensures New(m, lo, hi) == |Missing(m, lo, hi)|
    decreases hi
  {
    if hi > lo {
      NewCounts(m, lo, hi - 1);
      assert hi - 1 !in Missing(m, lo, hi - 1);
    }
  }

  /** The smallest range of whole pages around the piece. */
  predicate Around(r: Range, s: Piece)
  {
    && r.start % PAGE == 0 && r.end % PAGE == 0 && r.prot == s.prot
    && r.start <= s.va < r.start + PAGE && s.va + s.memsz <= r.end < s.va + s.memsz + PAGE
  }

  /** The ranges of the first 24 pieces are recorded, in order. */
  lemma {:induction false} AddAllRanges(im: Image, ss: seq<Piece>)
    requires AddAll(im, ss).Some? && |im.ranges| <= MAX_RANGES
    ensures var r := AddAll(im, ss).value.ranges; var n := |im.ranges|;
            && |r| == Min(n + |ss|, MAX_RANGES) && r[..n] == im.ranges
            && forall i :: 0 <= i < |ss| && n + i < MAX_RANGES ==> Around(r[n + i], ss[i])
    decreases |ss|
  {
    hide Copied, New, Around;
    if ss != [] {
      var next := Added(im, ss[0]).value;
      AddAllRanges(next, ss[1..]);
      var r, n := AddAll(im, ss).value.ranges, |im.ranges|;
      if n < MAX_RANGES {
        PushedAround(im.ranges, ss[0]);
        assert r[..n + 1][..n] == im.ranges && r[..n + 1][n] == next.ranges[n];
        forall i | 0 <= i < |ss| && n + i < MAX_RANGES ensures Around(r[n + i], ss[i]) {
          if i > 0 { assert Around(r[n + 1 + (i - 1)], ss[1..][i - 1]); }
        }
      }
    }
  }

  lemma PushedAround(ranges: seq<Range>, s: Piece)
    requires |ranges| < MAX_RANGES
    ensures |Pushed(ranges, s)| == |ranges| + 1 && Pushed(ranges, s)[..|ranges|] == ranges && Around(Pushed(ranges, s)[|ranges|], s)
  {
  }

  lemma Addresses(s: Piece, x: nat)
    requires s.va <= x < s.va + s.memsz
    ensures Lo(s) <= x / PAGE < Hi(s)
  {
  }

  /** A piece on new pages holds afterwards. */
  lemma CopiedHolds(m: Memory, s: Piece)
    requires Fresh(m.Keys, s) && |s.data| <= s.memsz
    ensures Holds(Copied(m, s), s)
  {
    hide Copied, Lo, Hi;
    var m' := Copied(m, s);
    forall p: nat | Lo(s) <= p < Hi(s) ensures p in m' && m'[p].prot == s.prot { CopiedPage(m, s, p); }
    forall x: nat | s.va <= x < s.va + s.memsz ensures At(m', x) == ByteOf(s, x) {
      Addresses(s, x);
      CopiedPage(m, s, x / PAGE);
      CopiedByte(m, s, x);
    }
  }

  lemma CopiedByte(m: Memory, s: Piece, x: nat)
    ensures PageAfter(m, s, x / PAGE).data[x % PAGE] == Given(m, s, x)
  {
    assert x / PAGE * PAGE + x % PAGE == x;
  }

  /** A piece that held keeps holding while others come on other pages. */
  lemma HoldsOn(m: Memory, s: Piece, t: Piece)
    requires Holds(m, t) && Apart(s, t)
    ensures Holds(Copied(m, s), t)
  {
    hide Copied, Lo, Hi;
    var m' := Copied(m, s);
    forall p: nat | Lo(t) <= p < Hi(t) ensures p in m' && m'[p].prot == t.prot { CopiedPage(m, s, p); }
    forall x: nat | t.va <= x < t.va + t.memsz ensures At(m', x) == ByteOf(t, x) {
      Addresses(t, x);
      CopiedPage(m, s, x / PAGE);
    }
  }

  lemma FreshAfter(keys: set<nat>, s: Piece, t: Piece)
    requires Fresh(keys, t) && Apart(s, t)
    ensures Fresh(KeysAfter(keys, s), t)
  {
  }

  lemma AllFreshAfter(keys: set<nat>, ss: seq<Piece>)
    requires ss != [] && AllFresh(keys, ss) && AllApart(ss)
    ensures AllFresh(KeysAfter(keys, ss[0]), ss[1..]) && AllApart(ss[1..])
  {
    hide Fresh, Apart, KeysAfter;
    forall i | 0 <= i < |ss[1..]| ensures Fresh(KeysAfter(keys, ss[0]), ss[1..][i]) {
      assert Apart(ss[0], ss[i + 1]);
      FreshAfter(keys, ss[0], ss[i + 1]);
    }
  }

  /** Every piece holds at the end, and the pages that were there stay as they were. */
  lemma {:induction false} AddAllHolds(im: Image, ss: seq<Piece>)
    requires AddAll(im, ss).Some? && AllFresh(im.memory.Keys, ss) && AllApart(ss)
    requires forall i :: 0 <= i < |ss| ==> |ss[i].data| <= ss[i].memsz
    ensures forall i :: 0 <= i < |ss| ==> Holds(AddAll(im, ss).value.memory, ss[i])
    ensures forall t: Piece :: Holds(im.memory, t) && (forall i :: 0 <= i < |ss| ==> Apart(ss[i], t)) ==>
                                 Holds(AddAll(im, ss).value.memory, t)
    decreases |ss|
  {
    hide Holds, Apart, Fresh, Copied;
    if ss != [] {
      var s, rest := ss[0], ss[1..];
      var next := Added(im, s).value;
      AllFreshAfter(im.memory.Keys, ss);
      CopiedKeys(im.memory, s);
      AddAllHolds(next, rest);
      CopiedHolds(im.memory, s);
      forall i | 0 <= i < |rest| ensures Apart(rest[i], s) { ApartFlips(ss, i + 1); }
      forall t: Piece | Holds(im.memory, t) && (forall i :: 0 <= i < |ss| ==> Apart(ss[i], t))
        ensures Holds(AddAll(im, ss).value.memory, t)
      {
        HoldsOn(im.memory, s, t);
        assert forall i :: 0 <= i < |rest| ==> rest[i] == ss[i + 1];
      }
      forall i | 0 <= i < |ss| ensures Holds(AddAll(im, ss).value.memory, ss[i]) {
        if i > 0 { assert ss[i] == rest[i - 1]; }
      }
    }
  }

  lemma ApartFlips(ss: seq<Piece>, i: nat)
    requires AllApart(ss) && 0 < i < |ss|
    ensures Apart(ss[i], ss[0])
  {
    assert Apart(ss[0], ss[i]);
  }

  // ---------------------------------------------------------------- pieces moved back to their page

  /** `t` is `s` started at the beginning of its page, with some bytes before its own. */
  predicate Twin(s: Piece, t: Piece)
  {
    && t.va == s.va / PAGE * PAGE && t.memsz == s.memsz + s.va % PAGE && t.prot == s.prot
    && |t.data| == |s.data| + s.va % PAGE && t.data[s.va % PAGE..] == s.data
  }

  ghost predicate Twins(ss: seq<Piece>, ts: seq<Piece>)
  {
    |ss| == |ts| && forall i :: 0 <= i < |ss| ==> Twin(ss[i], ts[i])
  }

  lemma TwinPages(s: Piece, t: Piece)
    requires Twin(s, t)
    ensures Lo(t) == Lo(s) && Hi(t) == Hi(s)
  {
    assert t.va + t.memsz == s.va + s.memsz;
  }

  /** What holds for the twin holds for the piece. */
  lemma TwinHolds(m: Memory, s: Piece, t: Piece)
    requires Twin(s, t) && Holds(m, t)
    ensures Holds(m, s)
  {
    TwinPages(s, t);
    hide Lo, Hi;
    forall x: nat | s.va <= x < s.va + s.memsz ensures At(m, x) == ByteOf(s, x) {
      var d := s.va % PAGE;
      assert t.va + d == s.va;
      assert At(m, x) == ByteOf(t, x);
      if x < s.va + |s.data| { assert s.data[x - s.va] == t.data[d..][x - s.va]; }
    }
  }

  lemma NewSame(m: Memory, n: Memory, lo: nat, hi: nat)
    requires m.Keys == n.Keys
    ensures New(m, lo, hi) == New(n, lo, hi)
  {
    if hi > lo {
      NewSame(m, n, lo, hi - 1);
      assert hi - 1 in m <==> hi - 1 in m.Keys;
      assert hi - 1 in n <==> hi - 1 in n.Keys;
    }
  }

  /** Images of the same pages, frames and ranges. */
  ghost predicate SameShape(a: Image, b: Image)
  {
    a.memory.Keys == b.memory.Keys && a.frames == b.frames && a.ranges == b.ranges
  }

  lemma AddedTwins(a: Image, b: Image, s: Piece, t: Piece)
    requires SameShape(a, b) && Twin(s, t)
    ensures Added(a, s).Some? <==> Added(b, t).Some?
    ensures Added(a, s).Some? ==> SameShape(Added(a, s).value, Added(b, t).value)
  {
    TwinPages(s, t);
    hide Lo, Hi, Copied;
    NewSame(a.memory, b.memory, Lo(s), Hi(s));
    CopiedKeys(a.memory, s);
    CopiedKeys(b.memory, t);
  }

  /** Pieces and their twins can be loaded in the same images, onto the same pages and with the same ranges. */
  lemma {:induction false} AddAllTwins(a: Image, b: Image, ss: seq<Piece>, ts: seq<Piece>)
    requires SameShape(a, b) && Twins(ss, ts)
    ensures AddAll(a, ss).Some? <==> AddAll(b, ts).Some?
    ensures AddAll(a, ss).Some? ==> SameShape(AddAll(a, ss).value, AddAll(b, ts).value)
    decreases |ss|
  {
    hide Added, SameShape, Twin;
    if ss != [] {
      AddedTwins(a, b, ss[0], ts[0]);
      if Added(a, ss[0]).Some? {
        assert Twins(ss[1..], ts[1..]) by {
          assert forall i :: 0 <= i < |ss[1..]| ==> ss[1..][i] == ss[i + 1] && ts[1..][i] == ts[i + 1];
        }
        AddAllTwins(Added(a, ss[0]).value, Added(b, ts[0]).value, ss[1..], ts[1..]);
      }
    }
  }
}
