/** Loading the converted file means what loading the ELF file means. */
module PulseConversion {
  import opened Basics
  import opened LittleEndian
  import opened PageMemory
  import opened Executables
  import opened LoadPieces
  import opened ElfSegments

  function OutSegs(ls: seq<Phdr>): (r: seq<OutSeg>)
    ensures |r| == |ls| && forall i :: 0 <= i < |ls| ==> r[i] == Aligned(ls[i])
  {
    if ls == [] then [] else [Aligned(ls[0])] + OutSegs(ls[1..])
  }

  /** The segment as the converted file gives it. */
  function OutPiece(data: Bytes, g: OutSeg): Piece
  {
    Piece(g.va, Blob(data, g), g.flags % 8, g.msz)
  }

  function OutPieces(data: Bytes, segs: seq<OutSeg>): (r: seq<Piece>)
    ensures |r| == |segs| && forall i :: 0 <= i < |segs| ==> r[i] == OutPiece(data, segs[i])
  {
    if segs == [] then [] else [OutPiece(data, segs[0])] + OutPieces(data, segs[1..])
  }

  /** A segment in bounds whose place in the file and address agree within the page (as the ELF gABI demands). */
  predicate Congruent(file: Bytes, m: Arch, p: Phdr)
  {
    InBounds(file, m, p, 0) && p.offset % PAGE == p.vaddr % PAGE
  }

  ghost predicate AllCongruent(file: Bytes, m: Arch, ls: seq<Phdr>)
  {
    forall i :: 0 <= i < |ls| ==> Congruent(file, m, ls[i])
  }

  predicate Static(ps: seq<Phdr>)
  {
    forall i :: 0 <= i < |ps| ==> ps[i].ptype != PT_INTERP
  }

  // ---------------------------------------------------------------- both header loops

  lemma {:induction false} GatherLoads(g: Gathered, ps: seq<Phdr>)
    requires Static(ps)
    ensures Gather(g, ps) ==
            Some(Gathered(g.segs + OutSegs(Loads(ps)), LastPhdr(g.phdr, ps, 0), FirstOf(g.first, Loads(ps), 0)))
    decreases |ps|
  {
    hide Aligned, OutSegs, FirstOf, Loads;
    LoadsHead(ps);
    if ps == [] {
      assert g.segs + [] == g.segs;
      GatherNothing(g);
    } else {
      var next := GatherStep(g, ps[0]).value;
      GatherLoads(next, ps[1..]);
      if Loadable(ps[0]) {
        var rest := Loads(ps[1..]);
        OutSegsHead(ps[0], rest);
        FirstHead(g.first, ps[0], rest, 0);
        assert g.segs + [Aligned(ps[0])] + OutSegs(rest) == g.segs + ([Aligned(ps[0])] + OutSegs(rest));
      }
    }
  }

  lemma GatherNothing(g: Gathered)
    ensures OutSegs([]) == [] && FirstOf(g.first, [], 0) == g.first
  {
  }

  lemma OutSegsHead(p: Phdr, rest: seq<Phdr>)
    ensures OutSegs([p] + rest) == [Aligned(p)] + OutSegs(rest)
  {
    assert ([p] + rest)[1..] == rest;
  }

  // ---------------------------------------------------------------- one segment

  /** The bytes written for a segment are those from the start of its page on. */
  lemma SegTwin(file: Bytes, m: Arch, p: Phdr)
    requires Congruent(file, m, p)
    ensures p.offset + p.filesz <= |file|
    ensures Twin(ElfPiece(file, p, 0), OutPiece(file, Aligned(p)))
    ensures var g := Aligned(p);
            |Blob(file, g)| == g.fsz <= g.msz && UserLo(m) <= g.va && g.va + g.msz <= USER_HI && g.flags < 8
  {
    hide Prot;
    var d := p.vaddr % PAGE;
    assert d <= p.offset;
    assert SliceAt(|file|, p.offset - d) == p.offset - d && SliceAt(|file|, p.offset + p.filesz) == p.offset + p.filesz;
    var blob := Blob(file, Aligned(p));
    assert blob == file[p.offset - d..p.offset + p.filesz];
    assert blob[d..] == file[p.offset..p.offset + p.filesz];
    LoAligned(m, p.vaddr);
  }

  lemma LoAligned(m: Arch, va: nat)
    requires UserLo(m) <= va
    ensures UserLo(m) <= va - va % PAGE
  {
  }

  // ---------------------------------------------------------------- room for positions and sizes

  function Total(segs: seq<OutSeg>): nat
  {
    if segs == [] then 0 else segs[0].fsz + Total(segs[1..])
  }

  /** All pages of the pieces. */
  function AllPages(ss: seq<Piece>): set<nat>
  {
    if ss == [] then {} else Pages(Lo(ss[0]), Hi(ss[0])) + AllPages(ss[1..])
  }

  lemma {:induction false} PagesCount(lo: nat, hi: nat)
    requires lo <= hi
    ensures |Pages(lo, hi)| == hi - lo
  {
    if lo < hi {
      PagesCount(lo, hi - 1);
      assert hi - 1 !in Pages(lo, hi - 1);
    }
  }

  lemma {:induction false} AllPagesIn(ss: seq<Piece>, p: nat)
    requires p in AllPages(ss)
    ensures exists i :: 0 <= i < |ss| && Lo(ss[i]) <= p < Hi(ss[i])
  {
    if p in Pages(Lo(ss[0]), Hi(ss[0])) {
      assert Lo(ss[0]) <= p < Hi(ss[0]);
    } else {
      AllPagesIn(ss[1..], p);
      var i :| 0 <= i < |ss[1..]| && Lo(ss[1..][i]) <= p < Hi(ss[1..][i]);
      assert ss[1..][i] == ss[i + 1];
    }
  }

  /** Pieces that share no page and lie in the user range have no more bytes than the range. */
  lemma {:induction false} TotalPages(ss: seq<Piece>, segs: seq<OutSeg>)
    requires |ss| == |segs| && AllApart(ss) && forall i :: 0 <= i < |ss| ==> segs[i].fsz <= (Hi(ss[i]) - Lo(ss[i])) * PAGE
    requires forall i :: 0 <= i < |ss| ==> Lo(ss[i]) <= Hi(ss[i])
    ensures Total(segs) <= |AllPages(ss)| * PAGE
  {
    hide Lo, Hi;
    if ss != [] {
      var rest := ss[1..];
      assert forall i :: 0 <= i < |rest| ==> rest[i] == ss[i + 1] && segs[1..][i] == segs[i + 1];
      assert AllApart(rest);
      TotalPages(rest, segs[1..]);
      var here := Pages(Lo(ss[0]), Hi(ss[0]));
      PagesCount(Lo(ss[0]), Hi(ss[0]));
      forall p | p in AllPages(rest) ensures p !in here {
        AllPagesIn(rest, p);
        var i :| 0 <= i < |rest| && Lo(rest[i]) <= p < Hi(rest[i]);
        assert Apart(ss[0], ss[i + 1]);
      }
      assert here !! AllPages(rest);
      assert |here + AllPages(rest)| == |here| + |AllPages(rest)|;
    }
  }

  lemma TotalBound(ss: seq<Piece>, segs: seq<OutSeg>)
    requires |ss| == |segs| && AllApart(ss) && forall i :: 0 <= i < |ss| ==> segs[i].fsz <= (Hi(ss[i]) - Lo(ss[i])) * PAGE
    requires forall i :: 0 <= i < |ss| ==> Lo(ss[i]) <= Hi(ss[i]) <= USER_HI / PAGE
    ensures Total(segs) <= USER_HI
  {
    hide Lo, Hi;
    TotalPages(ss, segs);
    var all := Pages(0, USER_HI / PAGE);
    forall p | p in AllPages(ss) ensures p in all { AllPagesIn(ss, p); }
    PagesCount(0, USER_HI / PAGE);
    Subset(AllPages(ss), all);
  }

  lemma Subset(a: set<nat>, b: set<nat>)
    requires a <= b
    ensures |a| <= |b|
  {
    assert b == a + (b - a);
  }

  // ---------------------------------------------------------------- reading the converted file

  /** The segment's bytes are in the file and its fields are small. */
  ghost predicate Fine(data: Bytes, m: Arch, g: OutSeg)
  {
    |Blob(data, g)| == g.fsz <= g.msz && UserLo(m) <= g.va && g.va + g.msz <= USER_HI && g.flags < 8
  }

  ghost predicate AllFine(data: Bytes, m: Arch, segs: seq<OutSeg>)
  {
    forall i :: 0 <= i < |segs| ==> Fine(data, m, segs[i])
  }

  /** A table entry is read back. */
  lemma SegRead(out: Bytes, o: nat, pos: nat, g: OutSeg)
    requires o + PULSE_SEG <= |out| && out[o..o + PULSE_SEG] == PackSeg(pos, g) && Packs(pos, g)
    ensures SegAt(out, o) == PulseSeg(pos, g.fsz, g.va, g.msz, g.flags)
  {
    hide Rd, Le, Pow;
    Widths();
    var w := PackSeg(pos, g);
    assert w[0..4] == Le(pos, 4) && w[4..8] == Le(g.fsz, 4) && w[8..16] == Le(g.va, 8);
    assert w[16..20] == Le(g.msz, 4) && w[20..24] == Le(g.flags, 4);
    Field(out, o, w, 0, pos, 4);
    Field(out, o, w, 4, g.fsz, 4);
    Field(out, o, w, 8, g.va, 8);
    Field(out, o, w, 16, g.msz, 4);
    Field(out, o, w, 20, g.flags, 4);
  }

  lemma {:induction false} TableSize(data: Bytes, segs: seq<OutSeg>, pos: nat)
    requires Table(data, segs, pos).Some?
    ensures |Table(data, segs, pos).value| == PULSE_SEG * |segs|
    decreases |segs|
  {
    if segs != [] { TableSize(data, segs[1..], pos + |Blob(data, segs[0])|); }
  }

  /** The table can be written when the bytes end below 4 GiB. */
  lemma {:induction false} TableThere(data: Bytes, m: Arch, segs: seq<OutSeg>, pos: nat)
    requires AllFine(data, m, segs) && pos + Total(segs) < 0x1_0000_0000
    ensures Table(data, segs, pos).Some? && |Blobs(data, segs)| == Total(segs)
    decreases |segs|
  {
    hide Blob;
    if segs != [] {
      assert Fine(data, m, segs[0]);
      assert AllFine(data, m, segs[1..]) by { AllFineRest(data, m, segs); }
      TableThere(data, m, segs[1..], pos + |Blob(data, segs[0])|);
    }
  }

  lemma AllFineRest(data: Bytes, m: Arch, segs: seq<OutSeg>)
    requires segs != [] && AllFine(data, m, segs)
    ensures AllFine(data, m, segs[1..])
  {
    hide Fine;
    assert forall i :: 0 <= i < |segs[1..]| ==> segs[1..][i] == segs[i + 1];
  }

  /** Reading the table and the bytes loads the segments that were written. */
  lemma {:induction false} ScanTable(out: Bytes, data: Bytes, m: Arch, im: Image, segs: seq<OutSeg>, pos: nat, o: nat)
    requires AllFine(data, m, segs) && Table(data, segs, pos).Some? && pos + |Blobs(data, segs)| <= |out|
    requires o + PULSE_SEG * |segs| <= |out| && out[o..o + PULSE_SEG * |segs|] == Table(data, segs, pos).value
    requires out[pos..pos + |Blobs(data, segs)|] == Blobs(data, segs)
    ensures PulseScan(out, m, im, o, |segs|) == AddAll(im, OutPieces(data, segs))
    decreases |segs|
  {
    hide Added, Blob, PackSeg, SegAt, Packs, OutPieces;
    if segs == [] {
      OutPiecesNone(data);
    } else {
      var g, rest := segs[0], segs[1..];
      var blob := Blob(data, g);
      var w, t := PackSeg(pos, g), Table(data, rest, pos + |blob|).value;
      assert Fine(data, m, g);
      AllFineRest(data, m, segs);
      TableSize(data, rest, pos + |blob|);
      PartsAt(out, o, w, t);
      PartsAt(out, pos, blob, Blobs(data, rest));
      SegRead(out, o, pos, g);
      OutPiecesHead(data, segs);
      assert PulseInBounds(out, m, SegAt(out, o)) && PulsePiece(out, SegAt(out, o)) == OutPiece(data, g);
      var next := Added(im, OutPiece(data, g));
      if next.Some? { ScanTable(out, data, m, next.value, rest, pos + |blob|, o + PULSE_SEG); }
    }
  }

  lemma OutPiecesNone(data: Bytes)
    ensures OutPieces(data, []) == []
  {
  }

  lemma OutPiecesHead(data: Bytes, segs: seq<OutSeg>)
    requires segs != []
    ensures OutPieces(data, segs) != [] && OutPieces(data, segs)[0] == OutPiece(data, segs[0])
    ensures OutPieces(data, segs)[1..] == OutPieces(data, segs[1..])
  {
  }

  /** Two runs of bytes, one after the other. */
  lemma PartsAt(out: Bytes, o: nat, a: Bytes, b: Bytes)
    requires o + |a + b| <= |out| && out[o..o + |a + b|] == a + b
    ensures out[o..o + |a|] == a && out[o + |a|..o + |a| + |b|] == b
  {
    assert out[o..o + |a|] == out[o..o + |a + b|][..|a|];
    assert out[o + |a|..o + |a| + |b|] == out[o..o + |a + b|][|a|..];
  }

  /** The fixed fields and the numbers of the header are read back. */
  lemma HeaderFront(out: Bytes, count: nat, entry: nat, arch: nat, phdr: nat, phnum: nat)
    requires |out| >= PULSE_HEADER && out[..PULSE_HEADER] == PackHeader(count, entry, arch, phdr, phnum)
    requires count < 0x1_0000 && entry < 0x1_0000_0000_0000_0000
    ensures Rd(out, 0, 4) == PULSE_MAGIC && Rd(out, 4, 2) == 3 && Rd(out, 6, 2) == count && Rd(out, 8, 8) == entry
    ensures Rd(out, 16, 4) == PULSE_HEADER
  {
    hide Rd, Le, Pow;
    Widths();
    var w := PackHeader(count, entry, arch, phdr, phnum);
    assert out[0..0 + |w|] == w;
    assert w[0..4] == Le(PULSE_MAGIC, 4) && w[4..6] == Le(3, 2) && w[6..8] == Le(count, 2) && w[8..16] == Le(entry, 8);
    assert w[16..20] == Le(PULSE_HEADER, 4);
    Field(out, 0, w, 0, PULSE_MAGIC, 4);
    Field(out, 0, w, 4, 3, 2);
    Field(out, 0, w, 6, count, 2);
    Field(out, 0, w, 8, entry, 8);
    Field(out, 0, w, 16, PULSE_HEADER, 4);
  }

  lemma HeaderBack(out: Bytes, count: nat, entry: nat, arch: nat, phdr: nat, phnum: nat)
    requires |out| >= PULSE_HEADER && out[..PULSE_HEADER] == PackHeader(count, entry, arch, phdr, phnum)
    requires arch < 0x1_0000_0000 && phdr < 0x1_0000_0000_0000_0000 && phnum < 0x1_0000
    ensures Rd(out, 20, 4) == arch && Rd(out, 24, 8) == 0
    ensures Rd(out, 32, 8) == phdr && Rd(out, 40, 2) == phnum && Rd(out, 42, 2) == ABI_LINUX
  {
    hide Rd, Le, Pow;
    Widths();
    var w := PackHeader(count, entry, arch, phdr, phnum);
    assert out[0..0 + |w|] == w;
    assert w[20..24] == Le(arch, 4) && w[24..32] == Le(0, 8);
    assert w[32..40] == Le(phdr, 8) && w[40..42] == Le(phnum, 2) && w[42..44] == Le(ABI_LINUX, 2);
    Field(out, 0, w, 20, arch, 4);
    Field(out, 0, w, 24, 0, 8);
    Field(out, 0, w, 32, phdr, 8);
    Field(out, 0, w, 40, phnum, 2);
    Field(out, 0, w, 42, ABI_LINUX, 2);
  }

  // ---------------------------------------------------------------- the two files mean the same

  /** A fixed-address program for this machine, without an interpreter, whose loaded segments are congruent and share no page. */
  ghost predicate Regular(file: Bytes, m: Arch, ps: seq<Phdr>)
  {
    && |file| <= MAX_IMAGE && ElfHeader(file, m) && Etype(file) == 2
    && Phdrs(file, Phoff(file), PHENT, Phnum(file)) == Some(ps)
    && Static(ps) && Loads(ps) != [] && AllCongruent(file, m, Loads(ps)) && NoSharedPage(Loads(ps), 0)
  }

  /** The segments of a regular program, on both sides. */
  lemma Sides(file: Bytes, m: Arch, ls: seq<Phdr>)
    requires AllCongruent(file, m, ls) && NoSharedPage(ls, 0)
    ensures forall i :: 0 <= i < |ls| ==> ls[i].offset + ls[i].filesz <= |file|
    ensures Twins(ElfPieces(file, ls, 0), OutPieces(file, OutSegs(ls)))
    ensures AllFine(file, m, OutSegs(ls)) && Total(OutSegs(ls)) <= USER_HI
    ensures AllApart(ElfPieces(file, ls, 0)) && AllApart(OutPieces(file, OutSegs(ls)))
  {
    hide Twin, Aligned, OutPiece, ElfPiece, Congruent, Apart, Fine;
    forall i | 0 <= i < |ls| ensures ls[i].offset + ls[i].filesz <= |file| {
      assert Congruent(file, m, ls[i]);
      SegTwin(file, m, ls[i]);
    }
    var ss, segs := ElfPieces(file, ls, 0), OutSegs(ls);
    var ts := OutPieces(file, segs);
    forall i | 0 <= i < |ls|
      ensures Twin(ss[i], ts[i]) && Fine(file, m, segs[i]) && Lo(ts[i]) == Lo(ss[i]) == PageLo(ls[i], 0)
      ensures Hi(ts[i]) == Hi(ss[i]) == PageHi(ls[i], 0) && segs[i].fsz <= (Hi(ss[i]) - Lo(ss[i])) * PAGE
      ensures Lo(ss[i]) <= Hi(ss[i]) <= USER_HI / PAGE
    {
      assert Congruent(file, m, ls[i]);
      SegTwin(file, m, ls[i]);
      SegPages(file, m, ls[i]);
      TwinPages(ss[i], ts[i]);
    }
    forall i, j | 0 <= i < j < |ls| ensures Apart(ss[i], ss[j]) && Apart(ts[i], ts[j]) {
      ApartBy(ss[i], ss[j], ls[i], ls[j]);
      ApartBy(ts[i], ts[j], ls[i], ls[j]);
    }
    TotalBound(ss, segs);
  }

  lemma ApartBy(s: Piece, t: Piece, p: Phdr, q: Phdr)
    requires Lo(s) == PageLo(p, 0) && Hi(s) == PageHi(p, 0) && Lo(t) == PageLo(q, 0) && Hi(t) == PageHi(q, 0)
    requires PageHi(p, 0) <= PageLo(q, 0) || PageHi(q, 0) <= PageLo(p, 0)
    ensures Apart(s, t)
  {
  }

  lemma SegPages(file: Bytes, m: Arch, p: Phdr)
    requires Congruent(file, m, p)
    ensures p.offset + p.filesz <= |file|
    ensures var s := ElfPiece(file, p, 0);
            Lo(s) == PageLo(p, 0) && Hi(s) == PageHi(p, 0) && Lo(s) <= Hi(s) <= USER_HI / PAGE
            && Aligned(p).fsz <= (Hi(s) - Lo(s)) * PAGE
    ensures Fine(file, m, Aligned(p))
  {
    SegTwin(file, m, p);
    hide Blob, Prot;
    assert p.vaddr + p.memsz <= PageHi(p, 0) * PAGE;
  }

  /** The AT_PHDR address of a static program. */
  function ProgramPhdr(file: Bytes, ps: seq<Phdr>): nat
    requires |file| >= EHDR
  {
    PhdrVa(LastPhdr(0, ps, 0), FirstOf(None, Loads(ps), 0), Phoff(file))
  }

  function Program(file: Bytes, ps: seq<Phdr>, im: Image): Loaded
    requires |file| >= EHDR
  {
    Loaded(Entry(file), ProgramPhdr(file, ps), Phnum(file), None, im)
  }

  lemma ElfSide(file: Bytes, m: Arch, dynBase: nat, ps: seq<Phdr>, frames: nat)
    requires Regular(file, m, ps)
    ensures forall i :: 0 <= i < |Loads(ps)| ==> Loads(ps)[i].offset + Loads(ps)[i].filesz <= |file|
    ensures var im := AddAll(Image(map[], frames, []), ElfPieces(file, Loads(ps), 0));
            ElfLoad(file, m, dynBase, frames) == if im == None then Err(NoSpace) else Ok(Program(file, ps, im.value))
  {
    hide Loads, AllCongruent, NoSharedPage, AddAll, ElfScan, Phdrs, PhdrVa, LastPhdr, FirstOf, Rd, Static, AllFit;
    Sides(file, m, Loads(ps));
    StaticFits(file, m, ps);
    LoadsFit(file, m, 0, ps);
    ElfScanLoads(file, m, 0, Start(frames), ps);
    NoInterp(ps);
  }

  lemma StaticFits(file: Bytes, m: Arch, ps: seq<Phdr>)
    requires Static(ps) && AllCongruent(file, m, Loads(ps))
    ensures AllFit(file, m, 0, ps)
  {
    hide Loads;
    LoadsIn(ps);
    forall i | 0 <= i < |ps| ensures Fits(file, m, 0, ps[i]) {
      if Loadable(ps[i]) {
        var j :| 0 <= j < |Loads(ps)| && Loads(ps)[j] == ps[i];
        assert Congruent(file, m, Loads(ps)[j]);
      }
    }
  }

  lemma {:induction false} NoInterp(ps: seq<Phdr>)
    requires Static(ps)
    ensures LastInterp(None, ps) == None
  {
    if ps != [] { NoInterp(ps[1..]); }
  }

  /** The headers' numbers are small and there are few. */
  lemma {:induction false} PhdrsSmall(file: Bytes, o: nat, n: nat)
    requires Phdrs(file, o, PHENT, n).Some?
    ensures |Phdrs(file, o, PHENT, n).value| == n
    ensures forall i :: 0 <= i < n ==> Phdrs(file, o, PHENT, n).value[i].vaddr < 0x1_0000_0000_0000_0000
    decreases n
  {
    hide Rd;
    Widths();
    if n > 0 {
      PhdrsSmall(file, o + PHENT, n - 1);
      var p := PhdrAt(file, o);
      assert p.vaddr < 0x1_0000_0000_0000_0000;
    }
  }

  lemma {:induction false} LastPhdrSmall(phdr: nat, ps: seq<Phdr>)
    requires phdr < 0x1_0000_0000_0000_0000 && forall i :: 0 <= i < |ps| ==> ps[i].vaddr < 0x1_0000_0000_0000_0000
    ensures LastPhdr(phdr, ps, 0) < 0x1_0000_0000_0000_0000
    decreases |ps|
  {
    if ps != [] { LastPhdrSmall(if ps[0].ptype == PT_PHDR then ps[0].vaddr else phdr, ps[1..]); }
  }

  lemma {:induction false} LoadsFew(ps: seq<Phdr>)
    ensures |Loads(ps)| <= |ps|
  {
    if ps != [] { LoadsFew(ps[1..]); }
  }

  /** The table address fits its field. */
  lemma ProgramPhdrSmall(file: Bytes, m: Arch, ps: seq<Phdr>)
    requires Regular(file, m, ps)
    ensures |file| >= EHDR
    ensures ProgramPhdr(file, ps) < 0x1_0000_0000_0000_0000 && |Loads(ps)| <= Phnum(file) < 0x1_0000
  {
    hide Loads, Static, NoSharedPage, Rd, Phdrs;
    Widths();
    LoadsFew(ps);
    PhdrsSmall(file, Phoff(file), Phnum(file));
    LastPhdrSmall(0, ps);
    assert Congruent(file, m, Loads(ps)[0]);
  }

  /** The converter's result from the results of its two loops. */
  lemma ConvertedIs(data: Bytes, ps: seq<Phdr>, g: Gathered)
    requires Convertible(data) && Phdrs(data, Phoff(data), Phent(data), Phnum(data)) == Some(ps)
    requires Gather(Gathered([], 0, None), ps) == Some(g) && g.segs != [] && |g.segs| < 0x1_0000
    requires PhdrVa(g.phdr, g.first, Phoff(data)) < 0x1_0000_0000_0000_0000
    requires Table(data, g.segs, PULSE_HEADER + PULSE_SEG * |g.segs|).Some?
    ensures Converted(data) ==
            Some(PackHeader(|g.segs|, Entry(data), ArchOf(Machine(data)).value, PhdrVa(g.phdr, g.first, Phoff(data)), Phnum(data))
                 + Table(data, g.segs, PULSE_HEADER + PULSE_SEG * |g.segs|).value + Blobs(data, g.segs))
  {
    hide Gather, Phdrs, PhdrVa, Rd, Table, Blobs, PackHeader, Entry, Phnum, Phoff, Phent;
  }

  lemma RegularConvertible(file: Bytes, m: Arch, ps: seq<Phdr>)
    requires Regular(file, m, ps)
    ensures Convertible(file) && Phent(file) == PHENT && ArchOf(Machine(file)) == Some(ArchId(m))
    ensures Phdrs(file, Phoff(file), Phent(file), Phnum(file)) == Some(ps)
    ensures Static(ps) && Loads(ps) != [] && AllCongruent(file, m, Loads(ps)) && NoSharedPage(Loads(ps), 0)
  {
    hide Loads, AllCongruent, NoSharedPage, Phdrs, Rd, Static;
  }

  /** The converter writes the parts that the loader reads. */
  lemma ConvertedParts(file: Bytes, m: Arch, ps: seq<Phdr>)
    requires Regular(file, m, ps)
    ensures var segs := OutSegs(Loads(ps));
            var table := Table(file, segs, PULSE_HEADER + PULSE_SEG * |segs|);
            table.Some? && |table.value| == PULSE_SEG * |segs|
            && Converted(file) == Some(PackHeader(|segs|, Entry(file), ArchId(m), ProgramPhdr(file, ps), Phnum(file))
                                       + table.value + Blobs(file, segs))
  {
    hide *;
    var ls := Loads(ps);
    var segs := OutSegs(ls);
    RegularConvertible(file, m, ps);
    Sides(file, m, ls);
    ProgramPhdrSmall(file, m, ps);
    var start := PULSE_HEADER + PULSE_SEG * |segs|;
    Below(|segs|, Total(segs));
    TableThere(file, m, segs, start);
    TableSize(file, segs, start);
    GatherLoads(Gathered([], 0, None), ps);
    assert [] + segs == segs;
    ProgramPhdrIs(file, ps);
    ConvertedIs(file, ps, Gathered(segs, LastPhdr(0, ps, 0), FirstOf(None, ls, 0)));
  }

  lemma ProgramPhdrIs(file: Bytes, ps: seq<Phdr>)
    requires |file| >= EHDR
    ensures ProgramPhdr(file, ps) == PhdrVa(LastPhdr(0, ps, 0), FirstOf(None, Loads(ps), 0), Phoff(file))
  {
  }

  /** Header, table and bytes end below 4 GiB. */
  lemma Below(count: nat, total: nat)
    requires count < 0x1_0000 && total <= USER_HI
    ensures PULSE_HEADER + PULSE_SEG * count + total < 0x1_0000_0000
  {
  }

  lemma PulseSide(file: Bytes, m: Arch, ps: seq<Phdr>, frames: nat)
    requires Regular(file, m, ps)
    ensures Converted(file).Some?
    ensures var im := AddAll(Image(map[], frames, []), OutPieces(file, OutSegs(Loads(ps))));
            PulseLoad(Converted(file).value, m, frames) == if im == None then Err(NoExec) else Ok(Program(file, ps, im.value))
  {
    hide Loads, AllCongruent, NoSharedPage, AddAll, PulseScan, Phdrs, Rd, Static, Table, Blobs, PackHeader, AllFine, Converted, ProgramPhdr,
         Regular, ElfHeader, OutSegs, OutPieces, Entry, Phnum;
    RegularConvertible(file, m, ps);
    Sizes(file);
    var segs := OutSegs(Loads(ps));
    ConvertedParts(file, m, ps);
    ProgramPhdrSmall(file, m, ps);
    Sides(file, m, Loads(ps));
    Widths();
    var header := PackHeader(|segs|, Entry(file), ArchId(m), ProgramPhdr(file, ps), Phnum(file));
    var start := PULSE_HEADER + PULSE_SEG * |segs|;
    var table, blobs := Table(file, segs, start).value, Blobs(file, segs);
    var out := Converted(file).value;
    Three(header, table, blobs);
    HeaderFront(out, |segs|, Entry(file), ArchId(m), ProgramPhdr(file, ps), Phnum(file));
    HeaderBack(out, |segs|, Entry(file), ArchId(m), ProgramPhdr(file, ps), Phnum(file));
    ScanTable(out, file, m, Image(map[], frames, []), segs, start, PULSE_HEADER);
  }

  lemma Sizes(file: Bytes)
    requires |file| >= EHDR
    ensures Entry(file) < 0x1_0000_0000_0000_0000 && Phnum(file) < 0x1_0000
  {
    hide Rd;
    Widths();
  }

  lemma Three(a: Bytes, b: Bytes, c: Bytes)
    ensures var out := a + b + c;
            out[..|a|] == a && out[|a|..|a| + |b|] == b && out[|a| + |b|..|a| + |b| + |c|] == c && |out| == |a| + |b| + |c|
  {
  }

  /** Loading either file succeeds with the same frames, and leaves the same program. */
  lemma MeaningKept(file: Bytes, m: Arch, dynBase: nat, ps: seq<Phdr>, frames: nat)
    requires Regular(file, m, ps)
    ensures Converted(file).Some?
    ensures var elf, pulse := ElfLoad(file, m, dynBase, frames), PulseLoad(Converted(file).value, m, frames);
            && (elf.Ok? <==> pulse.Ok?)
            && (elf.Ok? ==>
                && elf.value.(image := pulse.value.image) == pulse.value
                && SameShape(elf.value.image, pulse.value.image)
                && HoldsProgram(file, elf.value.image.memory, Loads(ps), 0)
                && HoldsProgram(file, pulse.value.image.memory, Loads(ps), 0))
  {
    hide Loads, AllCongruent, NoSharedPage, AddAll, Converted, PulseLoad, ElfLoad, HoldsSegment, Twin, Holds, OutPieces, ElfPieces, ElfPiece, OutSegs, AllFine, ProgramPhdr, AllApart, Static, Congruent;
    var ls := Loads(ps);
    var im := Image(map[], frames, []);
    ElfSide(file, m, dynBase, ps, frames);
    PulseSide(file, m, ps, frames);
    Sides(file, m, ls);
    var ss, ts := ElfPieces(file, ls, 0), OutPieces(file, OutSegs(ls));
    AddAllTwins(im, im, ss, ts);
    if AddAll(im, ss).Some? {
      BothHold(file, m, ps, im);
    }
  }

  lemma BothHold(file: Bytes, m: Arch, ps: seq<Phdr>, im: Image)
    requires Regular(file, m, ps) && im.memory == map[]
    requires forall i :: 0 <= i < |Loads(ps)| ==> Loads(ps)[i].offset + Loads(ps)[i].filesz <= |file|
    requires AddAll(im, ElfPieces(file, Loads(ps), 0)).Some? && AddAll(im, OutPieces(file, OutSegs(Loads(ps)))).Some?
    ensures HoldsProgram(file, AddAll(im, ElfPieces(file, Loads(ps), 0)).value.memory, Loads(ps), 0)
    ensures HoldsProgram(file, AddAll(im, OutPieces(file, OutSegs(Loads(ps)))).value.memory, Loads(ps), 0)
  {
    hide Loads, NoSharedPage, AddAll, HoldsSegment, Twin, Holds, ElfPiece, OutPiece, Aligned, Static, AllApart, Congruent, Fine;
    var ls := Loads(ps);
    Sides(file, m, ls);
    var ss, ts := ElfPieces(file, ls, 0), OutPieces(file, OutSegs(ls));
    forall i | 0 <= i < |ls| ensures |ss[i].data| <= ss[i].memsz && |ts[i].data| <= ts[i].memsz {
      assert Congruent(file, m, ls[i]);
      PieceSizes(file, m, ls[i]);
    }
    LoadedHolds(im, ss);
    LoadedHolds(im, ts);
    forall i | 0 <= i < |ls|
      ensures HoldsSegment(file, AddAll(im, ss).value.memory, ls[i], 0) && HoldsSegment(file, AddAll(im, ts).value.memory, ls[i], 0)
    {
      assert Congruent(file, m, ls[i]) && Twin(ss[i], ts[i]);
      TwinHolds(AddAll(im, ts).value.memory, ss[i], ts[i]);
      SegmentHolds(file, AddAll(im, ss).value.memory, ls[i], 0);
      SegmentHolds(file, AddAll(im, ts).value.memory, ls[i], 0);
    }
  }

  lemma PieceSizes(file: Bytes, m: Arch, p: Phdr)
    requires Congruent(file, m, p)
    ensures p.offset + p.filesz <= |file| && |ElfPiece(file, p, 0).data| <= ElfPiece(file, p, 0).memsz
    ensures |OutPiece(file, Aligned(p)).data| <= OutPiece(file, Aligned(p)).memsz
  {
    SegTwin(file, m, p);
  }
}
