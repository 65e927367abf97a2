/** What loading an ELF file leaves in memory, at whatever base (kernel/src/exec.rs:137-190). */
module ElfSegments {
  import opened Basics
  import opened LittleEndian
  import opened PageMemory
  import opened Executables
  import opened LoadPieces

  /** The segments that are loaded. */
  function Loads(ps: seq<Phdr>): seq<Phdr>
  {
    if ps == [] then [] else if Loadable(ps[0]) then [ps[0]] + Loads(ps[1..]) else Loads(ps[1..])
  }

  lemma LoadsHead(ps: seq<Phdr>)
    ensures Loads(ps) == if ps == [] then [] else if Loadable(ps[0]) then [ps[0]] + Loads(ps[1..]) else Loads(ps[1..])
  {
  }

  /** Every loaded segment is one of the headers, and every header of that kind is loaded. */
  lemma {:induction false} LoadsIn(ps: seq<Phdr>)
    ensures forall i :: 0 <= i < |Loads(ps)| ==> Loads(ps)[i] in ps && Loadable(Loads(ps)[i])
    ensures forall p :: p in ps && Loadable(p) ==> p in Loads(ps)
  {
    hide Loadable;
    if ps != [] {
      LoadsIn(ps[1..]);
      var rest := Loads(ps[1..]);
      forall i | 0 <= i < |Loads(ps)| ensures Loads(ps)[i] in ps && Loadable(Loads(ps)[i]) {
        if Loadable(ps[0]) {
          if i > 0 { assert Loads(ps)[i] == rest[i - 1]; }
        }
      }
      forall p | p in ps && Loadable(p) ensures p in Loads(ps) {
        if p != ps[0] { assert p in ps[1..]; }
      }
    }
  }

  function ElfPieces(file: Bytes, ls: seq<Phdr>, base: nat): (r: seq<Piece>)
    requires forall i :: 0 <= i < |ls| ==> ls[i].offset + ls[i].filesz <= |file|
    ensures |r| == |ls| && forall i :: 0 <= i < |ls| ==> r[i] == ElfPiece(file, ls[i], base)
  {
    if ls == [] then [] else [ElfPiece(file, ls[0], base)] + ElfPieces(file, ls[1..], base)
  }

  /** The address in the last PT_PHDR, if there is one. */
  function LastPhdr(phdr: nat, ps: seq<Phdr>, base: nat): nat
    decreases |ps|
  {
    if ps == [] then phdr else LastPhdr(if ps[0].ptype == PT_PHDR then ps[0].vaddr + base else phdr, ps[1..], base)
  }

  function FirstOf(first: Option<Origin>, ls: seq<Phdr>, base: nat): Option<Origin>
  {
    if first == None && ls != [] then Some(Origin(ls[0].vaddr + base, ls[0].offset)) else first
  }

  /** The last path of an interpreter, if there is one. */
  function LastInterp(interp: Option<Stretch>, ps: seq<Phdr>): Option<Stretch>
    decreases |ps|
  {
    if ps == [] then interp
    else LastInterp(if ps[0].ptype == PT_INTERP && ps[0].filesz > 0 then Some(Stretch(ps[0].offset, ps[0].filesz - 1)) else interp, ps[1..])
  }

  lemma FirstHead(first: Option<Origin>, p: Phdr, rest: seq<Phdr>, base: nat)
    ensures FirstOf(first, [p] + rest, base) == if first == None then Some(Origin(p.vaddr + base, p.offset)) else first
    ensures FirstOf(FirstOf(first, [p] + rest, base), rest, base) == FirstOf(first, [p] + rest, base)
  {
  }

  // ---------------------------------------------------------------- which files are loaded

  /** A header that is not refused: the path of an interpreter lies in the file and has 1 to 255 bytes; a segment's
      bytes lie in the file, fit the segment, and its addresses are the user's. */
  predicate Fits(file: Bytes, m: Arch, base: nat, p: Phdr)
  {
    && (p.ptype == PT_INTERP ==> p.offset + p.filesz <= |file| && 2 <= p.filesz <= 256)
    && (p.ptype == PT_LOAD && p.memsz > 0 ==>
          && p.offset + p.filesz <= |file| && p.filesz <= p.memsz
          && UserLo(m) <= p.vaddr + base && p.vaddr + base + p.memsz <= USER_HI)
  }

  ghost predicate AllFit(file: Bytes, m: Arch, base: nat, ps: seq<Phdr>)
  {
    forall i :: 0 <= i < |ps| ==> Fits(file, m, base, ps[i])
  }

  /** The bytes of the segments are in the file. */
  ghost predicate Inside(file: Bytes, ls: seq<Phdr>)
  {
    forall i :: 0 <= i < |ls| ==> ls[i].offset + ls[i].filesz <= |file| && ls[i].filesz <= ls[i].memsz
  }

  lemma LoadsFit(file: Bytes, m: Arch, base: nat, ps: seq<Phdr>)
    requires AllFit(file, m, base, ps)
    ensures Inside(file, Loads(ps))
    ensures forall i :: 0 <= i < |Loads(ps)| ==> InBounds(file, m, Loads(ps)[i], base) && Fits(file, m, base, Loads(ps)[i])
  {
    hide Loads;
    LoadsIn(ps);
    forall i | 0 <= i < |Loads(ps)|
      ensures Fits(file, m, base, Loads(ps)[i]) && InBounds(file, m, Loads(ps)[i], base)
    {
      var j :| 0 <= j < |ps| && ps[j] == Loads(ps)[i];
      assert Fits(file, m, base, ps[j]);
    }
  }

  /** The header loop, when no header is refused: all pieces in turn. */
  lemma {:induction false} ElfScanLoads(file: Bytes, m: Arch, base: nat, sc: Scan, ps: seq<Phdr>)
    requires AllFit(file, m, base, ps) && Inside(file, Loads(ps))
    ensures ElfScan(file, m, base, sc, ps) ==
            var im := AddAll(sc.image, ElfPieces(file, Loads(ps), base));
            if im == None then Err(NoSpace)
            else Ok(Scan(LastPhdr(sc.phdr, ps, base), FirstOf(sc.first, Loads(ps), base), LastInterp(sc.interp, ps), im.value))
    decreases |ps|
  {
    hide Added, Loads, ElfPieces, AddAll, FirstOf;
    LoadsHead(ps);
    NoPieces(file, sc, base);
    if ps != [] {
      var p, rest := ps[0], Loads(ps[1..]);
      assert Fits(file, m, base, p);
      assert AllFit(file, m, base, ps[1..]);
      if Loadable(p) {
        assert Loads(ps) == [p] + rest;
        assert forall i :: 0 <= i < |rest| ==> rest[i] == ([p] + rest)[i + 1];
        ElfPiecesHead(file, p, rest, base, sc.image);
        FirstHead(sc.first, p, rest, base);
      }
      var step := ElfStep(file, m, base, sc, p);
      if step.Ok? { ElfScanLoads(file, m, base, step.value, ps[1..]); }
    }
  }

  lemma NoPieces(file: Bytes, sc: Scan, base: nat)
    ensures AddAll(sc.image, ElfPieces(file, [], base)) == Some(sc.image) && FirstOf(sc.first, [], base) == sc.first
  {
  }

  lemma ElfPiecesHead(file: Bytes, p: Phdr, rest: seq<Phdr>, base: nat, im: Image)
    requires p.offset + p.filesz <= |file| && Inside(file, rest) && Inside(file, [p] + rest)
    ensures AddAll(im, ElfPieces(file, [p] + rest, base)) ==
            var next := Added(im, ElfPiece(file, p, base));
            if next == None then None else AddAll(next.value, ElfPieces(file, rest, base))
  {
    hide Added;
    assert ([p] + rest)[1..] == rest;
    assert ([ElfPiece(file, p, base)] + ElfPieces(file, rest, base))[1..] == ElfPieces(file, rest, base);
  }

  /** Only when no header is refused does the loop come to its end. */
  lemma {:induction false} ElfScanFits(file: Bytes, m: Arch, base: nat, sc: Scan, ps: seq<Phdr>)
    requires ElfScan(file, m, base, sc, ps).Ok?
    ensures AllFit(file, m, base, ps)
    decreases |ps|
  {
    hide Added;
    if ps != [] {
      var step := ElfStep(file, m, base, sc, ps[0]);
      ElfScanFits(file, m, base, step.value, ps[1..]);
      forall i | 0 <= i < |ps| ensures Fits(file, m, base, ps[i]) {
        if i > 0 { assert Fits(file, m, base, ps[1..][i - 1]); }
      }
    }
  }

  /** The base of a file: programs that may be anywhere go to `dynBase`. */
  function BaseOf(file: Bytes, dynBase: nat): nat
    requires |file| >= EHDR
  {
    if Etype(file) == 3 then dynBase else 0
  }

  /** Loading succeeds exactly when the file's header is right, no program header is refused, and the frames suffice. */
  lemma LoadSucceeds(file: Bytes, m: Arch, dynBase: nat, frames: nat, ps: seq<Phdr>)
    requires ElfHeader(file, m) && Phdrs(file, Phoff(file), PHENT, Phnum(file)) == Some(ps)
    ensures AllFit(file, m, BaseOf(file, dynBase), ps) ==> Inside(file, Loads(ps))
    ensures var base := BaseOf(file, dynBase);
            ElfLoad(file, m, dynBase, frames).Ok? <==>
            AllFit(file, m, base, ps) && AddAll(Image(map[], frames, []), ElfPieces(file, Loads(ps), base)).Some?
    ensures var base := BaseOf(file, dynBase);
            AllFit(file, m, base, ps) && ElfLoad(file, m, dynBase, frames).Ok? ==>
              var im := AddAll(Image(map[], frames, []), ElfPieces(file, Loads(ps), base));
              && im.Some?
              && ElfLoad(file, m, dynBase, frames) ==
                 Ok(Loaded(Entry(file) + base, PhdrVa(LastPhdr(0, ps, base), FirstOf(None, Loads(ps), base), Phoff(file)),
                           Phnum(file), LastInterp(None, ps), im.value))
  {
    hide Loads, AllFit, AddAll, ElfScan, Phdrs, PhdrVa, LastPhdr, FirstOf, LastInterp, Rd, ElfPieces, Inside;
    var base := BaseOf(file, dynBase);
    if ElfScan(file, m, base, Start(frames), ps).Ok? { ElfScanFits(file, m, base, Start(frames), ps); }
    if AllFit(file, m, base, ps) {
      LoadsFit(file, m, base, ps);
      ElfScanLoads(file, m, base, Start(frames), ps);
    }
  }

  // ---------------------------------------------------------------- what memory holds

  function PageLo(p: Phdr, base: nat): nat
  {
    (p.vaddr + base) / PAGE
  }

  function PageHi(p: Phdr, base: nat): nat
  {
    (p.vaddr + base + p.memsz + PAGE - 1) / PAGE
  }

  predicate PagesApart(p: Phdr, q: Phdr, base: nat)
  {
    PageHi(p, base) <= PageLo(q, base) || PageHi(q, base) <= PageLo(p, base)
  }

  ghost predicate NoSharedPage(ls: seq<Phdr>, base: nat)
  {
    forall i, j :: 0 <= i < j < |ls| ==> PagesApart(ls[i], ls[j], base)
  }

  /** Byte `k` of the segment: from the file, or zero. */
  function SegmentByteAt(file: Bytes, p: Phdr, k: nat): byte
    requires p.offset + p.filesz <= |file|
  {
    if k < p.filesz then file[p.offset + k] else 0
  }

  /** The segment's bytes at its address plus `base`, zeros after them, and its protection. */
  ghost predicate HoldsSegment(file: Bytes, m: Memory, p: Phdr, base: nat)
  {
    && p.offset + p.filesz <= |file|
    && (forall x: nat :: p.vaddr + base <= x < p.vaddr + base + p.memsz ==> At(m, x) == SegmentByteAt(file, p, x - (p.vaddr + base)))
    && (forall q: nat :: PageLo(p, base) <= q < PageHi(p, base) ==> q in m && m[q].prot == Prot(p.flags))
  }

  /** Each segment of the program does. */
  ghost predicate HoldsProgram(file: Bytes, m: Memory, ls: seq<Phdr>, base: nat)
  {
    forall i :: 0 <= i < |ls| ==> HoldsSegment(file, m, ls[i], base)
  }

  lemma SegmentHolds(file: Bytes, mem: Memory, p: Phdr, base: nat)
    requires p.offset + p.filesz <= |file| && p.filesz <= p.memsz && Holds(mem, ElfPiece(file, p, base))
    ensures HoldsSegment(file, mem, p, base)
  {
    hide At, Prot;
    var s := ElfPiece(file, p, base);
    assert Lo(s) == PageLo(p, base) && Hi(s) == PageHi(p, base);
    hide PageLo, PageHi, Lo, Hi;
    forall x: nat | p.vaddr + base <= x < p.vaddr + base + p.memsz ensures At(mem, x) == SegmentByteAt(file, p, x - (p.vaddr + base)) {
      assert At(mem, x) == ByteOf(s, x);
    }
  }

  lemma PiecesApart(file: Bytes, ls: seq<Phdr>, base: nat)
    requires Inside(file, ls) && NoSharedPage(ls, base)
    ensures AllApart(ElfPieces(file, ls, base))
  {
    hide Prot;
    var ss := ElfPieces(file, ls, base);
    forall i, j | 0 <= i < j < |ss| ensures Apart(ss[i], ss[j]) { assert PagesApart(ls[i], ls[j], base); }
  }

  /** A list of pieces without shared pages, loaded into empty memory. */
  lemma LoadedHolds(im: Image, ss: seq<Piece>)
    requires im.memory == map[] && AddAll(im, ss).Some? && AllApart(ss)
    requires forall i :: 0 <= i < |ss| ==> |ss[i].data| <= ss[i].memsz
    ensures forall i :: 0 <= i < |ss| ==> Holds(AddAll(im, ss).value.memory, ss[i])
  {
    hide AddAll, Holds;
    AddAllHolds(im, ss);
  }

  /** A program whose segments share no page is in memory as its file says, moved by the base, whatever that is. */
  lemma LoadedProgram(file: Bytes, m: Arch, dynBase: nat, frames: nat, ps: seq<Phdr>)
    requires ElfHeader(file, m) && Phdrs(file, Phoff(file), PHENT, Phnum(file)) == Some(ps)
    requires NoSharedPage(Loads(ps), BaseOf(file, dynBase)) && ElfLoad(file, m, dynBase, frames).Ok?
    ensures AllFit(file, m, BaseOf(file, dynBase), ps)
    ensures HoldsProgram(file, ElfLoad(file, m, dynBase, frames).value.image.memory, Loads(ps), BaseOf(file, dynBase))
  {
    hide Loads, AllFit, AddAll, ElfLoad, Phdrs, PhdrVa, Rd, ElfPieces, HoldsSegment, AllApart, Holds, ElfPiece, NoSharedPage;
    LoadSucceeds(file, m, dynBase, frames, ps);
    var base, ls := BaseOf(file, dynBase), Loads(ps);
    var im, ss := Image(map[], frames, []), ElfPieces(file, ls, base);
    PiecesApart(file, ls, base);
    LoadedHolds(im, ss);
    forall i | 0 <= i < |ls| ensures HoldsSegment(file, AddAll(im, ss).value.memory, ls[i], base) {
      assert Holds(AddAll(im, ss).value.memory, ss[i]);
      SegmentHolds(file, AddAll(im, ss).value.memory, ls[i], base);
    }
  }

  /** The program starts at the byte that the file has at its entry: the entry keeps its distance to every segment. */
  lemma EntryByte(file: Bytes, m: Arch, dynBase: nat, frames: nat, ps: seq<Phdr>, p: Phdr)
    requires ElfHeader(file, m) && Phdrs(file, Phoff(file), PHENT, Phnum(file)) == Some(ps)
    requires NoSharedPage(Loads(ps), BaseOf(file, dynBase)) && ElfLoad(file, m, dynBase, frames).Ok?
    requires p in ps && Loadable(p) && p.vaddr <= Entry(file) < p.vaddr + p.filesz
    ensures var l := ElfLoad(file, m, dynBase, frames).value;
            && p.vaddr + BaseOf(file, dynBase) <= l.entry && l.entry - (p.vaddr + BaseOf(file, dynBase)) == Entry(file) - p.vaddr
            && p.offset + (Entry(file) - p.vaddr) < |file|
            && At(l.image.memory, l.entry) == file[p.offset + (Entry(file) - p.vaddr)]
            && l.entry / PAGE in l.image.memory && l.image.memory[l.entry / PAGE].prot == Prot(p.flags)
  {
    hide Loads, AllFit, AddAll, ElfLoad, Phdrs, PhdrVa, Rd, ElfPieces, NoSharedPage, At, Prot, HoldsSegment;
    LoadsIn(ps);
    LoadSucceeds(file, m, dynBase, frames, ps);
    LoadedProgram(file, m, dynBase, frames, ps);
    var i :| 0 <= i < |Loads(ps)| && Loads(ps)[i] == p;
    var l, base := ElfLoad(file, m, dynBase, frames).value, BaseOf(file, dynBase);
    assert HoldsSegment(file, l.image.memory, Loads(ps)[i], base);
    SegmentByte(file, l.image.memory, p, base, Entry(file) - p.vaddr);
  }

  /** One byte of a segment. */
  lemma SegmentByte(file: Bytes, m: Memory, p: Phdr, base: nat, x: nat)
    requires HoldsSegment(file, m, p, base) && x < p.filesz <= p.memsz
    ensures p.offset + x < |file| && At(m, p.vaddr + base + x) == file[p.offset + x]
    ensures (p.vaddr + base + x) / PAGE in m && m[(p.vaddr + base + x) / PAGE].prot == Prot(p.flags)
  {
    hide At, Prot;
    assert PageLo(p, base) <= (p.vaddr + base + x) / PAGE < PageHi(p, base);
  }

  /** Without a PT_PHDR, the program headers that the process is told of are the file's, byte for byte, when its first
      loaded segment holds them. */
  lemma PhdrBytes(file: Bytes, m: Arch, dynBase: nat, frames: nat, ps: seq<Phdr>, k: nat)
    requires ElfHeader(file, m) && Phdrs(file, Phoff(file), PHENT, Phnum(file)) == Some(ps)
    requires NoSharedPage(Loads(ps), BaseOf(file, dynBase)) && ElfLoad(file, m, dynBase, frames).Ok?
    requires (forall i :: 0 <= i < |ps| ==> ps[i].ptype != PT_PHDR) && Loads(ps) != []
    requires var p := Loads(ps)[0]; p.offset <= Phoff(file) && Phoff(file) + k < p.offset + p.filesz
    ensures var l := ElfLoad(file, m, dynBase, frames).value;
            Phoff(file) + k < |file| && At(l.image.memory, l.phdr + k) == file[Phoff(file) + k]
  {
    hide Loads, AllFit, AddAll, ElfLoad, Phdrs, Rd, ElfPieces, NoSharedPage, At, Prot, HoldsSegment;
    LoadSucceeds(file, m, dynBase, frames, ps);
    LoadedProgram(file, m, dynBase, frames, ps);
    var l, base, p := ElfLoad(file, m, dynBase, frames).value, BaseOf(file, dynBase), Loads(ps)[0];
    LoadsFit(file, m, base, ps);
    NoPhdr(0, ps, base);
    assert HoldsSegment(file, l.image.memory, Loads(ps)[0], base);
    SegmentByte(file, l.image.memory, p, base, Phoff(file) - p.offset + k);
  }

  lemma {:induction false} NoPhdr(phdr: nat, ps: seq<Phdr>, base: nat)
    requires forall i :: 0 <= i < |ps| ==> ps[i].ptype != PT_PHDR
    ensures LastPhdr(phdr, ps, base) == phdr
    decreases |ps|
  {
    if ps != [] { NoPhdr(phdr, ps[1..], base); }
  }

  /** With a PT_PHDR, the last one says where they are. */
  lemma {:induction false} PhdrFrom(phdr: nat, ps: seq<Phdr>, base: nat, k: nat)
    requires k < |ps| && ps[k].ptype == PT_PHDR && forall i :: k < i < |ps| ==> ps[i].ptype != PT_PHDR
    ensures LastPhdr(phdr, ps, base) == ps[k].vaddr + base
    decreases |ps|
  {
    if k == 0 { NoPhdr(ps[0].vaddr + base, ps[1..], base); }
    else { PhdrFrom(if ps[0].ptype == PT_PHDR then ps[0].vaddr + base else phdr, ps[1..], base, k - 1); }
  }

  lemma PhdrGiven(file: Bytes, m: Arch, dynBase: nat, frames: nat, ps: seq<Phdr>, k: nat)
    requires ElfHeader(file, m) && Phdrs(file, Phoff(file), PHENT, Phnum(file)) == Some(ps)
    requires ElfLoad(file, m, dynBase, frames).Ok?
    requires k < |ps| && ps[k].ptype == PT_PHDR && forall i :: k < i < |ps| ==> ps[i].ptype != PT_PHDR
    ensures var base := BaseOf(file, dynBase);
            ps[k].vaddr + base > 0 ==> ElfLoad(file, m, dynBase, frames).value.phdr == ps[k].vaddr + base
  {
    hide Loads, AllFit, AddAll, ElfLoad, Phdrs, Rd, ElfPieces, FirstOf, LastPhdr;
    LoadSucceeds(file, m, dynBase, frames, ps);
    PhdrFrom(0, ps, BaseOf(file, dynBase), k);
  }

  // ---------------------------------------------------------------- fields

  /** Protection bit by bit: readable, writable, executable. */
  lemma ProtBits(flags: nat)
    ensures Prot(flags) % 2 == flags / 4 % 2 && Prot(flags) / 2 % 2 == flags / 2 % 2 && Prot(flags) / 4 == flags % 2
  {
  }

  /** A program header, laid out as the ELF format has it. */
  function PackPhdr(p: Phdr, paddr: nat, align: nat): (r: Bytes)
    ensures |r| == PHENT
  {
    Le(p.ptype, 4) + Le(p.flags, 4) + Le(p.offset, 8) + Le(p.vaddr, 8) + Le(paddr, 8) + Le(p.filesz, 8) + Le(p.memsz, 8) + Le(align, 8)
  }

  lemma PhdrRead(file: Bytes, o: nat, p: Phdr, paddr: nat, align: nat)
    requires o + PHENT <= |file| && file[o..o + PHENT] == PackPhdr(p, paddr, align)
    requires p.ptype < 0x1_0000_0000 && p.flags < 0x1_0000_0000 && p.offset < 0x1_0000_0000_0000_0000
    requires p.vaddr < 0x1_0000_0000_0000_0000 && p.filesz < 0x1_0000_0000_0000_0000 && p.memsz < 0x1_0000_0000_0000_0000
    ensures PhdrAt(file, o) == p
  {
    hide Rd, Le, Pow;
    Widths();
    var w := PackPhdr(p, paddr, align);
    assert w[0..4] == Le(p.ptype, 4) && w[4..8] == Le(p.flags, 4) && w[8..16] == Le(p.offset, 8) && w[16..24] == Le(p.vaddr, 8);
    assert w[32..40] == Le(p.filesz, 8) && w[40..48] == Le(p.memsz, 8);
    Field(file, o, w, 0, p.ptype, 4);
    Field(file, o, w, 4, p.flags, 4);
    Field(file, o, w, 8, p.offset, 8);
    Field(file, o, w, 16, p.vaddr, 8);
    Field(file, o, w, 32, p.filesz, 8);
    Field(file, o, w, 40, p.memsz, 8);
  }

  /** The file header, laid out as the ELF format has it, up to the number of program headers. */
  function PackEhdr(abi: Bytes, etype: nat, machine: nat, entry: nat, phoff: nat, shoff: nat, flags: nat, phent: nat, phnum: nat): (r: Bytes)
    requires |abi| == 10
    ensures |r| == EHDR
  {
    [0x7f, 69, 76, 70, 2, 1] + abi + Le(etype, 2) + Le(machine, 2) + Le(1, 4) + Le(entry, 8) + Le(phoff, 8) + Le(shoff, 8)
    + Le(flags, 4) + Le(64, 2) + Le(phent, 2) + Le(phnum, 2)
  }

  /** Which headers of that layout are right, and what is read from them. */
  lemma EhdrRead(file: Bytes, m: Arch, abi: Bytes, etype: nat, machine: nat, entry: nat, phoff: nat, shoff: nat, flags: nat, phent: nat, phnum: nat)
    requires |file| >= 64 && |abi| == 10 && file[..EHDR] == PackEhdr(abi, etype, machine, entry, phoff, shoff, flags, phent, phnum)
    requires etype < 0x1_0000 && machine < 0x1_0000 && phent < 0x1_0000 && phnum < 0x1_0000
    requires entry < 0x1_0000_0000_0000_0000 && phoff < 0x1_0000_0000_0000_0000
    ensures ElfHeader(file, m) <==> machine == EmMachine(m) && etype in {2, 3} && phent == 56 && phoff + 56 * phnum <= |file|
    ensures Etype(file) == etype && Machine(file) == machine && Entry(file) == entry && Phoff(file) == phoff
    ensures Phent(file) == phent && Phnum(file) == phnum
  {
    hide Rd, Le, Pow;
    Widths();
    var w := PackEhdr(abi, etype, machine, entry, phoff, shoff, flags, phent, phnum);
    assert file[0..0 + |w|] == w;
    assert w[0..6] == [0x7f, 69, 76, 70, 2, 1];
    assert file[0] == w[0] && file[1] == w[1] && file[2] == w[2] && file[3] == w[3] && file[4] == w[4] && file[5] == w[5];
    assert w[16..18] == Le(etype, 2) && w[18..20] == Le(machine, 2) && w[24..32] == Le(entry, 8) && w[32..40] == Le(phoff, 8);
    assert w[54..56] == Le(phent, 2) && w[56..58] == Le(phnum, 2);
    Field(file, 0, w, 16, etype, 2);
    Field(file, 0, w, 18, machine, 2);
    Field(file, 0, w, 24, entry, 8);
    Field(file, 0, w, 32, phoff, 8);
    Field(file, 0, w, 54, phent, 2);
    Field(file, 0, w, 56, phnum, 2);
  }
}
