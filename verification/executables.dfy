/** The two loaders for Linux programs, ELF and .pulse v3 (kernel/src/exec.rs:137-190, 301-334), and the
    converter from one to the other (tools/elf2pulse.py:35-81). */
module Executables {
  import opened Basics
  import opened LittleEndian
  import opened PageMemory

  datatype Error = NoExec | NoSpace

  datatype Arch = AArch64 | RiscV64 | X86_64

  const USER_HI: nat := 0x4000_0000
  const PIE_BASE: nat := 0x1000_0000
  const MAX_IMAGE: nat := 0x4000_0000

  const PT_LOAD: nat := 1
  const PT_INTERP: nat := 3
  const PT_PHDR: nat := 6
  const PHENT: nat := 56
  const PULSE_MAGIC: nat := 0x534C_5550
  const PULSE_HEADER: nat := 48
  const PULSE_SEG: nat := 24
  const ABI_LINUX: nat := 1

  function ArchId(m: Arch): nat
  {
    match m case AArch64 => 1 case RiscV64 => 2 case X86_64 => 3
  }

  function EmMachine(m: Arch): nat
  {
    match m case AArch64 => 183 case RiscV64 => 243 case X86_64 => 62
  }

  function UserLo(m: Arch): nat
  {
    if m == X86_64 then 0x100_0000 else 0x1_0000
  }

  // ---------------------------------------------------------------- program headers

  datatype Phdr = Phdr(ptype: nat, flags: nat, offset: nat, vaddr: nat, filesz: nat, memsz: nat)

  function PhdrAt(file: Bytes, o: nat): Phdr
    requires o + PHENT <= |file|
  {
    Phdr(Rd(file, o, 4), Rd(file, o + 4, 4), Rd(file, o + 8, 8), Rd(file, o + 16, 8), Rd(file, o + 32, 8), Rd(file, o + 40, 8))
  }

  /** The program headers, unless one lies past the end of the file. */
  function Phdrs(file: Bytes, o: nat, ent: nat, n: nat): Option<seq<Phdr>>
    decreases n
  {
    if n == 0 then Some([])
    else if o + PHENT > |file| then None
    else match Phdrs(file, o + ent, ent, n - 1)
         case None => None
         case Some(rest) => Some([PhdrAt(file, o)] + rest)
  }

  /** Readable 1, writable 2, executable 4, from the ELF bits 4, 2, 1. */
  function Prot(flags: nat): (r: nat)
    ensures r < 8
  {
    (if flags / 4 % 2 == 1 then 1 else 0) + (if flags / 2 % 2 == 1 then 2 else 0) + (if flags % 2 == 1 then 4 else 0)
  }

  /** Bytes of the file header up to the last field that is read. */
  const EHDR: nat := 58

  /** A 64-bit little-endian ELF file. */
  predicate IsElf(file: Bytes)
  {
    |file| >= EHDR && file[..4] == [0x7f, 69, 76, 70] && file[4] == 2 && file[5] == 1
  }

  function Etype(file: Bytes): nat requires |file| >= EHDR { Rd(file, 16, 2) }
  function Machine(file: Bytes): nat requires |file| >= EHDR { Rd(file, 18, 2) }
  function Entry(file: Bytes): nat requires |file| >= EHDR { Rd(file, 24, 8) }
  function Phoff(file: Bytes): nat requires |file| >= EHDR { Rd(file, 32, 8) }
  function Phent(file: Bytes): nat requires |file| >= EHDR { Rd(file, 54, 2) }
  function Phnum(file: Bytes): nat requires |file| >= EHDR { Rd(file, 56, 2) }

  // ---------------------------------------------------------------- adding a piece to an image

  /** Segs::push (kernel/src/exec.rs:84-89): past the 24th range nothing is recorded. */
  function Pushed(ranges: seq<Range>, s: Piece): seq<Range>
  {
    if |ranges| < MAX_RANGES then ranges + [Range(Lo(s) * PAGE, Hi(s) * PAGE, s.prot)] else ranges
  }

  function Added(im: Image, s: Piece): Option<Image>
  {
    var needed := New(im.memory, Lo(s), Hi(s));
    if needed > im.frames then None else Some(Image(Copied(im.memory, s), im.frames - needed, Pushed(im.ranges, s)))
  }

  method Add(im: Image, s: Piece) returns (r: Option<Image>)
    requires |s.data| <= s.memsz
    ensures r == Added(im, s)
  {
    var ok, memory, frames := CopyInto(im.memory, s, im.frames);
    if !ok { return None; }
    return Some(Image(memory, frames, Pushed(im.ranges, s)));
  }

  // ---------------------------------------------------------------- the ELF loader

  datatype Origin = Origin(va: nat, off: nat)
  datatype Stretch = Stretch(off: nat, len: nat)

  /** What the header loop has found so far. */
  datatype Scan = Scan(phdr: nat, first: Option<Origin>, interp: Option<Stretch>, image: Image)

  datatype Loaded = Loaded(entry: nat, phdr: nat, phnum: nat, interp: Option<Stretch>, image: Image)

  predicate Loadable(p: Phdr)
  {
    p.ptype == PT_LOAD && p.memsz != 0
  }

  /** The segment lies in the file and in the user range. */
  predicate InBounds(file: Bytes, m: Arch, p: Phdr, base: nat)
  {
    UserLo(m) <= p.vaddr + base && p.vaddr + base + p.memsz <= USER_HI && p.offset + p.filesz <= |file| && p.filesz <= p.memsz
  }

  function ElfPiece(file: Bytes, p: Phdr, base: nat): (s: Piece)
    requires p.offset + p.filesz <= |file|
    ensures |s.data| == p.filesz && s.memsz == p.memsz
  {
    Piece(p.vaddr + base, file[p.offset..p.offset + p.filesz], Prot(p.flags), p.memsz)
  }

  /** One round of the header loop. */
  function ElfStep(file: Bytes, m: Arch, base: nat, sc: Scan, p: Phdr): Result<Scan, Error>
  {
    if p.ptype == PT_INTERP then
      if p.offset + p.filesz > |file| || p.filesz < 2 || p.filesz > 256 then Err(NoExec)
      else Ok(sc.(interp := Some(Stretch(p.offset, p.filesz - 1))))
    else if p.ptype == PT_PHDR then Ok(sc.(phdr := p.vaddr + base))
    else if !Loadable(p) then Ok(sc)
    else if !InBounds(file, m, p, base) then Err(NoExec)
    else match Added(sc.image, ElfPiece(file, p, base))
         case None => Err(NoSpace)
         case Some(im) =>
           Ok(sc.(image := im, first := if sc.first == None then Some(Origin(p.vaddr + base, p.offset)) else sc.first))
  }

  function ElfScan(file: Bytes, m: Arch, base: nat, sc: Scan, ps: seq<Phdr>): Result<Scan, Error>
    decreases |ps|
  {
    if ps == [] then Ok(sc)
    else match ElfStep(file, m, base, sc, ps[0])
         case Err(e) => Err(e)
         case Ok(next) => ElfScan(file, m, base, next, ps[1..])
  }

  /** AT_PHDR: from PT_PHDR, or else where the first loaded segment puts the table. */
  function PhdrVa(phdr: nat, first: Option<Origin>, phoff: nat): nat
  {
    if phdr == 0 && first.Some? && phoff >= first.value.off then first.value.va + (phoff - first.value.off) else phdr
  }

  predicate ElfHeader(file: Bytes, m: Arch)
  {
    && |file| >= 64 && IsElf(file) && Machine(file) == EmMachine(m) && (Etype(file) == 2 || Etype(file) == 3)
    && Phent(file) == PHENT && Phoff(file) + PHENT * Phnum(file) <= |file|
  }

  function Start(frames: nat): Scan
  {
    Scan(0, None, None, Image(map[], frames, []))
  }

  /** What loading an ELF file means. */
  function ElfLoad(file: Bytes, m: Arch, dynBase: nat, frames: nat): Result<Loaded, Error>
  {
    if !ElfHeader(file, m) then Err(NoExec)
    else
      var base := if Etype(file) == 3 then dynBase else 0;
      match Phdrs(file, Phoff(file), PHENT, Phnum(file))
      case None => Err(NoExec)
      case Some(ps) =>
        match ElfScan(file, m, base, Start(frames), ps)
        case Err(e) => Err(e)
        case Ok(sc) =>
          Ok(Loaded(Entry(file) + base, PhdrVa(sc.phdr, sc.first, Phoff(file)), Phnum(file), sc.interp, sc.image))
  }

  /** The headers are all there when the table ends in the file. */
  lemma {:induction false} PhdrsThere(file: Bytes, o: nat, n: nat)
    requires n == 0 || o + PHENT * n <= |file|
    ensures Phdrs(file, o, PHENT, n).Some? && |Phdrs(file, o, PHENT, n).value| == n
    ensures forall i :: 0 <= i < n ==> o + PHENT * i + PHENT <= |file| && Phdrs(file, o, PHENT, n).value[i] == PhdrAt(file, o + PHENT * i)
    decreases n
  {
    hide PhdrAt;
    if n > 0 {
      PhdrsThere(file, o + PHENT, n - 1);
      var rest := Phdrs(file, o + PHENT, PHENT, n - 1).value;
      forall i | 0 <= i < n
        ensures o + PHENT * i + PHENT <= |file| && ([PhdrAt(file, o)] + rest)[i] == PhdrAt(file, o + PHENT * i)
      {
        if i > 0 { assert rest[i - 1] == PhdrAt(file, o + PHENT + PHENT * (i - 1)); }
      }
    }
  }

  lemma ElfScanNone(file: Bytes, m: Arch, base: nat)
    ensures forall sc: Scan :: ElfScan(file, m, base, sc, []) == Ok(sc)
  {
  }

  lemma ElfScanNext(file: Bytes, m: Arch, base: nat, sc: Scan, ps: seq<Phdr>)
    requires ps != []
    ensures ElfScan(file, m, base, sc, ps) ==
            var next := ElfStep(file, m, base, sc, ps[0]);
            if next.Err? then Err(next.error) else ElfScan(file, m, base, next.value, ps[1..])
  {
    hide ElfStep;
  }

  /** map_elf (kernel/src/exec.rs:137-190), with `frames` free frames. */
  method MapElf(file: Bytes, m: Arch, dynBase: nat, frames: nat) returns (r: Result<Loaded, Error>)
    ensures r == ElfLoad(file, m, dynBase, frames)
  {
    hide Added, Phdrs, PhdrAt, InBounds, Rd, ElfScan;
    if !ElfHeader(file, m) { return Err(NoExec); }
    var phoff, phnum := Phoff(file), Phnum(file);
    var base := if Etype(file) == 3 then dynBase else 0;
    PhdrsThere(file, phoff, phnum);
    ghost var ps := Phdrs(file, phoff, PHENT, phnum).value;
    var sc := Start(frames);
    var i := 0;
    assert ps[0..] == ps;
    ElfScanNone(file, m, base);
    while i < phnum
      invariant i <= phnum && ElfScan(file, m, base, Start(frames), ps) == ElfScan(file, m, base, sc, ps[i..])
    {
      var p := PhdrAt(file, phoff + PHENT * i);
      assert ps[i..][0] == p && ps[i..][1..] == ps[i + 1..];
      ElfScanNext(file, m, base, sc, ps[i..]);
      i := i + 1;
      if p.ptype == PT_INTERP {
        if p.offset + p.filesz > |file| || p.filesz < 2 || p.filesz > 256 { return Err(NoExec); }
        sc := sc.(interp := Some(Stretch(p.offset, p.filesz - 1)));
      }
      if p.ptype == PT_PHDR { sc := sc.(phdr := p.vaddr + base); }
      if !Loadable(p) { continue; }
      if !InBounds(file, m, p, base) { return Err(NoExec); }
      BoundsMean(file, m, p, base);
      var im := Add(sc.image, ElfPiece(file, p, base));
      if im == None { return Err(NoSpace); }
      if sc.first == None { sc := sc.(first := Some(Origin(p.vaddr + base, p.offset))); }
      sc := sc.(image := im.value);
    }
    assert ps[phnum..] == [];
    return Ok(Loaded(Entry(file) + base, PhdrVa(sc.phdr, sc.first, phoff), phnum, sc.interp, sc.image));
  }

  lemma BoundsMean(file: Bytes, m: Arch, p: Phdr, base: nat)
    requires InBounds(file, m, p, base)
    ensures p.offset + p.filesz <= |file| && p.filesz <= p.memsz
  {
  }

  // ---------------------------------------------------------------- the .pulse v3 loader

  datatype PulseSeg = PulseSeg(off: nat, fsz: nat, va: nat, msz: nat, flags: nat)

  function SegAt(file: Bytes, o: nat): PulseSeg
    requires o + PULSE_SEG <= |file|
  {
    PulseSeg(Rd(file, o, 4), Rd(file, o + 4, 4), Rd(file, o + 8, 8), Rd(file, o + 16, 4), Rd(file, o + 20, 4))
  }

  predicate PulseInBounds(file: Bytes, m: Arch, g: PulseSeg)
  {
    UserLo(m) <= g.va && g.va + g.msz <= USER_HI && g.off + g.fsz <= |file| && g.fsz <= g.msz
  }

  function PulsePiece(file: Bytes, g: PulseSeg): (s: Piece)
    requires g.off + g.fsz <= |file|
    ensures |s.data| == g.fsz && s.memsz == g.msz
  {
    Piece(g.va, file[g.off..g.off + g.fsz], g.flags % 8, g.msz)
  }

  function PulseScan(file: Bytes, m: Arch, im: Image, o: nat, n: nat): Option<Image>
    requires o + PULSE_SEG * n <= |file|
    decreases n
  {
    if n == 0 then Some(im)
    else
      var g := SegAt(file, o);
      if !PulseInBounds(file, m, g) then None
      else match Added(im, PulsePiece(file, g))
           case None => None
           case Some(next) => PulseScan(file, m, next, o + PULSE_SEG, n - 1)
  }

  predicate PulseHeader(file: Bytes, m: Arch)
  {
    && |file| >= PULSE_HEADER && Rd(file, 0, 4) == PULSE_MAGIC && Rd(file, 4, 2) == 3
    && (Rd(file, 20, 4) == ArchId(m) || (Rd(file, 20, 4) == 0 && ArchId(m) == 1))
    && Rd(file, 24, 8) == 0 && Rd(file, 42, 2) == ABI_LINUX
    && Rd(file, 16, 4) + PULSE_SEG * Rd(file, 6, 2) <= |file|
  }

  /** What loading a .pulse v3 file means. */
  function PulseLoad(file: Bytes, m: Arch, frames: nat): Result<Loaded, Error>
  {
    if !PulseHeader(file, m) then Err(NoExec)
    else match PulseScan(file, m, Image(map[], frames, []), Rd(file, 16, 4), Rd(file, 6, 2))
         case None => Err(NoExec)
         case Some(im) => Ok(Loaded(Rd(file, 8, 8), Rd(file, 32, 8), Rd(file, 40, 2), None, im))
  }

  /** load_pulse_linux (kernel/src/exec.rs:304-333) */
  method LoadPulse(file: Bytes, m: Arch, frames: nat) returns (r: Result<Loaded, Error>)
    ensures r == PulseLoad(file, m, frames)
  {
    hide Added, SegAt, PulseInBounds, Rd;
    if !PulseHeader(file, m) { return Err(NoExec); }
    var count, table := Rd(file, 6, 2), Rd(file, 16, 4);
    var im := Image(map[], frames, []);
    var i := 0;
    while i < count
      invariant i <= count
      invariant PulseScan(file, m, Image(map[], frames, []), table, count) == PulseScan(file, m, im, table + PULSE_SEG * i, count - i)
    {
      var g := SegAt(file, table + PULSE_SEG * i);
      if !PulseInBounds(file, m, g) { return Err(NoExec); }
      PulseBoundsMean(file, m, g);
      var next := Add(im, PulsePiece(file, g));
      if next == None { return Err(NoExec); }
      im := next.value;
      i := i + 1;
    }
    return Ok(Loaded(Rd(file, 8, 8), Rd(file, 32, 8), Rd(file, 40, 2), None, im));
  }

  lemma PulseBoundsMean(file: Bytes, m: Arch, g: PulseSeg)
    requires PulseInBounds(file, m, g)
    ensures g.off + g.fsz <= |file| && g.fsz <= g.msz
  {
  }

  // ---------------------------------------------------------------- the converter

  /** A segment on its way out; `off` is where its bytes start in the ELF file and may be negative. */
  datatype OutSeg = OutSeg(off: int, fsz: nat, va: nat, msz: nat, flags: nat)

  datatype Gathered = Gathered(segs: seq<OutSeg>, phdr: nat, first: Option<Origin>)

  /** The segment moved back to the start of its page. */
  function Aligned(p: Phdr): OutSeg
  {
    var delta := p.vaddr % PAGE;
    OutSeg(p.offset - delta, p.filesz + delta, p.vaddr - delta, p.memsz + delta, Prot(p.flags))
  }

  function GatherStep(g: Gathered, p: Phdr): Option<Gathered>
  {
    if p.ptype == PT_INTERP then None
    else if p.ptype == PT_PHDR then Some(g.(phdr := p.vaddr))
    else if !Loadable(p) then Some(g)
    else Some(g.(segs := g.segs + [Aligned(p)],
                 first := if g.first == None then Some(Origin(p.vaddr, p.offset)) else g.first))
  }

  function Gather(g: Gathered, ps: seq<Phdr>): Option<Gathered>
    decreases |ps|
  {
    if ps == [] then Some(g)
    else match GatherStep(g, ps[0])
         case None => None
         case Some(next) => Gather(next, ps[1..])
  }

  /** A slice index: negative ones count from the end, and all are held inside. */
  function SliceAt(n: nat, i: int): (k: nat)
    ensures k <= n
  {
    if i < 0 then (if n + i < 0 then 0 else n + i) else if i < n then i else n
  }

  function Slice(data: Bytes, a: int, b: int): Bytes
  {
    var lo, hi := SliceAt(|data|, a), SliceAt(|data|, b);
    if lo < hi then data[lo..hi] else []
  }

  function Blob(data: Bytes, g: OutSeg): Bytes
  {
    Slice(data, g.off, g.off + g.fsz)
  }

  /** The bytes of the segments, one after the other. */
  function Blobs(data: Bytes, segs: seq<OutSeg>): Bytes
  {
    if segs == [] then [] else Blob(data, segs[0]) + Blobs(data, segs[1..])
  }

  /** The segment's fields fit the table entry. */
  predicate Packs(pos: nat, g: OutSeg)
  {
    pos < 0x1_0000_0000 && g.fsz < 0x1_0000_0000 && g.va < 0x1_0000_0000_0000_0000 && g.msz < 0x1_0000_0000
    && g.flags < 0x1_0000_0000
  }

  function PackSeg(pos: nat, g: OutSeg): (r: Bytes)
    ensures |r| == PULSE_SEG
  {
    Le(pos, 4) + Le(g.fsz, 4) + Le(g.va, 8) + Le(g.msz, 4) + Le(g.flags, 4)
  }

  /** The segment table, whose first segment's bytes are at `pos`. */
  function Table(data: Bytes, segs: seq<OutSeg>, pos: nat): Option<Bytes>
    decreases |segs|
  {
    if segs == [] then Some([])
    else if !Packs(pos, segs[0]) then None
    else match Table(data, segs[1..], pos + |Blob(data, segs[0])|)
         case None => None
         case Some(rest) => Some(PackSeg(pos, segs[0]) + rest)
  }

  function PackHeader(count: nat, entry: nat, arch: nat, phdr: nat, phnum: nat): (r: Bytes)
    ensures |r| == PULSE_HEADER
  {
    Le(PULSE_MAGIC, 4) + Le(3, 2) + Le(count, 2) + Le(entry, 8) + Le(PULSE_HEADER, 4) + Le(arch, 4) + Le(0, 8)
    + Le(phdr, 8) + Le(phnum, 2) + Le(ABI_LINUX, 2) + Le(0, 4)
  }

  function ArchOf(machine: nat): Option<nat>
  {
    if machine == 183 then Some(1) else if machine == 243 then Some(2) else if machine == 62 then Some(3) else None
  }

  predicate Convertible(data: Bytes)
  {
    IsElf(data) && Etype(data) == 2 && ArchOf(Machine(data)) != None
  }

  /** The .pulse v3 file of an ELF file; None where the converter raises an error. */
  function Converted(data: Bytes): Option<Bytes>
  {
    if !Convertible(data) then None
    else match Phdrs(data, Phoff(data), Phent(data), Phnum(data))
         case None => None
         case Some(ps) =>
           match Gather(Gathered([], 0, None), ps)
           case None => None
           case Some(g) =>
             var phdr := PhdrVa(g.phdr, g.first, Phoff(data));
             if g.segs == [] || |g.segs| >= 0x1_0000 || phdr >= 0x1_0000_0000_0000_0000 then None
             else match Table(data, g.segs, PULSE_HEADER + PULSE_SEG * |g.segs|)
                  case None => None
                  case Some(table) =>
                    Some(PackHeader(|g.segs|, Entry(data), ArchOf(Machine(data)).value, phdr, Phnum(data))
                         + table + Blobs(data, g.segs))
  }

  /** Reading the headers from `o` on into what was gathered before. */
  function GatherFrom(data: Bytes, o: nat, ent: nat, n: nat, g: Gathered): Option<Gathered>
  {
    match Phdrs(data, o, ent, n)
    case None => None
    case Some(ps) => Gather(g, ps)
  }

  lemma GatherNext(data: Bytes, o: nat, ent: nat, n: nat, g: Gathered)
    requires n > 0
    ensures GatherFrom(data, o, ent, n, g) ==
            if o + PHENT > |data| then None
            else var next := GatherStep(g, PhdrAt(data, o));
                 if next == None then None else GatherFrom(data, o + ent, ent, n - 1, next.value)
  {
    hide PhdrAt, GatherStep;
    if o + PHENT <= |data| && Phdrs(data, o + ent, ent, n - 1).Some? {
      var rest := Phdrs(data, o + ent, ent, n - 1).value;
      assert ([PhdrAt(data, o)] + rest)[1..] == rest;
    }
  }

  lemma TableNext(data: Bytes, segs: seq<OutSeg>, i: nat, pos: nat)
    requires i < |segs|
    ensures Table(data, segs[i..], pos) ==
            if !Packs(pos, segs[i]) then None
            else var rest := Table(data, segs[i + 1..], pos + |Blob(data, segs[i])|);
                 if rest == None then None else Some(PackSeg(pos, segs[i]) + rest.value)
    ensures Blobs(data, segs[i..]) == Blob(data, segs[i]) + Blobs(data, segs[i + 1..])
  {
    hide Packs, Blob, PackSeg;
    assert segs[i..][1..] == segs[i + 1..] && segs[i..][0] == segs[i];
  }

  lemma TableNone(data: Bytes, pos: nat)
    ensures Table(data, [], pos) == Some([]) && Blobs(data, []) == []
  {
  }

  /** The header loop of convert (tools/elf2pulse.py:50-67). */
  method GatherAll(data: Bytes) returns (r: Option<Gathered>)
    requires |data| >= EHDR
    ensures r == GatherFrom(data, Phoff(data), Phent(data), Phnum(data), Gathered([], 0, None))
  {
    hide PhdrAt, Rd, GatherFrom;
    var o: nat, ent: nat, n: nat := Phoff(data), Phent(data), Phnum(data);
    var g := Gathered([], 0, None);
    while n > 0
      invariant GatherFrom(data, o, ent, n, g) == GatherFrom(data, Phoff(data), Phent(data), Phnum(data), Gathered([], 0, None))
    {
      GatherNext(data, o, ent, n, g);
      if o + PHENT > |data| { return None; }
      var p := PhdrAt(data, o);
      o, n := o + ent, n - 1;
      if p.ptype == PT_INTERP { return None; }
      if p.ptype == PT_PHDR { g := g.(phdr := p.vaddr); }
      if !Loadable(p) { continue; }
      if g.first == None { g := g.(first := Some(Origin(p.vaddr, p.offset))); }
      g := g.(segs := g.segs + [Aligned(p)]);
    }
    assert GatherFrom(data, o, ent, 0, g) == Some(g) by { GatherNone(data, o, ent, g); }
    return Some(g);
  }

  lemma GatherNone(data: Bytes, o: nat, ent: nat, g: Gathered)
    ensures GatherFrom(data, o, ent, 0, g) == Some(g)
  {
  }

  /** The output loop of convert (tools/elf2pulse.py:73-80). */
  method PackAll(data: Bytes, segs: seq<OutSeg>) returns (r: Option<Bytes>)
    ensures var t := Table(data, segs, PULSE_HEADER + PULSE_SEG * |segs|);
            r == if t == None then None else Some(t.value + Blobs(data, segs))
  {
    hide Table, Blobs, Packs, PackSeg, Blob;
    var start := PULSE_HEADER + PULSE_SEG * |segs|;
    var table: Bytes, blobs: Bytes := [], [];
    var i := 0;
    assert segs[0..] == segs;
    assert [] + Blobs(data, segs) == Blobs(data, segs);
    assert Table(data, segs, start).Some? ==> [] + Table(data, segs, start).value == Table(data, segs, start).value;
    while i < |segs|
      invariant i <= |segs| && Blobs(data, segs) == blobs + Blobs(data, segs[i..])
      invariant Table(data, segs, start).Some? <==> Table(data, segs[i..], start + |blobs|).Some?
      invariant Table(data, segs, start).Some? ==>
                  Table(data, segs, start).value == table + Table(data, segs[i..], start + |blobs|).value
    {
      TableNext(data, segs, i, start + |blobs|);
      if !Packs(start + |blobs|, segs[i]) { return None; }
      table := table + PackSeg(start + |blobs|, segs[i]);
      blobs := blobs + Blob(data, segs[i]);
      i := i + 1;
    }
    assert segs[i..] == [];
    TableNone(data, start + |blobs|);
    assert table + [] == table && blobs + [] == blobs;
    return Some(table + blobs);
  }

  /** convert (tools/elf2pulse.py:35-81) */
  method Convert(data: Bytes) returns (r: Option<Bytes>)
    ensures r == Converted(data)
  {
    hide Table, Blobs, Gather, Phdrs, PhdrVa, Rd, PackHeader, ArchOf;
    if !Convertible(data) { return None; }
    var g := GatherAll(data);
    if g == None { return None; }
    var segs, phdr := g.value.segs, PhdrVa(g.value.phdr, g.value.first, Phoff(data));
    if segs == [] || |segs| >= 0x1_0000 || phdr >= 0x1_0000_0000_0000_0000 { return None; }
    var body := PackAll(data, segs);
    if body == None { return None; }
    var header := PackHeader(|segs|, Entry(data), ArchOf(Machine(data)).value, phdr, Phnum(data));
    assert header + body.value == header + Table(data, segs, PULSE_HEADER + PULSE_SEG * |segs|).value + Blobs(data, segs);
    return Some(header + body.value);
  }
}
