/** A directory block as a tiling of variable-length records (kernel/src/ext2.rs:908-1052): 4 bytes of
    inode number, 2 of record length, 1 of name length, 1 of type, then the name. Inode number 0 is a gap. */
module DirBlocks {
  import opened Basics
  import opened BlockTree

  /** One record and its length in bytes. */
  datatype Rec = Gap(len: nat) | Live(len: nat, ino: nat, ftype: byte, name: Name)

  /** What a lookup finds: inode and type. */
  datatype Answer = Absent | Found(ino: nat, ftype: byte)

  const HEADER: nat := 8
  const MAX_NAME: nat := 255

  /** Bytes a live record needs, rounded up to a multiple of four. */
  function Need(nlen: nat): nat
  {
    (HEADER + nlen + 3) / 4 * 4
  }

  /** The least multiple of four that holds the header and the name. */
  lemma NeedLeast(nlen: nat)
    ensures Need(nlen) % 4 == 0 && HEADER + nlen <= Need(nlen) < HEADER + nlen + 4
  {
  }

  predicate IsName(name: Name)
  {
    1 <= |name| <= MAX_NAME
  }

  // ---------------------------------------------------------------- fields

  function InoAt(k: Block, off: nat): nat
    requires off + HEADER <= |k|
  {
    Word(k[off], k[off + 1], k[off + 2], k[off + 3])
  }

  function LenAt(k: Block, off: nat): nat
    requires off + HEADER <= |k|
  {
    var low: nat, high: nat := k[off + 4], k[off + 5];
    low + 0x100 * high
  }

  /** The 8-byte header of a record. */
  function Header(ino: nat, len: nat, nlen: nat, ftype: byte): (r: Block)
    requires ino < 0x1_0000_0000 && len < 0x1_0000 && nlen < 0x100
    ensures |r| == HEADER
  {
    Bytes(ino) + [len % 0x100, len / 0x100, nlen, ftype]
  }

  /** `bytes` written into the block at `off`. */
  function Spliced(k: Block, off: nat, bytes: Block): (r: Block)
    requires off + |bytes| <= |k|
    ensures |r| == |k|
    ensures forall i :: 0 <= i < |k| ==> r[i] == if off <= i < off + |bytes| then bytes[i - off] else k[i]
  {
    k[..off] + bytes + k[off + |bytes|..]
  }

  // ---------------------------------------------------------------- tilings

  /** The record at `off` is `r`. */
  ghost predicate RecAt(k: Block, off: nat, r: Rec)
  {
    && HEADER <= r.len && off + r.len <= |k| && LenAt(k, off) == r.len
    && match r
       case Gap(_) => InoAt(k, off) == 0
       case Live(len, ino, ftype, name) =>
         ino != 0 && InoAt(k, off) == ino && IsName(name) && k[off + 6] == |name| && k[off + 7] == ftype
         && Need(|name|) <= len && k[off + HEADER..off + HEADER + |name|] == name
  }

  /** The records lie one after the other from `off` on. */
  ghost predicate Fits(k: Block, off: nat, recs: seq<Rec>)
    decreases |recs|
  {
    recs == [] || (RecAt(k, off, recs[0]) && Fits(k, off + recs[0].len, recs[1..]))
  }

  /** Bytes taken by records. */
  function Span(recs: seq<Rec>): nat
  {
    if recs == [] then 0 else recs[0].len + Span(recs[1..])
  }

  /** The records tile the block from `off` to its end. */
  ghost predicate Tiles(k: Block, off: nat, recs: seq<Rec>)
  {
    Fits(k, off, recs) && off + Span(recs) == |k|
  }

  /** The first record with that name. */
  function Search(recs: seq<Rec>, name: Name): Answer
  {
    if recs == [] then Absent
    else if recs[0].Live? && recs[0].name == name then Found(recs[0].ino, recs[0].ftype)
    else Search(recs[1..], name)
  }

  /** How many records have that name. */
  function Matches(recs: seq<Rec>, name: Name): nat
  {
    if recs == [] then 0 else (if recs[0].Live? && recs[0].name == name then 1 else 0) + Matches(recs[1..], name)
  }

  lemma {:induction false} SearchMatches(recs: seq<Rec>, name: Name)
    ensures Search(recs, name) == Absent <==> Matches(recs, name) == 0
  {
    if recs != [] { SearchMatches(recs[1..], name); }
  }

  lemma {:induction false} SearchAppend(a: seq<Rec>, b: seq<Rec>, name: Name)
    ensures Search(a + b, name) == if Search(a, name) == Absent then Search(b, name) else Search(a, name)
    ensures Matches(a + b, name) == Matches(a, name) + Matches(b, name)
  {
    if a == [] {
      assert a + b == b;
    } else {
      assert (a + b)[0] == a[0] && (a + b)[1..] == a[1..] + b;
      SearchAppend(a[1..], b, name);
    }
  }

  lemma {:induction false} SpanAppend(a: seq<Rec>, b: seq<Rec>)
    ensures Span(a + b) == Span(a) + Span(b)
  {
    if a == [] { assert a + b == b; } else { assert (a + b)[1..] == a[1..] + b; SpanAppend(a[1..], b); }
  }

  lemma {:induction false} FitsAppend(k: Block, off: nat, a: seq<Rec>, b: seq<Rec>)
    ensures Fits(k, off, a + b) <==> Fits(k, off, a) && Fits(k, off + Span(a), b)
    decreases |a|
  {
    if a == [] {
      assert a + b == b;
    } else {
      assert (a + b)[0] == a[0] && (a + b)[1..] == a[1..] + b;
      FitsAppend(k, off + a[0].len, a[1..], b);
    }
  }

  /** Two blocks agree from `lo` up to `hi`. */
  ghost predicate Same(k: Block, k': Block, lo: nat, hi: nat)
  {
    |k'| == |k| && forall i :: lo <= i < hi && i < |k| ==> k'[i] == k[i]
  }

  /** Records whose bytes did not change are the same records. */
  lemma RecSame(k: Block, k': Block, off: nat, r: Rec)
    requires RecAt(k, off, r) && Same(k, k', off, off + r.len)
    ensures RecAt(k', off, r)
  {
    if r.Live? {
      assert Need(|r.name|) >= HEADER + |r.name|;
      assert k'[off + HEADER..off + HEADER + |r.name|] == k[off + HEADER..off + HEADER + |r.name|];
    }
  }

  lemma {:induction false} FitsSame(k: Block, k': Block, off: nat, recs: seq<Rec>)
    requires Fits(k, off, recs) && off + Span(recs) <= |k| == |k'|
    requires Same(k, k', off, off + Span(recs))
    ensures Fits(k', off, recs)
    decreases |recs|
  {
    hide RecAt;
    if recs != [] {
      RecSame(k, k', off, recs[0]);
      FitsSame(k, k', off + recs[0].len, recs[1..]);
    }
  }

  lemma PairTiles(k: Block, a: seq<Rec>, b: seq<Rec>)
    ensures Tiles(k, 0, a + b) <==> Fits(k, 0, a) && Fits(k, Span(a), b) && Span(a) + Span(b) == |k|
  {
    hide Fits, Span;
    SpanAppend(a, b);
    FitsAppend(k, 0, a, b);
  }

  /** Three runs of records tile a block when each fits where the one before ends. */
  lemma TilesParts(k: Block, a: seq<Rec>, m: seq<Rec>, b: seq<Rec>)
    ensures Tiles(k, 0, a + m + b) <==>
            Fits(k, 0, a) && Fits(k, Span(a), m) && Fits(k, Span(a) + Span(m), b) && Span(a) + Span(m) + Span(b) == |k|
  {
    hide *;
    SpanAppend(a, m);
    PairTiles(k, a + m, b);
    FitsAppend(k, 0, a, m);
  }

  /** Replacing some records by others that fill the same bytes keeps the tiling. */
  lemma TilesReplace(k: Block, k': Block, a: seq<Rec>, m: seq<Rec>, m': seq<Rec>, b: seq<Rec>)
    requires Tiles(k, 0, a + m + b) && |k'| == |k| && Span(m') == Span(m)
    requires Same(k, k', 0, Span(a)) && Same(k, k', Span(a) + Span(m), |k|)
    requires Fits(k', Span(a), m')
    ensures Tiles(k', 0, a + m' + b)
  {
    hide Fits, Span, RecAt, Same, Tiles;
    TilesParts(k, a, m, b);
    FitsSame(k, k', 0, a);
    FitsSame(k, k', Span(a) + Span(m), b);
    TilesParts(k', a, m', b);
  }

  // ---------------------------------------------------------------- reading the records

  /** The record that the bytes at `off` spell. */
  function RecOf(k: Block, off: nat): Rec
    requires off + HEADER <= |k|
  {
    var nlen: nat := k[off + 6];
    if InoAt(k, off) == 0 || off + HEADER + nlen > |k| then Gap(LenAt(k, off))
    else Live(LenAt(k, off), InoAt(k, off), k[off + 7], k[off + HEADER..off + HEADER + nlen])
  }

  /** The records read one after the other, up to one that is too short or does not fit. */
  function Recs(k: Block, off: nat): seq<Rec>
    decreases |k| - off
  {
    if off + HEADER > |k| || LenAt(k, off) < HEADER || off + LenAt(k, off) > |k| then []
    else [RecOf(k, off)] + Recs(k, off + LenAt(k, off))
  }

  /** A tiling is the records that are read. */
  lemma {:induction false} OneTiling(k: Block, off: nat, recs: seq<Rec>)
    requires Tiles(k, off, recs)
    ensures Recs(k, off) == recs
    decreases |recs|
  {
    if recs != [] {
      TiledRec(k, off, recs[0]);
      OneTiling(k, off + recs[0].len, recs[1..]);
      assert recs == [recs[0]] + recs[1..];
    }
  }

  lemma TiledRec(k: Block, off: nat, r: Rec)
    requires RecAt(k, off, r)
    ensures off + HEADER <= |k| && RecOf(k, off) == r && LenAt(k, off) == r.len
  {
    if r.Live? { assert Need(|r.name|) >= HEADER + |r.name|; }
  }

  // ---------------------------------------------------------------- writing a record

  /** write_dirent */
  function Dirent(k: Block, at: nat, ino: nat, len: nat, name: Name, ftype: byte): (r: Block)
    requires ino < 0x1_0000_0000 && len < 0x1_0000 && |name| < 0x100 && at + HEADER + |name| <= |k|
    ensures |r| == |k|
  {
    Spliced(Spliced(k, at, Header(ino, len, |name|, ftype)), at + HEADER, name)
  }

  lemma WrittenRec(k: Block, at: nat, ino: nat, len: nat, name: Name, ftype: byte)
    requires 0 < ino < 0x1_0000_0000 && len < 0x1_0000 && IsName(name) && Need(|name|) <= len && at + len <= |k|
    ensures at + HEADER + |name| <= |k| && RecAt(Dirent(k, at, ino, len, name, ftype), at, Live(len, ino, ftype, name))
    ensures forall i :: 0 <= i < |k| && !(at <= i < at + Need(|name|)) ==> Dirent(k, at, ino, len, name, ftype)[i] == k[i]
  {
    var h := Header(ino, len, |name|, ftype);
    var r := Dirent(k, at, ino, len, name, ftype);
    assert forall i :: 0 <= i < HEADER ==> r[at + i] == h[i];
    assert r[at + HEADER..at + HEADER + |name|] == name;
  }

  /** The bytes on the disk: inode and length lowest byte first, then the length of the name, the type, and the name. */
  lemma DirentBytes(k: Block, at: nat, ino: nat, len: nat, name: Name, ftype: byte)
    requires ino < 0x1_0000_0000 && len < 0x1_0000 && |name| < 0x100 && at + HEADER + |name| <= |k|
    ensures var r := Dirent(k, at, ino, len, name, ftype);
            && r[at] == ino % 0x100 && r[at + 1] == ino / 0x100 % 0x100 && r[at + 2] == ino / 0x100 / 0x100 % 0x100
            && r[at + 3] == ino / 0x100 / 0x100 / 0x100 && r[at + 4] == len % 0x100 && r[at + 5] == len / 0x100
            && r[at + 6] == |name| && r[at + 7] == ftype && r[at + 8..at + 8 + |name|] == name
  {
    var h := Header(ino, len, |name|, ftype);
    var r := Dirent(k, at, ino, len, name, ftype);
    assert forall i :: 0 <= i < HEADER ==> r[at + i] == h[i];
    assert r[at + HEADER..at + HEADER + |name|] == name;
  }

  /** The length field of the record at `off`. */
  function WithLen(k: Block, off: nat, len: nat): (r: Block)
    requires len < 0x1_0000 && off + HEADER <= |k|
    ensures |r| == |k|
  {
    Spliced(k, off + 4, [len % 0x100, len / 0x100])
  }

  lemma LenWritten(k: Block, off: nat, len: nat)
    requires len < 0x1_0000 && off + HEADER <= |k|
    ensures LenAt(WithLen(k, off, len), off) == len && InoAt(WithLen(k, off, len), off) == InoAt(k, off)
    ensures forall i :: 0 <= i < |k| && i != off + 4 && i != off + 5 ==> WithLen(k, off, len)[i] == k[i]
  {
  }

  /** The same record with another length. */
  function Relengthed(r: Rec, len: nat): Rec
  {
    match r
    case Gap(_) => Gap(len)
    case Live(_, ino, ftype, name) => Live(len, ino, ftype, name)
  }

  lemma ResizedRec(k: Block, off: nat, r: Rec, len: nat)
    requires RecAt(k, off, r) && HEADER <= len < 0x1_0000 && off + len <= |k| && (r.Live? ==> Need(|r.name|) <= len)
    ensures RecAt(WithLen(k, off, len), off, Relengthed(r, len))
  {
    LenWritten(k, off, len);
    if r.Live? {
      assert WithLen(k, off, len)[off + HEADER..off + HEADER + |r.name|] == k[off + HEADER..off + HEADER + |r.name|];
    }
  }

  // ---------------------------------------------------------------- adding and removing, as records

  /** Bytes a record has to spare. */
  function Spare(r: Rec): int
  {
    match r
    case Gap(len) => len
    case Live(len, _, _, name) => len - Need(|name|)
  }

  /** A record with a new one put into its spare bytes. */
  function Shared(r: Rec, ino: nat, ftype: byte, name: Name): seq<Rec>
  {
    match r
    case Gap(len) => [Live(len, ino, ftype, name)]
    case Live(len, _, _, was) => [Relengthed(r, Need(|was|)), Live(if len < Need(|was|) then 0 else len - Need(|was|), ino, ftype, name)]
  }

  /** A new name changes the answer for itself alone. */
  lemma AddedAnswers(a: seq<Rec>, r: Rec, b: seq<Rec>, ino: nat, ftype: byte, name: Name, n: Name)
    requires Search(a + [r] + b, name) == Absent
    ensures Search(a + Shared(r, ino, ftype, name) + b, n) == if n == name then Found(ino, ftype) else Search(a + [r] + b, n)
    ensures Matches(a + Shared(r, ino, ftype, name) + b, n) == Matches(a + [r] + b, n) + if n == name then 1 else 0
  {
    var m, m' := [r], Shared(r, ino, ftype, name);
    SearchAppend(a + m, b, n);
    SearchAppend(a, m, n);
    SearchAppend(a + m', b, n);
    SearchAppend(a, m', n);
    SearchAppend(a + m, b, name);
    SearchAppend(a, m, name);
    OneRec(r, n);
    OneRec(r, name);
    SharedAnswers(r, ino, ftype, name, n);
  }

  lemma OneRec(r: Rec, n: Name)
    ensures Search([r], n) == if r.Live? && r.name == n then Found(r.ino, r.ftype) else Absent
    ensures Matches([r], n) == if r.Live? && r.name == n then 1 else 0
  {
    assert [r][1..] == [];
  }

  lemma SharedAnswers(r: Rec, ino: nat, ftype: byte, name: Name, n: Name)
    ensures var s := Shared(r, ino, ftype, name);
            && Search(s, n) == (if r.Live? && r.name == n then Found(r.ino, r.ftype) else if n == name then Found(ino, ftype) else Absent)
            && Matches(s, n) == (if r.Live? && r.name == n then 1 else 0) + if n == name then 1 else 0
  {
    var s := Shared(r, ino, ftype, name);
    if r.Live? {
      assert s == [s[0]] + [s[1]];
      SearchAppend([s[0]], [s[1]], n);
      OneRec(s[0], n);
      OneRec(s[1], n);
    } else {
      OneRec(s[0], n);
    }
  }

  /** A name that occurs once is gone after its record was merged away; the other answers stay. */
  lemma RemovedAnswers(a: seq<Rec>, m: seq<Rec>, m': seq<Rec>, b: seq<Rec>, name: Name, n: Name)
    requires Matches(a + m + b, name) == 1 && Matches(m, name) == 1 && Matches(m', name) == 0
    requires forall x: Name :: x != name ==> Search(m', x) == Search(m, x) && Matches(m', x) == Matches(m, x)
    ensures Search(a + m' + b, n) == if n == name then Absent else Search(a + m + b, n)
    ensures Matches(a + m' + b, n) == if n == name then 0 else Matches(a + m + b, n)
  {
    SearchAppend(a + m, b, n);
    SearchAppend(a, m, n);
    SearchAppend(a + m', b, n);
    SearchAppend(a, m', n);
    SearchAppend(a + m, b, name);
    SearchAppend(a, m, name);
    SearchMatches(a, name);
    SearchMatches(m', name);
    SearchMatches(b, name);
  }

  // ---------------------------------------------------------------- one block

  /** A block that is an exact tiling. */
  ghost predicate Tiled(k: Block)
  {
    Tiles(k, 0, Recs(k, 0))
  }

  /** Position of the first record with that name. */
  function Position(recs: seq<Rec>, name: Name): (i: nat)
    ensures i <= |recs| && (i < |recs| ==> recs[i].Live? && recs[i].name == name)
    ensures i == |recs| <==> Matches(recs, name) == 0
  {
    if recs == [] || (recs[0].Live? && recs[0].name == name) then 0 else 1 + Position(recs[1..], name)
  }

  /** Position of the first record that can spare `need` bytes. */
  function Room(recs: seq<Rec>, need: nat): (i: nat)
    ensures i <= |recs| && (i < |recs| ==> Spare(recs[i]) >= need)
    ensures forall j :: 0 <= j < i ==> Spare(recs[j]) < need
  {
    if recs == [] || Spare(recs[0]) >= need then 0 else 1 + Room(recs[1..], need)
  }

  /** The records with a new one put into the first that has room. */
  function Placed(recs: seq<Rec>, i: nat, ino: nat, ftype: byte, name: Name): seq<Rec>
    requires i < |recs|
  {
    recs[..i] + Shared(recs[i], ino, ftype, name) + recs[i + 1..]
  }

  /** What replaces record `i` and, unless it is the first, the one before it. */
  function Merged(recs: seq<Rec>, i: nat): seq<Rec>
    requires i < |recs|
  {
    if i == 0 then [Gap(recs[0].len)] else [Relengthed(recs[i - 1], recs[i - 1].len + recs[i].len)]
  }

  /** The records without record `i`. */
  function Erased(recs: seq<Rec>, i: nat): seq<Rec>
    requires i < |recs|
  {
    recs[..if i == 0 then 0 else i - 1] + Merged(recs, i) + recs[i + 1..]
  }

  lemma LiveFits(k: Block, off: nat, r: Rec)
    requires RecAt(k, off, r) && InoAt(k, off) != 0
    ensures r.Live? && |r.name| == k[off + 6] && off + HEADER + |r.name| <= off + r.len <= |k|
  {
    assert Need(|r.name|) >= HEADER + |r.name|;
  }

  /** The record at the cursor, and the step over it. */
  lemma Cursor(k: Block, a: seq<Rec>, b: seq<Rec>)
    requires Tiles(k, 0, a + b) && Span(a) < |k|
    ensures b != [] && RecAt(k, Span(a), b[0]) && Span(a) + HEADER <= |k| && RecOf(k, Span(a)) == b[0]
    ensures LenAt(k, Span(a)) == b[0].len && Span(a + [b[0]]) == Span(a) + b[0].len <= |k|
    ensures InoAt(k, Span(a)) != 0 ==> b[0].Live? && |b[0].name| == k[Span(a) + 6] && Span(a) + HEADER + |b[0].name| <= |k|
    ensures a + b == a + [b[0]] + b[1..]
  {
    hide *;
    CursorRec(k, a, b);
    TiledRec(k, Span(a), b[0]);
    if InoAt(k, Span(a)) != 0 { LiveFits(k, Span(a), b[0]); }
    SpanAppend(a, [b[0]]);
    SpanOne(b[0]);
    assert b == [b[0]] + b[1..];
    assert a + ([b[0]] + b[1..]) == a + [b[0]] + b[1..];
  }

  lemma SpanOne(r: Rec)
    ensures Span([r]) == r.len
  {
    assert [r][1..] == [];
  }

  lemma CursorRec(k: Block, a: seq<Rec>, b: seq<Rec>)
    requires Tiles(k, 0, a + b) && Span(a) < |k|
    ensures b != [] && RecAt(k, Span(a), b[0]) && Span(a) + b[0].len <= |k| && b[0].len >= HEADER
  {
    hide RecAt;
    PairTiles(k, a, b);
    assert Span(b) > 0;
    assert RecAt(k, Span(a), b[0]);
    RecLarge(k, Span(a), b[0]);
  }

  lemma RecLarge(k: Block, off: nat, r: Rec)
    requires RecAt(k, off, r)
    ensures r.len >= HEADER && off + r.len <= |k|
  {
  }

  lemma {:induction false} PositionAfter(a: seq<Rec>, b: seq<Rec>, name: Name)
    requires Matches(a, name) == 0
    ensures Position(a + b, name) == |a| + Position(b, name)
  {
    if a == [] {
      assert a + b == b;
    } else {
      assert (a + b)[0] == a[0] && (a + b)[1..] == a[1..] + b;
      PositionAfter(a[1..], b, name);
    }
  }

  lemma {:induction false} RoomAfter(a: seq<Rec>, b: seq<Rec>, need: nat)
    requires Room(a, need) == |a|
    ensures Room(a + b, need) == |a| + Room(b, need)
  {
    if a == [] {
      assert a + b == b;
    } else {
      assert (a + b)[0] == a[0] && (a + b)[1..] == a[1..] + b;
      RoomAfter(a[1..], b, need);
    }
  }

  lemma SearchStep(a: seq<Rec>, b: seq<Rec>, name: Name)
    requires Search(a, name) == Absent && b != []
    ensures Search(a + [b[0]], name) == if b[0].Live? && b[0].name == name then Found(b[0].ino, b[0].ftype) else Absent
    ensures b[0].Live? && b[0].name == name ==> Search(a + b, name) == Found(b[0].ino, b[0].ftype)
  {
    SearchAppend(a, [b[0]], name);
    SearchAppend(a, b, name);
    OneRec(b[0], name);
  }

  lemma RoomStep(a: seq<Rec>, r: Rec, need: nat)
    requires Room(a, need) == |a| && Spare(r) < need
    ensures Room(a + [r], need) == |a| + 1
  {
    RoomAfter(a, [r], need);
    assert [r][1..] == [];
  }

  /** A cursor over the records: those in `a` passed, those in `b` to come. */
  ghost predicate On(k: Block, off: nat, a: seq<Rec>, b: seq<Rec>)
  {
    Tiles(k, 0, a + b) && a + b == Recs(k, 0) && off == Span(a) <= |k|
  }

  lemma OnStart(k: Block)
    requires Tiled(k)
    ensures On(k, 0, [], Recs(k, 0))
  {
    assert [] + Recs(k, 0) == Recs(k, 0);
  }

  /** The record under the cursor, as its fields spell it. */
  lemma OnRec(k: Block, off: nat, a: seq<Rec>, b: seq<Rec>)
    requires On(k, off, a, b) && off < |k|
    ensures b != [] && RecAt(k, off, b[0]) && off + HEADER <= |k| && RecOf(k, off) == b[0]
    ensures HEADER <= LenAt(k, off) == b[0].len <= |k| - off
    ensures InoAt(k, off) != 0 ==> b[0].Live? && |b[0].name| == k[off + 6] && off + HEADER + |b[0].name| <= |k|
    ensures On(k, off + b[0].len, a + [b[0]], b[1..])
  {
    hide *;
    hide On;
    assert Tiles(k, 0, a + b) && a + b == Recs(k, 0) && off == Span(a) by { OnMeans(k, off, a, b); }
    Cursor(k, a, b);
    CursorRec(k, a, b);
    OnIs(k, off + b[0].len, a + [b[0]], b[1..]);
  }

  lemma OnMeans(k: Block, off: nat, a: seq<Rec>, b: seq<Rec>)
    requires On(k, off, a, b)
    ensures Tiles(k, 0, a + b) && a + b == Recs(k, 0) && off == Span(a) <= |k|
  {
  }

  lemma OnIs(k: Block, off: nat, a: seq<Rec>, b: seq<Rec>)
    requires Tiles(k, 0, a + b) && a + b == Recs(k, 0) && off == Span(a) <= |k|
    ensures On(k, off, a, b)
  {
  }

  lemma OnEnd(k: Block, a: seq<Rec>, b: seq<Rec>)
    requires On(k, |k|, a, b)
    ensures a == Recs(k, 0)
  {
    NothingLeft(k, a, b);
  }

  /** The record loop of lookup (kernel/src/ext2.rs:931-949). */
  method FindInBlock(k: Block, name: Name) returns (answer: Answer)
    requires Tiled(k)
    ensures answer == Search(Recs(k, 0), name)
  {
    var off := 0;
    ghost var a: seq<Rec>, b := [], Recs(k, 0);
    OnStart(k);
    while off < |k|
      invariant off <= |k| && On(k, off, a, b) && Search(a, name) == Absent
      decreases |k| - off
    {
      hide *;
      hide Search;
      OnRec(k, off, a, b);
      OnMeans(k, off, a, b);
      SearchStep(a, b, name);
      var ino, nlen: nat := InoAt(k, off), k[off + 6];
      if ino != 0 && nlen == |name| && k[off + HEADER..off + HEADER + nlen] == name {
        RecOfLive(k, off);
        return Found(ino, k[off + 7]);
      }
      RecOfOther(k, off, name);
      off := off + LenAt(k, off);
      a, b := a + [b[0]], b[1..];
    }
    OnEnd(k, a, b);
    return Absent;
  }

  lemma RecOfLive(k: Block, off: nat)
    requires off + HEADER <= |k| && InoAt(k, off) != 0
    requires var nlen: nat := k[off + 6]; off + HEADER + nlen <= |k|
    ensures var nlen: nat := k[off + 6];
            RecOf(k, off) == Live(LenAt(k, off), InoAt(k, off), k[off + 7], k[off + HEADER..off + HEADER + nlen])
  {
  }

  lemma RecOfOther(k: Block, off: nat, name: Name)
    requires off + HEADER <= |k|
    requires var nlen: nat := k[off + 6];
             InoAt(k, off) != 0 ==> off + HEADER + nlen <= |k|
                                    && !(nlen == |name| && k[off + HEADER..off + HEADER + nlen] == name)
    ensures !(RecOf(k, off).Live? && RecOf(k, off).name == name)
  {
  }

  lemma NothingLeft(k: Block, a: seq<Rec>, b: seq<Rec>)
    requires Tiles(k, 0, a + b) && Span(a) == |k|
    ensures b == []
  {
    PairTiles(k, a, b);
  }

  // ---------------------------------------------------------------- adding to one block

  /** The block with a new record in the spare bytes of the one at `off`, which has `len` bytes and uses `used`. */
  function WithDirent(k: Block, off: nat, len: nat, used: nat, ino: nat, name: Name, ftype: byte): (r: Block)
    requires used < 0x1_0000 && off + HEADER <= |k| && used <= len < 0x1_0000 && off + used + HEADER + |name| <= |k|
    requires ino < 0x1_0000_0000 && |name| < 0x100
    ensures |r| == |k|
  {
    Dirent(if used == 0 then k else WithLen(k, off, used), off + used, ino, len - used, name, ftype)
  }

  /** Bytes in use by a record. */
  function Used(r: Rec): nat
  {
    if r.Gap? then 0 else Need(|r.name|)
  }

  lemma {:induction false} SharedFits(k: Block, off: nat, r: Rec, ino: nat, ftype: byte, name: Name)
    requires RecAt(k, off, r) && Spare(r) >= Need(|name|) && IsName(name) && 0 < ino < 0x1_0000_0000 && r.len < 0x1_0000
    ensures off + Used(r) + HEADER + |name| <= off + r.len <= |k|
    ensures var k' := WithDirent(k, off, r.len, Used(r), ino, name, ftype);
            Fits(k', off, Shared(r, ino, ftype, name)) && Same(k, k', 0, off) && Same(k, k', off + r.len, |k|)
    ensures Span(Shared(r, ino, ftype, name)) == r.len
  {
    hide RecAt, Need, Dirent, WithLen, InoAt, LenAt, Fits, Span;
    RecLarge(k, off, r);
    NeedLarge(|name|);
    var added := Live(r.len - Used(r), ino, ftype, name);
    var k' := WithDirent(k, off, r.len, Used(r), ino, name, ftype);
    SpanOne(added);
    FitsOne(k', off + Used(r), added);
    if r.Gap? {
      DirentThere(k, off, ino, r.len, name, ftype);
    } else {
      var u := Used(r);
      NeedLarge(|r.name|);
      var k1 := WithLen(k, off, u);
      ResizedRec(k, off, r, u);
      LenThere(k, off, u);
      DirentThere(k1, off + u, ino, r.len - u, name, ftype);
      RecSame(k1, k', off, Relengthed(r, u));
      SpanTwo(Relengthed(r, u), added);
      FitsTwo(k', off, Relengthed(r, u), added);
    }
  }

  lemma NeedLarge(n: nat)
    ensures HEADER + n <= Need(n) <= HEADER + n + 3
  {
  }

  lemma FitsOne(k: Block, off: nat, r: Rec)
    ensures Fits(k, off, [r]) <==> RecAt(k, off, r)
  {
    assert [r][1..] == [];
  }

  lemma FitsTwo(k: Block, off: nat, q: Rec, r: Rec)
    ensures Fits(k, off, [q, r]) <==> RecAt(k, off, q) && RecAt(k, off + q.len, r)
  {
    hide RecAt, Fits, Span;
    assert [q, r] == [q] + [r];
    FitsAppend(k, off, [q], [r]);
    FitsOne(k, off, q);
    FitsOne(k, off + q.len, r);
    SpanOne(q);
  }

  lemma SpanTwo(q: Rec, r: Rec)
    ensures Span([q, r]) == q.len + r.len
  {
    hide Span;
    assert [q, r] == [q] + [r];
    SpanAppend([q], [r]);
    SpanOne(q);
    SpanOne(r);
  }

  lemma DirentThere(k: Block, at: nat, ino: nat, len: nat, name: Name, ftype: byte)
    requires 0 < ino < 0x1_0000_0000 && len < 0x1_0000 && IsName(name) && Need(|name|) <= len && at + len <= |k|
    ensures at + HEADER + |name| <= |k| && RecAt(Dirent(k, at, ino, len, name, ftype), at, Live(len, ino, ftype, name))
    ensures Same(k, Dirent(k, at, ino, len, name, ftype), 0, at)
    ensures Same(k, Dirent(k, at, ino, len, name, ftype), at + len, |k|)
  {
    hide RecAt, Dirent;
    WrittenRec(k, at, ino, len, name, ftype);
  }

  lemma LenThere(k: Block, off: nat, len: nat)
    requires len < 0x1_0000 && off + HEADER <= |k|
    ensures Same(k, WithLen(k, off, len), 0, off) && Same(k, WithLen(k, off, len), off + HEADER, |k|)
  {
    hide WithLen;
    LenWritten(k, off, len);
  }

  /** What the loop reads off the record at `off` is what the record can spare. */
  lemma SpareUsed(k: Block, off: nat, r: Rec)
    requires RecAt(k, off, r)
    ensures off + HEADER <= |k| && LenAt(k, off) == r.len >= Used(r)
    ensures Used(r) == if InoAt(k, off) == 0 then 0 else Need(k[off + 6])
    ensures Spare(r) == r.len - Used(r)
  {
  }

  /** Writing the new record at the cursor's place. */
  lemma PlacedHere(k: Block, off: nat, a: seq<Rec>, r: Rec, b: seq<Rec>, ino: nat, ftype: byte, name: Name)
    requires Tiles(k, 0, a + [r] + b) && Span(a) == off < |k| < 0x1_0000 && IsName(name) && 0 < ino < 0x1_0000_0000
    requires RecAt(k, off, r) && Spare(r) >= Need(|name|) && Room(a, Need(|name|)) == |a| && r.len < 0x1_0000
    ensures off + HEADER <= |k| && Used(r) <= r.len && off + Used(r) + HEADER + |name| <= |k|
    ensures var k' := WithDirent(k, off, r.len, Used(r), ino, name, ftype);
            Tiled(k') && Room(a + [r] + b, Need(|name|)) == |a|
            && Recs(k', 0) == Placed(a + [r] + b, |a|, ino, ftype, name)
  {
    hide Tiles, Fits, Span, RecAt, Need, Spare, Shared, WithDirent, Same, Tiled, Recs, Room, Placed, Used, InoAt, LenAt;
    SpareUsed(k, off, r);
    SharedFits(k, off, r, ino, ftype, name);
    var k' := WithDirent(k, off, r.len, Used(r), ino, name, ftype);
    RecReplaced(k, k', a, r, Shared(r, ino, ftype, name), b);
    PlacedAt(a, r, b, ino, ftype, name);
    RoomHere(a, r, b, Need(|name|));
  }

  /** One record replaced by others that fill its bytes. */
  lemma RecReplaced(k: Block, k': Block, a: seq<Rec>, r: Rec, s: seq<Rec>, b: seq<Rec>)
    requires Tiles(k, 0, a + [r] + b) && |k'| == |k| && Fits(k', Span(a), s) && Span(s) == r.len
    requires Same(k, k', 0, Span(a)) && Same(k, k', Span(a) + r.len, |k|)
    ensures Tiled(k') && Recs(k', 0) == a + s + b
  {
    hide *;
    SpanOne(r);
    TilesReplace(k, k', a, [r], s, b);
    OneTiling(k', 0, a + s + b);
    ThenTiled(k', a + s + b);
  }

  lemma RoomHere(a: seq<Rec>, r: Rec, b: seq<Rec>, need: nat)
    requires Room(a, need) == |a| && Spare(r) >= need
    ensures Room(a + [r] + b, need) == |a|
  {
    assert a + [r] + b == a + ([r] + b);
    RoomAfter(a, [r] + b, need);
  }

  lemma PlacedAt(a: seq<Rec>, r: Rec, b: seq<Rec>, ino: nat, ftype: byte, name: Name)
    ensures Placed(a + [r] + b, |a|, ino, ftype, name) == a + Shared(r, ino, ftype, name) + b
  {
    var s := a + [r] + b;
    assert s[..|a|] == a && s[|a|] == r && s[|a| + 1..] == b;
  }

  lemma ThenTiled(k: Block, recs: seq<Rec>)
    requires Tiles(k, 0, recs)
    ensures Tiled(k)
  {
    OneTiling(k, 0, recs);
  }

  /** The record loop of dir_add (kernel/src/ext2.rs:966-990). */
  method PlaceInBlock(k: Block, ino: nat, ftype: byte, name: Name) returns (k': Block, placed: bool)
    requires Tiled(k) && IsName(name) && 0 < ino < 0x1_0000_0000 && |k| < 0x1_0000
    ensures |k'| == |k| && Tiled(k') && (!placed ==> k' == k)
    ensures placed == (Room(Recs(k, 0), Need(|name|)) < |Recs(k, 0)|)
    ensures placed ==> Recs(k', 0) == Placed(Recs(k, 0), Room(Recs(k, 0), Need(|name|)), ino, ftype, name)
  {
    var need, off := Need(|name|), 0;
    ghost var a: seq<Rec>, b := [], Recs(k, 0);
    OnStart(k);
    while off < |k|
      invariant off <= |k| && On(k, off, a, b) && Room(a, need) == |a|
      decreases |k| - off
    {
      hide *;
      hide Spare, Used, Placed, Room;
      OnRec(k, off, a, b);
      OnMeans(k, off, a, b);
      SpareUsed(k, off, b[0]);
      assert a + b == a + [b[0]] + b[1..];
      var rec, nlen: nat := LenAt(k, off), k[off + 6];
      var used := if InoAt(k, off) == 0 then 0 else Need(nlen);
      if rec - used >= need {
        PlacedHere(k, off, a, b[0], b[1..], ino, ftype, name);
        k' := WithDirent(k, off, rec, used, ino, name, ftype);
        return k', true;
      }
      RoomStep(a, b[0], need);
      off := off + rec;
      a, b := a + [b[0]], b[1..];
    }
    OnEnd(k, a, b);
    return k, false;
  }

  // ---------------------------------------------------------------- removing from one block

  /** The block with the inode number of its first record zeroed. */
  function Zeroed(k: Block): (r: Block)
    requires HEADER <= |k|
    ensures |r| == |k|
  {
    Spliced(k, 0, Bytes(0))
  }

  lemma ZeroedRec(k: Block, r: Rec)
    requires RecAt(k, 0, r)
    ensures HEADER <= |k| && RecAt(Zeroed(k), 0, Gap(r.len)) && Same(k, Zeroed(k), r.len, |k|)
  {
    hide *;
    RecLarge(k, 0, r);
    ZeroedBytes(k);
    LenOf(k, 0, r);
    GapThere(Zeroed(k), r.len);
  }

  lemma LenOf(k: Block, off: nat, r: Rec)
    requires RecAt(k, off, r)
    ensures off + HEADER <= |k| && LenAt(k, off) == r.len
  {
  }

  lemma GapThere(k: Block, len: nat)
    requires HEADER <= len <= |k| && LenAt(k, 0) == len && InoAt(k, 0) == 0
    ensures RecAt(k, 0, Gap(len))
  {
  }

  lemma ZeroedBytes(k: Block)
    requires HEADER <= |k|
    ensures LenAt(Zeroed(k), 0) == LenAt(k, 0) && InoAt(Zeroed(k), 0) == 0
    ensures forall i :: HEADER <= i ==> Same(k, Zeroed(k), i, |k|)
  {
    hide Bytes, Word;
    var z := Zeroed(k);
    ZeroedOutside(k);
    assert z[0] == Bytes(0)[0] && z[1] == Bytes(0)[1] && z[2] == Bytes(0)[2] && z[3] == Bytes(0)[3] by {
      hide Bytes, Word;
    }
    assert InoAt(z, 0) == Word(z[0], z[1], z[2], z[3]);
  }

  lemma ZeroedOutside(k: Block)
    requires HEADER <= |k|
    ensures forall i :: HEADER <= i ==> Same(k, Zeroed(k), i, |k|)
  {
    hide Bytes;
  }

  lemma WidenedRec(k: Block, off: nat, q: Rec, r: Rec)
    requires RecAt(k, off, q) && RecAt(k, off + q.len, r) && |k| < 0x1_0000
    ensures off + HEADER <= |k| && q.len + r.len < 0x1_0000
    ensures var k' := WithLen(k, off, q.len + r.len);
            RecAt(k', off, Relengthed(q, q.len + r.len)) && Same(k, k', 0, off) && Same(k, k', off + q.len + r.len, |k|)
  {
    hide RecAt, Need, WithLen, InoAt, LenAt;
    RecLarge(k, off, q);
    RecLarge(k, off + q.len, r);
    assert q.Live? ==> Need(|q.name|) <= q.len by { if q.Live? { LiveNeed(k, off, q); } }
    ResizedRec(k, off, q, q.len + r.len);
    LenThere(k, off, q.len + r.len);
  }

  lemma LiveNeed(k: Block, off: nat, r: Rec)
    requires RecAt(k, off, r) && r.Live?
    ensures Need(|r.name|) <= r.len
  {
  }

  lemma ErasedAt(a: seq<Rec>, q: Rec, r: Rec, b: seq<Rec>)
    ensures Erased(a + [q, r] + b, |a| + 1) == a + [Relengthed(q, q.len + r.len)] + b
  {
    var s := a + [q, r] + b;
    assert s[..|a|] == a && s[|a|] == q && s[|a| + 1] == r && s[|a| + 2..] == b;
  }

  lemma ErasedFirst(r: Rec, b: seq<Rec>)
    ensures Erased([r] + b, 0) == [Gap(r.len)] + b
  {
    var s := [r] + b;
    assert s[..0] == [] && s[1..] == b;
  }

  /** Zeroing the first record. */
  lemma FirstTaken(k: Block, r: Rec, b: seq<Rec>)
    requires Tiles(k, 0, [r] + b)
    ensures HEADER <= |k| && Tiled(Zeroed(k)) && Recs(Zeroed(k), 0) == Erased([r] + b, 0)
  {
    hide *;
    PairTiles(k, [r], b);
    FitsOne(k, 0, r);
    ZeroedRec(k, r);
    var k' := Zeroed(k);
    SpanOne(r);
    SpanOne(Gap(r.len));
    FitsOne(k', 0, Gap(r.len));
    assert Span([]) == 0 by { SpanNone(); }
    assert [] + [r] + b == [r] + b && [] + [Gap(r.len)] + b == [Gap(r.len)] + b;
    assert Same(k, k', 0, 0) by { SameNone(k, k'); }
    TilesReplace(k, k', [], [r], [Gap(r.len)], b);
    OneTiling(k', 0, [Gap(r.len)] + b);
    ThenTiled(k', [Gap(r.len)] + b);
    ErasedFirst(r, b);
  }

  lemma SpanNone()
    ensures Span([]) == 0
  {
  }

  lemma SameNone(k: Block, k': Block)
    requires |k'| == |k|
    ensures Same(k, k', 0, 0)
  {
  }

  /** Merging a record into the one before it. */
  lemma NextTaken(k: Block, a: seq<Rec>, q: Rec, r: Rec, b: seq<Rec>)
    requires Tiles(k, 0, a + [q, r] + b) && |k| < 0x1_0000
    ensures Span(a) + HEADER <= |k| && q.len + r.len < 0x1_0000
    ensures var k' := WithLen(k, Span(a), q.len + r.len);
            Tiled(k') && Recs(k', 0) == Erased(a + [q, r] + b, |a| + 1)
  {
    hide *;
    TilesParts(k, a, [q, r], b);
    FitsTwo(k, Span(a), q, r);
    WidenedRec(k, Span(a), q, r);
    var w := Relengthed(q, q.len + r.len);
    var k' := WithLen(k, Span(a), q.len + r.len);
    SpanTwo(q, r);
    SpanOne(w);
    RelengthedLen(q, q.len + r.len);
    FitsOne(k', Span(a), w);
    TilesReplace(k, k', a, [q, r], [w], b);
    OneTiling(k', 0, a + [w] + b);
    ThenTiled(k', a + [w] + b);
    ErasedAt(a, q, r, b);
  }

  lemma RelengthedLen(r: Rec, len: nat)
    ensures Relengthed(r, len).len == len
  {
  }

  /** The record at the cursor is the first match exactly when its fields say so. */
  lemma PositionStep(a: seq<Rec>, b: seq<Rec>, name: Name)
    requires Position(a, name) == |a| && b != []
    ensures b[0].Live? && b[0].name == name ==> Position(a + b, name) == |a|
    ensures !(b[0].Live? && b[0].name == name) ==> Position(a + [b[0]], name) == |a| + 1
  {
    PositionAfter(a, b, name);
    PositionAfter(a, [b[0]], name);
    assert [b[0]][1..] == [];
  }

  /** Offset of the last record of a run. */
  ghost function LastAt(a: seq<Rec>): int
  {
    if a == [] then -1 else Span(a[..|a| - 1])
  }

  lemma LastIs(a: seq<Rec>)
    ensures LastAt(a) < 0 <==> a == []
    ensures a != [] ==> LastAt(a) == Span(a[..|a| - 1])
  {
  }

  lemma LastNext(a: seq<Rec>, r: Rec)
    ensures LastAt(a + [r]) == Span(a)
  {
    assert (a + [r])[..|a|] == a;
  }

  /** The length field of the record before the cursor. */
  lemma LastLen(k: Block, a: seq<Rec>, b: seq<Rec>)
    requires Tiles(k, 0, a + b) && a != [] && b != []
    ensures 0 <= LastAt(a) && LastAt(a) + HEADER <= |k| && LenAt(k, LastAt(a)) == a[|a| - 1].len
    ensures a + b == a[..|a| - 1] + [a[|a| - 1], b[0]] + b[1..]
  {
    hide RecAt, Tiles, Fits, Span;
    var c, q := a[..|a| - 1], a[|a| - 1];
    assert a == c + [q];
    assert a + b == c + ([q] + b);
    PairTiles(k, c, [q] + b);
    FitsAppend(k, Span(c), [q], b);
    FitsOne(k, Span(c), q);
    TiledRec(k, Span(c), q);
  }

  lemma TakeStart(name: Name)
    ensures Position([], name) == 0 && LastAt([]) == -1
  {
  }

  /** The record loop of dir_remove (kernel/src/ext2.rs:1033-1061). */
  method TakeFromBlock(k: Block, name: Name) returns (k': Block, taken: bool)
    requires Tiled(k) && IsName(name) && |k| < 0x1_0000
    ensures |k'| == |k| && Tiled(k') && (!taken ==> k' == k)
    ensures taken == (Position(Recs(k, 0), name) < |Recs(k, 0)|)
    ensures taken ==> Recs(k', 0) == Erased(Recs(k, 0), Position(Recs(k, 0), name))
  {
    hide LastAt, Position, Erased, Unlinked, On, Recs, Tiles, Tiled, InoAt, LenAt, RecOf, RecAt, Need, IsName, Span;
    var off, prev := 0, -1;
    ghost var a: seq<Rec>, b := [], Recs(k, 0);
    OnStart(k);
    TakeStart(name);
    while off < |k|
      invariant off <= |k| && On(k, off, a, b) && Position(a, name) == |a| && prev == LastAt(a)
      decreases |k| - off
    {
      OnRec(k, off, a, b);
      PositionStep(a, b, name);
      var ino, rec, nlen: nat := InoAt(k, off), LenAt(k, off), k[off + 6];
      if ino != 0 && nlen == |name| && k[off + HEADER..off + HEADER + nlen] == name {
        RecOfLive(k, off);
        OnMeans(k, off, a, b);
        TakenHere(k, a, b);
        k' := Unlinked(k, prev, rec);
        return k', true;
      }
      RecOfOther(k, off, name);
      OnMeans(k, off, a, b);
      LastNext(a, b[0]);
      prev := off;
      off := off + rec;
      a, b := a + [b[0]], b[1..];
    }
    OnEnd(k, a, b);
    return k, false;
  }

  /** The block without the record of `rec` bytes that follows the one at `prev`, or without its first record. */
  function Unlinked(k: Block, prev: int, rec: nat): (r: Block)
    requires HEADER <= |k| && (prev >= 0 ==> prev + HEADER <= |k| && LenAt(k, prev) + rec < 0x1_0000)
    ensures |r| == |k|
  {
    if prev >= 0 then WithLen(k, prev, LenAt(k, prev) + rec) else Zeroed(k)
  }

  /** Taking out the record at the cursor. */
  lemma TakenHere(k: Block, a: seq<Rec>, b: seq<Rec>)
    requires Tiles(k, 0, a + b) && b != [] && |k| < 0x1_0000
    ensures HEADER <= |k|
    ensures LastAt(a) >= 0 ==> LastAt(a) + HEADER <= |k| && LenAt(k, LastAt(a)) + b[0].len < 0x1_0000
    ensures var k' := Unlinked(k, LastAt(a), b[0].len); Tiled(k') && Recs(k', 0) == Erased(a + b, |a|)
  {
    hide *;
    hide Erased, Unlinked;
    LastIs(a);
    if a == [] {
      assert a + b == [b[0]] + b[1..];
      FirstTaken(k, b[0], b[1..]);
      UnlinkedIs(k, LastAt(a), b[0].len);
    } else {
      LastLen(k, a, b);
      NextTaken(k, a[..|a| - 1], a[|a| - 1], b[0], b[1..]);
      UnlinkedIs(k, LastAt(a), b[0].len);
    }
  }

  lemma UnlinkedIs(k: Block, prev: int, rec: nat)
    requires HEADER <= |k| && (prev >= 0 ==> prev + HEADER <= |k| && LenAt(k, prev) + rec < 0x1_0000)
    ensures prev < 0 ==> Unlinked(k, prev, rec) == Zeroed(k)
    ensures prev >= 0 ==> Unlinked(k, prev, rec) == WithLen(k, prev, LenAt(k, prev) + rec)
  {
  }
}
