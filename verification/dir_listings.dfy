/** A directory as the records of its blocks, one block after the other (kernel/src/ext2.rs:882-1060). */
module DirListings {
  import opened Basics
  import opened BlockTree
  import opened DirBlocks

  /** One block position of a directory file. */
  datatype Slot = Hole | Data(block: Block)

  type Listing = seq<Slot>

  datatype Error = IoError | NoSpace | NoEntry | NotDir

  const DOT: Name := [46]
  const DOTDOT: Name := [46, 46]
  const FT_DIR: byte := 2

  function Part(s: Slot): seq<Rec>
  {
    if s.Hole? then [] else Recs(s.block, 0)
  }

  /** All records, in the order of a full scan. */
  function All(d: Listing): seq<Rec>
  {
    if d == [] then [] else Part(d[0]) + All(d[1..])
  }

  /** What a full scan answers for a name, and how many records have it. */
  function Ask(d: Listing, name: Name): Answer
  {
    Search(All(d), name)
  }

  function Count(d: Listing, name: Name): nat
  {
    Matches(All(d), name)
  }

  /** Every block is an exact tiling. */
  ghost predicate Whole(d: Listing, bs: nat)
  {
    forall l :: 0 <= l < |d| && d[l].Data? ==> WholeBlock(d[l].block, bs)
  }

  ghost predicate WholeBlock(k: Block, bs: nat)
  {
    |k| == bs && Tiled(k)
  }

  /** The first block starts with "." and "..". */
  ghost predicate Headed(d: Listing, self: nat)
  {
    |d| > 0 && d[0].Data? && Heads(Recs(d[0].block, 0), self)
  }

  ghost predicate Heads(recs: seq<Rec>, self: nat)
  {
    && |recs| >= 2 && recs[0] == Live(Need(1), self, FT_DIR, DOT)
    && recs[1].Live? && recs[1].name == DOTDOT && recs[1].ftype == FT_DIR
  }

  ghost predicate Unique(d: Listing)
  {
    forall n: Name :: Count(d, n) <= 1
  }

  /** A directory in good order. */
  ghost predicate Orderly(d: Listing, self: nat, bs: nat)
  {
    Whole(d, bs) && Headed(d, self) && Unique(d)
  }

  /** `d'` answers as `d` does, except for `name`. */
  ghost predicate Alike(d: Listing, d': Listing, name: Name)
  {
    forall n: Name :: n != name ==> Ask(d', n) == Ask(d, n)
  }

  // ---------------------------------------------------------------- the records of one block among all

  lemma {:induction false} AllAppend(a: Listing, b: Listing)
    ensures All(a + b) == All(a) + All(b)
  {
    if a == [] {
      assert a + b == b;
    } else {
      assert (a + b)[0] == a[0] && (a + b)[1..] == a[1..] + b;
      AllAppend(a[1..], b);
    }
  }

  lemma AllOne(s: Slot)
    ensures All([s]) == Part(s)
  {
    assert [s][1..] == [];
  }

  lemma AllAround(d: Listing, l: nat, s: Slot)
    requires l < |d|
    ensures All(d[l := s]) == All(d[..l]) + Part(s) + All(d[l + 1..])
    ensures All(d) == All(d[..l]) + Part(d[l]) + All(d[l + 1..])
  {
    hide All, Part;
    AllOne(s);
    AllOne(d[l]);
    AllAppend(d[..l], [s]);
    AllAppend(d[..l] + [s], d[l + 1..]);
    AllAppend(d[..l], [d[l]]);
    AllAppend(d[..l] + [d[l]], d[l + 1..]);
    assert d[l := s] == d[..l] + [s] + d[l + 1..];
    assert d == d[..l] + [d[l]] + d[l + 1..];
  }

  // ---------------------------------------------------------------- lookup

  /** The block loop of lookup (kernel/src/ext2.rs:927-952); the blocks at `bad` cannot be read. */
  method FindIn(d: Listing, name: Name, bad: set<nat>, ghost bs: nat) returns (r: Result<Answer, Error>)
    requires Whole(d, bs)
    ensures r.Ok? ==> r.value == Ask(d, name)
    ensures bad == {} ==> r.Ok?
  {
    var l := 0;
    assert d[..0] == [];
    while l < |d|
      invariant l <= |d| && Search(All(d[..l]), name) == Absent
    {
      hide All, Search, Tiled;
      var answer := Absent;
      if d[l].Data? {
        if l in bad { return Err(IoError); }
        assert WholeBlock(d[l].block, bs);
        answer := FindInBlock(d[l].block, name);
      }
      ScanStep(d, l, name);
      assert answer == Search(Part(d[l]), name) by { PartNone(d[l], name); }
      if answer != Absent { return Ok(answer); }
      l := l + 1;
    }
    assert d[..l] == d;
    return Ok(Absent);
  }

  /** What is found has an inode number. */
  lemma {:induction false} AskNonzero(d: Listing, bs: nat, name: Name)
    requires Whole(d, bs)
    ensures Ask(d, name).Found? ==> Ask(d, name).ino != 0
  {
    hide Tiled, Recs, Search;
    if d == [] {
      assert Search([], name) == Absent by { SearchNone(name); }
    } else {
      assert d[0].Data? ==> WholeBlock(d[0].block, bs);
      SearchAppend(Part(d[0]), All(d[1..]), name);
      PartNone(d[0], name);
      if d[0].Data? { TiledNonzero(d[0].block, name); }
      assert forall l :: 0 <= l < |d[1..]| ==> d[1..][l] == d[l + 1];
      AskNonzero(d[1..], bs, name);
    }
  }

  /** What is found has a proper name. */
  lemma {:induction false} AskProper(d: Listing, bs: nat, name: Name)
    requires Whole(d, bs) && !IsName(name)
    ensures Ask(d, name) == Absent
  {
    hide Tiled, Recs, Search, IsName;
    if d == [] {
      assert Search([], name) == Absent by { SearchNone(name); }
    } else {
      assert d[0].Data? ==> WholeBlock(d[0].block, bs);
      SearchAppend(Part(d[0]), All(d[1..]), name);
      PartNone(d[0], name);
      if d[0].Data? { TiledProper(d[0].block, name); }
      assert forall l :: 0 <= l < |d[1..]| ==> d[1..][l] == d[l + 1];
      AskProper(d[1..], bs, name);
    }
  }

  lemma TiledProper(k: Block, name: Name)
    requires Tiled(k) && !IsName(name)
    ensures Search(Recs(k, 0), name) == Absent
  {
    hide Recs;
    FitsProper(k, 0, Recs(k, 0), name);
  }

  lemma {:induction false} FitsProper(k: Block, off: nat, recs: seq<Rec>, name: Name)
    requires Fits(k, off, recs) && !IsName(name)
    ensures Search(recs, name) == Absent
    decreases |recs|
  {
    if recs != [] { FitsProper(k, off + recs[0].len, recs[1..], name); }
  }

  lemma SearchNone(name: Name)
    ensures Search([], name) == Absent
  {
  }

  lemma TiledNonzero(k: Block, name: Name)
    requires Tiled(k)
    ensures Search(Recs(k, 0), name).Found? ==> Search(Recs(k, 0), name).ino != 0
  {
    hide Recs;
    FitsNonzero(k, 0, Recs(k, 0), name);
  }

  lemma {:induction false} FitsNonzero(k: Block, off: nat, recs: seq<Rec>, name: Name)
    requires Fits(k, off, recs)
    ensures Search(recs, name).Found? ==> Search(recs, name).ino != 0
    decreases |recs|
  {
    if recs != [] { FitsNonzero(k, off + recs[0].len, recs[1..], name); }
  }

  lemma PartNone(s: Slot, name: Name)
    ensures s.Hole? ==> Search(Part(s), name) == Absent
  {
  }

  lemma ScanStep(d: Listing, l: nat, name: Name)
    requires l < |d| && Search(All(d[..l]), name) == Absent
    ensures Search(All(d[..l + 1]), name) == Search(Part(d[l]), name)
    ensures Search(Part(d[l]), name) != Absent ==> Ask(d, name) == Search(Part(d[l]), name)
  {
    hide Search, All, Part;
    assert d[..l + 1] == d[..l] + [d[l]];
    AllAppend(d[..l], [d[l]]);
    AllOne(d[l]);
    SearchAppend(All(d[..l]), Part(d[l]), name);
    AllAround(d, l, d[l]);
    SearchAppend(All(d[..l]) + Part(d[l]), All(d[l + 1..]), name);
  }

  // ---------------------------------------------------------------- adding a name

  /** Block `l` has room for a record of `need` bytes. */
  ghost predicate HasRoom(s: Slot, need: nat)
  {
    s.Data? && Room(Recs(s.block, 0), need) < |Recs(s.block, 0)|
  }

  /** The listing with block `l` rewritten to hold a new record. */
  ghost predicate PlacedIn(d: Listing, d': Listing, l: nat, ino: nat, ftype: byte, name: Name)
  {
    && l < |d| == |d'| && HasRoom(d[l], Need(|name|)) && d'[l].Data? && d' == d[l := d'[l]]
    && Recs(d'[l].block, 0) == Placed(Recs(d[l].block, 0), Room(Recs(d[l].block, 0), Need(|name|)), ino, ftype, name)
  }

  lemma RoomIn(s: Slot, need: nat)
    ensures HasRoom(s, need) <==> s.Data? && Room(Recs(s.block, 0), need) < |Recs(s.block, 0)|
  {
    hide Room, Recs;
  }

  lemma PlacedInBy(d: Listing, d': Listing, l: nat, ino: nat, ftype: byte, name: Name)
    requires l < |d| == |d'| && HasRoom(d[l], Need(|name|)) && d'[l].Data? && d' == d[l := d'[l]]
    requires Recs(d'[l].block, 0) == Placed(Recs(d[l].block, 0), Room(Recs(d[l].block, 0), Need(|name|)), ino, ftype, name)
    ensures PlacedIn(d, d', l, ino, ftype, name)
  {
    hide Room, Recs, Placed, Need;
  }

  /** The block loop of dir_add (kernel/src/ext2.rs:960-991): Ok(true) when a block took the record, Ok(false) when none has room. */
  method PlaceIn(d: Listing, ino: nat, ftype: byte, name: Name, bad: set<nat>, ghost bs: nat)
    returns (d': Listing, r: Result<bool, Error>, at: nat)
    requires Whole(d, bs) && bs < 0x1_0000 && IsName(name) && 0 < ino < 0x1_0000_0000
    ensures Whole(d', bs) && (r != Ok(true) ==> d' == d) && (bad == {} ==> r.Ok?)
    ensures r == Ok(true) ==> PlacedIn(d, d', at, ino, ftype, name)
    ensures r == Ok(false) ==> forall l :: 0 <= l < |d| ==> !HasRoom(d[l], Need(|name|))
  {
    hide Tiled, Placed, Room, Recs, Need, IsName, HasRoom, PlacedIn;
    d', r, at := d, Ok(false), 0;
    while at < |d|
      invariant at <= |d| && forall l :: 0 <= l < at ==> !HasRoom(d[l], Need(|name|))
    {
      RoomIn(d[at], Need(|name|));
      if d[at].Data? {
        if at in bad { return d, Err(IoError), at; }
        assert WholeBlock(d[at].block, bs);
        var k, placed := PlaceInBlock(d[at].block, ino, ftype, name);
        if placed {
          d' := d[at := Data(k)];
          WholeUpdate(d, bs, at, k);
          PlacedInBy(d, d', at, ino, ftype, name);
          return d', Ok(true), at;
        }
      }
      at := at + 1;
    }
  }

  lemma WholeUpdate(d: Listing, bs: nat, l: nat, k: Block)
    requires Whole(d, bs) && l < |d| && WholeBlock(k, bs)
    ensures Whole(d[l := Data(k)], bs)
  {
    hide WholeBlock;
  }

  /** A record put into a block changes the answer for its own name alone. */
  lemma PlacedAnswers(d: Listing, d': Listing, l: nat, ino: nat, ftype: byte, name: Name, n: Name)
    requires PlacedIn(d, d', l, ino, ftype, name) && Ask(d, name) == Absent
    ensures Ask(d', n) == if n == name then Found(ino, ftype) else Ask(d, n)
    ensures Count(d', n) == Count(d, n) + if n == name then 1 else 0
  {
    hide All, Search, Matches, Shared, Need, Room, Recs;
    var recs := Recs(d[l].block, 0);
    var i := Room(recs, Need(|name|));
    var a, r, b := All(d[..l]) + recs[..i], recs[i], recs[i + 1..] + All(d[l + 1..]);
    AllAround(d, l, d'[l]);
    PlacedRegroup(All(d[..l]), recs, i, [recs[i]], All(d[l + 1..]));
    PlacedRegroup(All(d[..l]), recs, i, Shared(r, ino, ftype, name), All(d[l + 1..]));
    assert recs == recs[..i] + [recs[i]] + recs[i + 1..];
    AddedAnswers(a, r, b, ino, ftype, name, n);
  }

  lemma PlacedRegroup(p: seq<Rec>, recs: seq<Rec>, i: nat, m: seq<Rec>, q: seq<Rec>)
    requires i < |recs|
    ensures p + (recs[..i] + m + recs[i + 1..]) + q == (p + recs[..i]) + m + (recs[i + 1..] + q)
  {
  }

  lemma PlacedHeads(recs: seq<Rec>, self: nat, i: nat, ino: nat, ftype: byte, name: Name)
    requires Heads(recs, self) && i < |recs| && Spare(recs[i]) >= Need(|name|)
    ensures Heads(Placed(recs, i, ino, ftype, name), self)
  {
    assert i > 0;
  }

  lemma PlacedOrderly(d: Listing, d': Listing, self: nat, bs: nat, l: nat, ino: nat, ftype: byte, name: Name)
    requires Orderly(d, self, bs) && PlacedIn(d, d', l, ino, ftype, name) && Ask(d, name) == Absent && Whole(d', bs)
    ensures Orderly(d', self, bs) && Ask(d', name) == Found(ino, ftype) && Alike(d, d', name)
  {
    hide All, Search, Matches, Placed, Need, Recs, Count, Ask;
    if l == 0 {
      PlacedHeads(Recs(d[0].block, 0), self, Room(Recs(d[0].block, 0), Need(|name|)), ino, ftype, name);
    }
    forall n: Name ensures Count(d', n) <= 1 && (n != name ==> Ask(d', n) == Ask(d, n)) {
      PlacedAnswers(d, d', l, ino, ftype, name, n);
      CountNone(d, name);
    }
    PlacedAnswers(d, d', l, ino, ftype, name, name);
  }

  lemma CountNone(d: Listing, n: Name)
    ensures Ask(d, n) == Absent <==> Count(d, n) == 0
  {
    SearchMatches(All(d), n);
  }

  /** A new block at the end that holds just the new record. */
  lemma AppendedOrderly(d: Listing, k: Block, self: nat, bs: nat, ino: nat, ftype: byte, name: Name)
    requires Orderly(d, self, bs) && Ask(d, name) == Absent && |k| == bs && Tiles(k, 0, [Live(bs, ino, ftype, name)])
    ensures Orderly(d + [Data(k)], self, bs)
    ensures Ask(d + [Data(k)], name) == Found(ino, ftype) && Alike(d, d + [Data(k)], name)
  {
    hide All, Search, Matches, Need, Recs, Count, Ask, Tiles;
    var d', r := d + [Data(k)], Live(bs, ino, ftype, name);
    OneTiling(k, 0, [r]);
    ThenTiled(k, [r]);
    WholeAppend(d, bs, k);
    forall n: Name ensures Count(d', n) <= 1 && (n != name ==> Ask(d', n) == Ask(d, n)) {
      AppendedAnswers(d, k, r, n);
      CountNone(d, name);
    }
    AppendedAnswers(d, k, r, name);
  }

  lemma WholeAppend(d: Listing, bs: nat, k: Block)
    requires Whole(d, bs) && |k| == bs && Tiled(k)
    ensures Whole(d + [Data(k)], bs)
  {
    hide Tiled;
  }

  lemma AppendedAnswers(d: Listing, k: Block, r: Rec, n: Name)
    requires Recs(k, 0) == [r] && r.Live?
    ensures Ask(d + [Data(k)], n) == if Ask(d, n) == Absent && n == r.name then Found(r.ino, r.ftype) else Ask(d, n)
    ensures Count(d + [Data(k)], n) == Count(d, n) + if n == r.name then 1 else 0
  {
    hide All, Search, Matches, Recs;
    AllAppend(d, [Data(k)]);
    AllOne(Data(k));
    SearchAppend(All(d), [r], n);
    OneRec(r, n);
  }

  // ---------------------------------------------------------------- removing a name

  /** The listing with block `l` rewritten to drop the first record of that name. */
  ghost predicate TakenIn(d: Listing, d': Listing, l: nat, name: Name)
  {
    && l < |d| == |d'| && d[l].Data? && d'[l].Data? && d' == d[l := d'[l]]
    && Position(Recs(d[l].block, 0), name) < |Recs(d[l].block, 0)|
    && Recs(d'[l].block, 0) == Erased(Recs(d[l].block, 0), Position(Recs(d[l].block, 0), name))
  }

  /** The block loop of dir_remove (kernel/src/ext2.rs:1027-1062). */
  method TakeFrom(d: Listing, name: Name, bad: set<nat>, ghost bs: nat) returns (d': Listing, r: Result<nat, Error>)
    requires Whole(d, bs) && bs < 0x1_0000 && IsName(name)
    ensures Whole(d', bs) && (r.Err? ==> d' == d)
    ensures r.Ok? ==> TakenIn(d, d', r.value, name)
    ensures r.Err? && r.error != IoError ==> r.error == NoEntry && Ask(d, name) == Absent
    ensures bad == {} ==> r != Err(IoError)
  {
    var l := 0;
    assert d[..0] == [];
    while l < |d|
      invariant l <= |d| && Search(All(d[..l]), name) == Absent
    {
      hide Tiled, All, Search, Recs, IsName, Position, Erased;
      if d[l].Data? {
        if l in bad { return d, Err(IoError); }
        assert WholeBlock(d[l].block, bs);
        var k, taken := TakeFromBlock(d[l].block, name);
        if taken {
          d' := d[l := Data(k)];
          WholeUpdate(d, bs, l, k);
          return d', Ok(l);
        }
        PositionNone(Recs(d[l].block, 0), name);
      }
      ScanStep(d, l, name);
      PartNone(d[l], name);
      l := l + 1;
    }
    assert d[..l] == d;
    return d, Err(NoEntry);
  }

  lemma PositionNone(recs: seq<Rec>, name: Name)
    requires Position(recs, name) >= |recs|
    ensures Search(recs, name) == Absent
  {
    SearchMatches(recs, name);
  }

  /** A record taken out of a block changes the answer for its own name alone. */
  lemma TakenAnswers(d: Listing, d': Listing, l: nat, name: Name, n: Name)
    requires TakenIn(d, d', l, name) && Count(d, name) == 1
    ensures Ask(d', n) == if n == name then Absent else Ask(d, n)
    ensures Count(d', n) == if n == name then 0 else Count(d, n)
  {
    hide All, Search, Matches, Recs, Position, Relengthed;
    var recs := Recs(d[l].block, 0);
    var i := Position(recs, name);
    var c := if i == 0 then 0 else i - 1;
    var a, m, b := All(d[..l]) + recs[..c], recs[c..i + 1], recs[i + 1..] + All(d[l + 1..]);
    AllAround(d, l, d'[l]);
    TakenRegroup(All(d[..l]), recs, c, i, m, All(d[l + 1..]));
    TakenRegroup(All(d[..l]), recs, c, i, Merged(recs, i), All(d[l + 1..]));
    assert recs == recs[..c] + m + recs[i + 1..];
    MergedAnswers(recs, name);
    RemovedAnswers(a, m, Merged(recs, i), b, name, n);
  }

  lemma TakenRegroup(p: seq<Rec>, recs: seq<Rec>, c: nat, i: nat, m: seq<Rec>, q: seq<Rec>)
    requires c <= i < |recs|
    ensures p + (recs[..c] + m + recs[i + 1..]) + q == (p + recs[..c]) + m + (recs[i + 1..] + q)
  {
  }

  /** The merged record answers as the two did, without the taken name. */
  lemma MergedAnswers(recs: seq<Rec>, name: Name)
    requires Position(recs, name) < |recs|
    ensures var i := Position(recs, name);
            var m := recs[if i == 0 then 0 else i - 1..i + 1];
            Matches(m, name) == 1 && Matches(Merged(recs, i), name) == 0
            && forall x: Name :: x != name ==> Search(Merged(recs, i), x) == Search(m, x)
                                               && Matches(Merged(recs, i), x) == Matches(m, x)
  {
    hide Search, Matches, Position;
    var i := Position(recs, name);
    var m := recs[if i == 0 then 0 else i - 1..i + 1];
    forall x: Name
      ensures Matches(m, x) == (if i > 0 && recs[i - 1].Live? && recs[i - 1].name == x then 1 else 0) + if x == name then 1 else 0
      ensures Search(m, x) == if i > 0 && recs[i - 1].Live? && recs[i - 1].name == x then Found(recs[i - 1].ino, recs[i - 1].ftype)
                              else if x == name then Found(recs[i].ino, recs[i].ftype) else Absent
    {
      OneRec(recs[i], x);
      if i == 0 {
        assert m == [recs[0]];
      } else {
        assert m == [recs[i - 1]] + [recs[i]];
        SearchAppend([recs[i - 1]], [recs[i]], x);
        OneRec(recs[i - 1], x);
      }
    }
    if i > 0 { PositionFirst(recs, name, i - 1); }
    forall x: Name
      ensures Matches(Merged(recs, i), x) == if i > 0 && recs[i - 1].Live? && recs[i - 1].name == x then 1 else 0
      ensures Search(Merged(recs, i), x) == if i > 0 && recs[i - 1].Live? && recs[i - 1].name == x
                                            then Found(recs[i - 1].ino, recs[i - 1].ftype) else Absent
    {
      OneRec(Merged(recs, i)[0], x);
    }
  }

  lemma {:induction false} PositionFirst(recs: seq<Rec>, name: Name, j: nat)
    requires j < Position(recs, name)
    ensures j < |recs| && !(recs[j].Live? && recs[j].name == name)
  {
    if j > 0 { PositionFirst(recs[1..], name, j - 1); }
  }

  lemma TakenHeads(recs: seq<Rec>, self: nat, name: Name)
    requires Heads(recs, self) && Position(recs, name) < |recs| && name != DOT && name != DOTDOT
    ensures Heads(Erased(recs, Position(recs, name)), self)
  {
    assert Position(recs, name) >= 2;
  }

  lemma TakenOrderly(d: Listing, d': Listing, self: nat, bs: nat, l: nat, name: Name)
    requires Orderly(d, self, bs) && TakenIn(d, d', l, name) && Whole(d', bs) && name != DOT && name != DOTDOT
    ensures Orderly(d', self, bs) && Ask(d, name) != Absent && Ask(d', name) == Absent && Alike(d, d', name)
  {
    hide All, Search, Matches, Need, Recs, Count, Ask, Erased, Position;
    if l == 0 {
      TakenHeads(Recs(d[0].block, 0), self, name);
    }
    TakenPresent(d, d', l, name);
    forall n: Name ensures Count(d', n) <= 1 && (n != name ==> Ask(d', n) == Ask(d, n)) {
      TakenAnswers(d, d', l, name, n);
    }
    TakenAnswers(d, d', l, name, name);
    CountNone(d, name);
  }

  lemma TakenPresent(d: Listing, d': Listing, l: nat, name: Name)
    requires TakenIn(d, d', l, name) && Count(d, name) <= 1
    ensures Count(d, name) == 1
  {
    hide All, Search, Matches, Recs, Erased;
    var recs := Recs(d[l].block, 0);
    AllAround(d, l, d[l]);
    SearchAppend(All(d[..l]) + recs, All(d[l + 1..]), name);
    SearchAppend(All(d[..l]), recs, name);
  }

  // ---------------------------------------------------------------- new directories and ".."

  /** A block holding one record. */
  lemma OneRecordBlock(raw: Block, ino: nat, ftype: byte, name: Name)
    requires Need(MAX_NAME) <= |raw| < 0x1_0000 && IsName(name) && 0 < ino < 0x1_0000_0000
    ensures Tiles(Dirent(raw, 0, ino, |raw|, name, ftype), 0, [Live(|raw|, ino, ftype, name)])
  {
    var k := Dirent(raw, 0, ino, |raw|, name, ftype);
    hide Tiles, RecAt, Dirent, Fits, Span;
    DirentThere(raw, 0, ino, |raw|, name, ftype);
    FitsOne(k, 0, Live(|raw|, ino, ftype, name));
    SpanOne(Live(|raw|, ino, ftype, name));
    TilesIs(k, [Live(|raw|, ino, ftype, name)]);
  }

  lemma TilesIs(k: Block, recs: seq<Rec>)
    requires Fits(k, 0, recs) && Span(recs) == |k|
    ensures Tiles(k, 0, recs)
  {
  }

  /** The block mkdir writes (kernel/src/ext2.rs:1292-1297). */
  function FreshBlock(raw: Block, self: nat, parent: nat): (k: Block)
    requires Need(MAX_NAME) <= |raw| < 0x1_0000 && self < 0x1_0000_0000 && parent < 0x1_0000_0000
    ensures |k| == |raw|
  {
    Dirent(Dirent(raw, 0, self, 12, DOT, FT_DIR), 12, parent, |raw| - 12, DOTDOT, FT_DIR)
  }

  function FreshRecs(bs: nat, self: nat, parent: nat): seq<Rec>
    requires bs > 12
  {
    [Live(12, self, FT_DIR, DOT), Live(bs - 12, parent, FT_DIR, DOTDOT)]
  }

  lemma FreshTiles(raw: Block, self: nat, parent: nat)
    requires Need(MAX_NAME) <= |raw| < 0x1_0000 && 0 < self < 0x1_0000_0000 && 0 < parent < 0x1_0000_0000
    ensures Tiles(FreshBlock(raw, self, parent), 0, FreshRecs(|raw|, self, parent))
  {
    var bs := |raw|;
    var k1 := Dirent(raw, 0, self, 12, DOT, FT_DIR);
    var k := Dirent(k1, 12, parent, bs - 12, DOTDOT, FT_DIR);
    var q, r := Live(12, self, FT_DIR, DOT), Live(bs - 12, parent, FT_DIR, DOTDOT);
    hide Tiles, RecAt, Dirent, Fits, Span;
    DirentThere(raw, 0, self, 12, DOT, FT_DIR);
    DirentThere(k1, 12, parent, bs - 12, DOTDOT, FT_DIR);
    RecSame(k1, k, 0, q);
    FitsTwo(k, 0, q, r);
    SpanTwo(q, r);
    TilesIs(k, [q, r]);
  }

  lemma FreshAnswers(bs: nat, self: nat, parent: nat, n: Name)
    requires bs > 12
    ensures Search(FreshRecs(bs, self, parent), n) ==
            if n == DOT then Found(self, FT_DIR) else if n == DOTDOT then Found(parent, FT_DIR) else Absent
    ensures Matches(FreshRecs(bs, self, parent), n) <= 1
  {
    var recs := FreshRecs(bs, self, parent);
    assert recs == [recs[0]] + [recs[1]];
    SearchAppend([recs[0]], [recs[1]], n);
    OneRec(recs[0], n);
    OneRec(recs[1], n);
  }

  /** A new directory is in good order and holds "." and ".." only. */
  lemma FreshOrderly(raw: Block, self: nat, parent: nat)
    requires Need(MAX_NAME) <= |raw| < 0x1_0000 && 0 < self < 0x1_0000_0000 && 0 < parent < 0x1_0000_0000
    ensures Orderly([Data(FreshBlock(raw, self, parent))], self, |raw|)
    ensures forall n: Name :: Ask([Data(FreshBlock(raw, self, parent))], n) ==
                              if n == DOT then Found(self, FT_DIR) else if n == DOTDOT then Found(parent, FT_DIR) else Absent
  {
    var k := FreshBlock(raw, self, parent);
    var d := [Data(k)];
    hide All, Tiles, Recs, Search, Matches, FreshBlock;
    FreshTiles(raw, self, parent);
    OneTiling(k, 0, FreshRecs(|raw|, self, parent));
    ThenTiled(k, FreshRecs(|raw|, self, parent));
    AllOne(d[0]);
    assert All(d) == FreshRecs(|raw|, self, parent);
    forall n: Name
      ensures Count(d, n) <= 1
      ensures Ask(d, n) == if n == DOT then Found(self, FT_DIR) else if n == DOTDOT then Found(parent, FT_DIR) else Absent
    {
      FreshAnswers(|raw|, self, parent, n);
    }
  }

  /** The block with another inode number in the record at `off`. */
  function Retargeted(k: Block, off: nat, ino: nat): (r: Block)
    requires off + HEADER <= |k| && ino < 0x1_0000_0000
    ensures |r| == |k|
  {
    Spliced(k, off, Bytes(ino))
  }

  lemma RetargetedFields(k: Block, off: nat, ino: nat)
    requires off + HEADER <= |k| && ino < 0x1_0000_0000
    ensures var r := Retargeted(k, off, ino);
            InoAt(r, off) == ino && LenAt(r, off) == LenAt(k, off)
            && forall i :: 0 <= i < |k| && !(off <= i < off + 4) ==> r[i] == k[i]
  {
    hide Bytes, Word;
    var r := Retargeted(k, off, ino);
    var bytes := Bytes(ino);
    assert r[off] == bytes[0] && r[off + 1] == bytes[1] && r[off + 2] == bytes[2] && r[off + 3] == bytes[3];
    assert InoAt(r, off) == Word(r[off], r[off + 1], r[off + 2], r[off + 3]);
  }

  lemma RetargetedRec(k: Block, off: nat, r: Rec, ino: nat)
    requires RecAt(k, off, r) && r.Live? && 0 < ino < 0x1_0000_0000
    ensures off + HEADER <= |k| && RecAt(Retargeted(k, off, ino), off, r.(ino := ino))
    ensures Same(k, Retargeted(k, off, ino), 0, off) && Same(k, Retargeted(k, off, ino), off + r.len, |k|)
  {
    hide Retargeted, InoAt, LenAt;
    RetargetedFields(k, off, ino);
    var k' := Retargeted(k, off, ino);
    assert k'[off + HEADER..off + HEADER + |r.name|] == k[off + HEADER..off + HEADER + |r.name|];
  }

  lemma RetargetedTiles(k: Block, a: seq<Rec>, r: Rec, b: seq<Rec>, ino: nat)
    requires Tiles(k, 0, a + [r] + b) && r.Live? && 0 < ino < 0x1_0000_0000
    ensures Span(a) + HEADER <= |k| && Tiles(Retargeted(k, Span(a), ino), 0, a + [r.(ino := ino)] + b)
  {
    hide Tiles, RecAt, Fits, Span, Retargeted, Same;
    TilesParts(k, a, [r], b);
    FitsOne(k, Span(a), r);
    RetargetedRec(k, Span(a), r, ino);
    SpanOne(r);
    SpanOne(r.(ino := ino));
    FitsOne(Retargeted(k, Span(a), ino), Span(a), r.(ino := ino));
    TilesReplace(k, Retargeted(k, Span(a), ino), a, [r], [r.(ino := ino)], b);
  }

  /** set_dotdot (kernel/src/ext2.rs:1075-1085): the second record of the first block gets another inode number. */
  method Redirect(d: Listing, self: nat, parent: nat, ghost bs: nat) returns (d': Listing)
    requires Orderly(d, self, bs) && 0 < parent < 0x1_0000_0000
    ensures Orderly(d', self, bs) && Ask(d', DOTDOT) == Found(parent, FT_DIR) && Alike(d, d', DOTDOT)
  {
    hide *;
    SecondRec(d, self, bs);
    var k := d[0].block;
    var rec := LenAt(k, 0);
    d' := d[0 := Data(Retargeted(k, rec, parent))];
    RedirectOrderly(d, self, parent, bs);
  }

  lemma SecondRec(d: Listing, self: nat, bs: nat)
    requires Orderly(d, self, bs)
    ensures |d| > 0 && d[0].Data? && HEADER <= |d[0].block| == bs && LenAt(d[0].block, 0) == 12 && 12 + HEADER <= bs
    ensures var recs := Recs(d[0].block, 0);
            Heads(recs, self) && recs == [recs[0]] + [recs[1]] + recs[2..] && Tiles(d[0].block, 0, recs) && Span([recs[0]]) == 12
  {
    hide Fits, Span, Unique, Tiles, Recs, RecAt;
    var k := d[0].block;
    assert WholeBlock(k, bs);
    var recs := Recs(k, 0);
    var q, r := recs[0], recs[1];
    assert recs == [q] + [r] + recs[2..];
    TilesParts(k, [q], [r], recs[2..]);
    FitsOne(k, 0, q);
    TiledRec(k, 0, q);
    SpanOne(q);
    FitsOne(k, 12, r);
    TiledRec(k, 12, r);
  }

  lemma RedirectOrderly(d: Listing, self: nat, parent: nat, bs: nat)
    requires Orderly(d, self, bs) && 0 < parent < 0x1_0000_0000 && |d| > 0 && d[0].Data? && 12 + HEADER <= |d[0].block|
    ensures var d' := d[0 := Data(Retargeted(d[0].block, 12, parent))];
            Orderly(d', self, bs) && Ask(d', DOTDOT) == Found(parent, FT_DIR) && Alike(d, d', DOTDOT)
  {
    hide All, Search, Matches, Recs, Tiles, Span, Retargeted;
    SecondRec(d, self, bs);
    var k, recs := d[0].block, Recs(d[0].block, 0);
    var k' := Retargeted(k, 12, parent);
    var d' := d[0 := Data(k')];
    var q, r, b := recs[0], recs[1], recs[2..];
    RetargetedTiles(k, [q], r, b, parent);
    var r' := r.(ino := parent);
    OneTiling(k', 0, [q] + [r'] + b);
    ThenTiled(k', [q] + [r'] + b);
    assert Whole(d', bs) by { WholeUpdate(d, bs, 0, k'); }
    assert Heads([q] + [r'] + b, self);
    forall n: Name
      ensures Count(d', n) <= 1 && (n != DOTDOT ==> Ask(d', n) == Ask(d, n))
      ensures n == DOTDOT ==> Ask(d', n) == Found(parent, FT_DIR)
    {
      RedirectAnswers(d, k', q, r, parent, b, n);
    }
  }

  lemma RedirectAnswers(d: Listing, k': Block, q: Rec, r: Rec, parent: nat, b: seq<Rec>, n: Name)
    requires |d| > 0 && r.Live? && Part(d[0]) == [q] + [r] + b && Recs(k', 0) == [q] + [r.(ino := parent)] + b
    requires q.Live? && q.name != r.name
    ensures Count(d[0 := Data(k')], n) == Count(d, n)
    ensures n != r.name ==> Ask(d[0 := Data(k')], n) == Ask(d, n)
    ensures n == r.name ==> Ask(d[0 := Data(k')], n) == Found(parent, r.ftype)
  {
    hide All, Search, Matches, Recs;
    var r', rest := r.(ino := parent), All(d[1..]);
    AllAround(d, 0, Data(k'));
    assert All(d[..0]) == [] by { assert d[..0] == []; AllNone(); }
    assert All(d) == [q] + [r] + b + rest && All(d[0 := Data(k')]) == [q] + [r'] + b + rest;
    assert [q] + [r] + b + rest == [q] + ([r] + (b + rest)) && [q] + [r'] + b + rest == [q] + ([r'] + (b + rest));
    SearchAppend([q], [r] + (b + rest), n);
    SearchAppend([q], [r'] + (b + rest), n);
    SearchAppend([r], b + rest, n);
    SearchAppend([r'], b + rest, n);
    OneRec(q, n);
    OneRec(r, n);
    OneRec(r', n);
  }

  lemma AllNone()
    ensures All([]) == []
  {
  }

  // ---------------------------------------------------------------- readdir

  /** The live records, in order. */
  function Lives(recs: seq<Rec>): seq<Rec>
  {
    if recs == [] then [] else if recs[0].Live? then [recs[0]] + Lives(recs[1..]) else Lives(recs[1..])
  }

  /** The records from byte `off` of block `l` on. */
  function Left(d: Listing, l: nat, off: nat): seq<Rec>
  {
    if l >= |d| then [] else if d[l].Hole? then All(d[l + 1..]) else Recs(d[l].block, off) + All(d[l + 1..])
  }

  /** A position at which a record or a block starts. */
  ghost predicate Boundary(d: Listing, l: nat, off: nat)
  {
    && l <= |d| && (l == |d| || d[l].Hole? ==> off == 0)
    && (l < |d| && d[l].Data? ==> off < |d[l].block| && Tiles(d[l].block, off, Recs(d[l].block, off)))
  }

  datatype Entry = End | Next(rec: Rec)

  /** readdir (kernel/src/ext2.rs:886-913); a position is a block and an offset in it. */
  method Readdir(d: Listing, l0: nat, off0: nat, bad: set<nat>, ghost bs: nat) returns (r: Result<Entry, Error>, l: nat, off: nat)
    requires Whole(d, bs) && bs > 0 && Boundary(d, l0, off0)
    ensures bad == {} ==> r.Ok?
    ensures r == Ok(End) ==> Lives(Left(d, l0, off0)) == []
    ensures r.Ok? && r.value.Next? ==>
              Boundary(d, l, off) && Lives(Left(d, l0, off0)) == [r.value.rec] + Lives(Left(d, l, off)) && r.value.rec.Live?
    ensures r.Ok? && r.value.Next? ==> |Left(d, l, off)| < |Left(d, l0, off0)|
  {
    hide *;
    l, off := l0, off0;
    ReachedAt(d, l0, off0, l, off);
    while l < |d|
      invariant Reached(d, l0, off0, l, off)
      decreases |Left(d, l, off)|, |d| - l
    {
      ReachedIn(d, l0, off0, l, off);
      if d[l].Hole? {
        HoleStep(d, l, off, bs);
        l, off := l + 1, 0;
        ReachedAt(d, l0, off0, l, off);
        continue;
      }
      if l in bad { return Err(IoError), l, off; }
      LeftStep(d, l, off, bs);
      var rec, to := RecOf(d[l].block, off), off + LenAt(d[l].block, off);
      l, off := if to == |d[l].block| then l + 1 else l, if to == |d[l].block| then 0 else to;
      if rec.Live? { return Ok(Next(rec)), l, off; }
      ReachedAt(d, l0, off0, l, off);
    }
    ReachedIn(d, l0, off0, l, off);
    LeftNone(d, l, off);
    return Ok(End), l, off;
  }

  /** Only gaps lie between two positions. */
  ghost predicate Reached(d: Listing, l0: nat, off0: nat, l: nat, off: nat)
  {
    Boundary(d, l, off) && Lives(Left(d, l, off)) == Lives(Left(d, l0, off0)) && |Left(d, l, off)| <= |Left(d, l0, off0)|
  }

  lemma ReachedIn(d: Listing, l0: nat, off0: nat, l: nat, off: nat)
    requires Reached(d, l0, off0, l, off)
    ensures Boundary(d, l, off) && Lives(Left(d, l, off)) == Lives(Left(d, l0, off0)) && |Left(d, l, off)| <= |Left(d, l0, off0)|
  {
  }

  lemma ReachedAt(d: Listing, l0: nat, off0: nat, l: nat, off: nat)
    requires Boundary(d, l, off) && Lives(Left(d, l, off)) == Lives(Left(d, l0, off0)) && |Left(d, l, off)| <= |Left(d, l0, off0)|
    ensures Reached(d, l0, off0, l, off)
  {
  }

  lemma LeftNone(d: Listing, l: nat, off: nat)
    requires l >= |d|
    ensures Lives(Left(d, l, off)) == []
  {
  }

  lemma HoleStep(d: Listing, l: nat, off: nat, bs: nat)
    requires l < |d| && d[l].Hole? && Whole(d, bs) && bs > 0
    ensures Boundary(d, l + 1, 0) && Left(d, l + 1, 0) == Left(d, l, off)
  {
    NextBlock(d, l + 1, bs);
  }

  /** The start of a block is a position from which all later blocks are left. */
  lemma NextBlock(d: Listing, l: nat, bs: nat)
    requires l <= |d| && Whole(d, bs) && bs > 0
    ensures Boundary(d, l, 0) && Left(d, l, 0) == All(d[l..])
  {
    hide Tiles, Recs;
    if l < |d| {
      if d[l].Data? { assert WholeBlock(d[l].block, bs); }
      assert d[l..][0] == d[l] && d[l..][1..] == d[l + 1..];
    }
  }

  /** Reading one record. */
  lemma LeftStep(d: Listing, l: nat, off: nat, bs: nat)
    requires Boundary(d, l, off) && l < |d| && d[l].Data? && Whole(d, bs) && bs > 0
    ensures |d[l].block| == bs && off + HEADER <= bs && HEADER <= LenAt(d[l].block, off) <= bs - off
    ensures var rec, to := RecOf(d[l].block, off), off + LenAt(d[l].block, off);
            var m, o := if to == bs then l + 1 else l, if to == bs then 0 else to;
            Boundary(d, m, o) && |Left(d, m, o)| < |Left(d, l, off)|
            && Lives(Left(d, l, off)) == (if rec.Live? then [rec] else []) + Lives(Left(d, m, o))
  {
    hide All, Lives, Fits, RecAt, RecOf, LenAt, Recs;
    var k := d[l].block;
    assert WholeBlock(k, bs);
    var recs := Recs(k, off);
    FirstOf(k, off, recs);
    OneTiling(k, off + recs[0].len, recs[1..]);
    assert Left(d, l, off) == [recs[0]] + (recs[1..] + All(d[l + 1..]));
    LivesHead(recs[0], recs[1..] + All(d[l + 1..]));
    if off + recs[0].len == bs {
      SpanZero(k, recs[1..]);
      assert recs[1..] + All(d[l + 1..]) == All(d[l + 1..]);
      NextBlock(d, l + 1, bs);
    }
  }

  lemma LivesHead(r: Rec, rest: seq<Rec>)
    ensures Lives([r] + rest) == (if r.Live? then [r] else []) + Lives(rest)
  {
    assert ([r] + rest)[1..] == rest;
  }

  lemma SpanZero(k: Block, recs: seq<Rec>)
    requires Tiles(k, |k|, recs)
    ensures recs == []
  {
  }

  lemma FirstOf(k: Block, off: nat, recs: seq<Rec>)
    requires Tiles(k, off, recs) && off < |k|
    ensures recs != [] && off + HEADER <= |k| && RecOf(k, off) == recs[0] && LenAt(k, off) == recs[0].len
    ensures HEADER <= recs[0].len <= |k| - off && Tiles(k, off + recs[0].len, recs[1..])
  {
    hide RecAt;
    TiledRec(k, off, recs[0]);
    RecLarge(k, off, recs[0]);
  }

  /** No live names but "." and "..". */
  ghost predicate OnlyDots(recs: seq<Rec>)
  {
    forall i :: 0 <= i < |recs| ==> recs[i].Live? ==> recs[i].name == DOT || recs[i].name == DOTDOT
  }

  lemma {:induction false} OnlyDotsAnswers(recs: seq<Rec>)
    ensures OnlyDots(recs) <==> forall n: Name :: n != DOT && n != DOTDOT ==> Search(recs, n) == Absent
  {
    if recs != [] {
      OnlyDotsAnswers(recs[1..]);
      assert recs == [recs[0]] + recs[1..];
      DotsOf(recs[0]);
      assert OnlyDots(recs) <==> OnlyDots([recs[0]]) && OnlyDots(recs[1..]) by { OnlyDotsAppend(recs[0], recs[1..]); }
      if recs[0].Live? && recs[0].name != DOT && recs[0].name != DOTDOT {
        assert Search(recs, recs[0].name) != Absent;
      }
      if OnlyDots(recs) {
        forall n: Name | n != DOT && n != DOTDOT ensures Search(recs, n) == Absent {
          assert Search(recs[1..], n) == Absent;
        }
      }
      if !OnlyDots(recs[1..]) {
        var n: Name :| n != DOT && n != DOTDOT && Search(recs[1..], n) != Absent;
        assert Search(recs, n) != Absent;
      }
    }
  }

  lemma DotsOf(r: Rec)
    ensures OnlyDots([r]) <==> (r.Live? ==> r.name == DOT || r.name == DOTDOT)
  {
    assert [r][0] == r;
  }

  lemma OnlyDotsAppend(r: Rec, rest: seq<Rec>)
    ensures OnlyDots([r] + rest) <==> OnlyDots([r]) && OnlyDots(rest)
  {
    assert ([r] + rest)[0] == r;
    assert forall i :: 0 <= i < |rest| ==> ([r] + rest)[i + 1] == rest[i];
    if OnlyDots([r] + rest) {
      assert forall i :: 0 <= i < |rest| ==> rest[i] == ([r] + rest)[i + 1];
    }
  }

  lemma {:induction false} OnlyDotsLives(recs: seq<Rec>)
    ensures OnlyDots(Lives(recs)) <==> OnlyDots(recs)
  {
    if recs != [] {
      OnlyDotsLives(recs[1..]);
      assert recs == [recs[0]] + recs[1..];
      OnlyDotsAppend(recs[0], recs[1..]);
      if recs[0].Live? { OnlyDotsAppend(recs[0], Lives(recs[1..])); }
    }
  }

  /** dir_is_empty (kernel/src/ext2.rs:1064-1071): no name but "." and ".." is found. */
  method IsEmpty(d: Listing, bad: set<nat>, ghost bs: nat) returns (r: Result<bool, Error>)
    requires Whole(d, bs) && bs > 0
    ensures bad == {} ==> r.Ok?
    ensures r.Ok? ==> (r.value <==> Empty(d))
  {
    hide *;
    var l, off := 0, 0;
    EmptyStart(d, bs);
    while true
      invariant EmptySoFar(d, l, off)
      decreases |Left(d, l, off)|
    {
      EmptyStep(d, l, off);
      var entry, l', off' := Readdir(d, l, off, bad, bs);
      if entry.Err? { return Err(entry.error); }
      if entry.value.End? { return Ok(true); }
      EmptyNext(d, l, off, entry.value.rec, l', off');
      if entry.value.rec.name != DOT && entry.value.rec.name != DOTDOT { return Ok(false); }
      l, off := l', off';
    }
  }

  /** No name is found in `d` but "." and "..". */
  ghost predicate Empty(d: Listing)
  {
    forall n: Name :: n != DOT && n != DOTDOT ==> Ask(d, n) == Absent
  }

  /** Whether the directory is empty hangs on the records still to be read. */
  ghost predicate EmptySoFar(d: Listing, l: nat, off: nat)
  {
    Boundary(d, l, off) && (Empty(d) <==> OnlyDots(Lives(Left(d, l, off))))
  }

  lemma EmptyStart(d: Listing, bs: nat)
    requires Whole(d, bs) && bs > 0
    ensures EmptySoFar(d, 0, 0)
  {
    hide All, Lives, Search, OnlyDots, Left, Boundary, Empty;
    NextBlock(d, 0, bs);
    assert d[0..] == d;
    OnlyDotsLives(All(d));
    EmptyMeans(d);
  }

  lemma EmptyMeans(d: Listing)
    ensures Empty(d) <==> OnlyDots(All(d))
  {
    hide All, Search, OnlyDots;
    OnlyDotsAnswers(All(d));
    if Empty(d) {
      forall n: Name | n != DOT && n != DOTDOT ensures Search(All(d), n) == Absent {
        assert Ask(d, n) == Absent;
      }
    }
    if OnlyDots(All(d)) {
      forall n: Name | n != DOT && n != DOTDOT ensures Ask(d, n) == Absent {
        assert Search(All(d), n) == Absent;
      }
    }
  }

  lemma EmptyStep(d: Listing, l: nat, off: nat)
    requires EmptySoFar(d, l, off)
    ensures Boundary(d, l, off) && (Lives(Left(d, l, off)) == [] ==> Empty(d))
  {
  }

  lemma EmptyNext(d: Listing, l: nat, off: nat, r: Rec, l': nat, off': nat)
    requires EmptySoFar(d, l, off) && Boundary(d, l', off') && r.Live?
    requires Lives(Left(d, l, off)) == [r] + Lives(Left(d, l', off'))
    ensures if r.name == DOT || r.name == DOTDOT then EmptySoFar(d, l', off') else !Empty(d)
  {
    hide Lives, Left, Boundary, OnlyDots, Empty;
    OnlyDotsAppend(r, Lives(Left(d, l', off')));
    DotsOf(r);
  }
}
