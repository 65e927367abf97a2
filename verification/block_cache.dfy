/** The 8-way set-associative write-back block cache of the ext2 driver (kernel/src/ext2.rs:56-257)
    and the logical disk it presents: the cached contents of a block where there is a valid slot
    for it, the device's contents elsewhere. */
module BlockCache {
  import opened Basics

  const WAYS: nat := 8
  const SETS: nat := 2048
  const SLOTS: nat := 16384
  const MAX_SEGS: nat := 62
  const FLUSH_AT: nat := 256
  const U32: nat := 0x1_0000_0000
  const HASH: nat := 0x9E37_79B9

  type Block = seq<nat>

  datatype Slot = Slot(blk: nat, valid: bool, dirty: bool, used: nat)

  const BLANK := Slot(0, false, false, 0)

  datatype State = State(slots: seq<Slot>, data: seq<Block>, disk: seq<Block>)

  /** The set of slots a block may live in. */
  function SetOf(b: nat): (r: nat)
    ensures r < SETS
  {
    b * HASH / 256 % SETS
  }

  // ---------------------------------------------------------------- the hash spreads runs of blocks

  lemma SetOfResidue(x: nat, q: int, y: nat)
    requires x == 524288 * q + y && y < 524288
    ensures x / 256 % SETS == y / 256
  {
    assert x / 256 == 2048 * q + y / 256;
  }

  /** Any 62 consecutive blocks fall in pairwise distinct sets. */
  lemma DistinctSets(b: nat, k: nat)
    requires 1 <= k < MAX_SEGS
    ensures SetOf(b) != SetOf(b + k)
  {
    var x := b * HASH;
    var q, y := x / 524288, x % 524288;
    // HASH == 5063 * 524288 - 34375, and 34375 * k stays 277 or more away from multiples of 524288
    var wraps := if k <= 15 then 0 else if k <= 30 then 1 else if k <= 45 then 2 else 3;
    var r := 34375 * k - 524288 * wraps;
    assert 277 <= r <= 524288 - 277;
    var x' := (b + k) * HASH;
    assert x' == x + k * HASH;
    assert k * HASH == 524288 * (5063 * k - wraps) - r;
    SetOfResidue(x, q, y);
    if y >= r {
      SetOfResidue(x', q + 5063 * k - wraps, y - r);
    } else {
      SetOfResidue(x', q + 5063 * k - wraps - 1, y - r + 524288);
    }
  }

  // ---------------------------------------------------------------- invariant and logical view

  ghost predicate Holds(s: State, i: nat, b: nat)
  {
    i < |s.slots| && s.slots[i].valid && s.slots[i].blk == b
  }

  ghost predicate SlotOk(s: State, i: nat)
    requires i < |s.slots| == |s.data|
  {
    var t := s.slots[i];
    && (t.dirty ==> t.valid)
    && (t.valid ==> t.blk < U32 && SetOf(t.blk) == i / WAYS)
    && (t.valid && !t.dirty ==> t.blk < |s.disk| && s.data[i] == s.disk[t.blk])
  }

  /** Every valid slot sits in its set, no block has two, and clean ones agree with the device. */
  ghost predicate Inv(s: State)
  {
    && |s.slots| == |s.data| == SLOTS
    && (forall i :: 0 <= i < SLOTS ==> SlotOk(s, i))
    && (forall i, j :: 0 <= i < j < SLOTS && s.slots[i].valid && s.slots[j].valid ==> s.slots[i].blk != s.slots[j].blk)
  }

  ghost predicate Cached(s: State, b: nat)
  {
    exists i: nat :: Holds(s, i, b)
  }

  /** The contents of block `b` as the file system sees it. */
  ghost function Logical(s: State, b: nat): Block
    requires |s.slots| == |s.data|
  {
    if Cached(s, b) then (var i: nat :| Holds(s, i, b); s.data[i])
    else if b < |s.disk| then s.disk[b] else []
  }

  /** All of the `k` blocks from `b` on are cached. */
  ghost predicate AllCached(s: State, b: nat, k: nat)
  {
    forall x: nat :: b <= x < b + k ==> Cached(s, x)
  }

  lemma LogicalHit(s: State, i: nat, b: nat)
    requires Inv(s) && Holds(s, i, b)
    ensures Cached(s, b) && Logical(s, b) == s.data[i]
  {
    assert Cached(s, b);
    var j: nat :| Holds(s, j, b) && Logical(s, b) == s.data[j];
  }

  /** The two states present the same logical disk. */
  ghost predicate SameView(s: State, t: State)
    requires |s.slots| == |s.data| && |t.slots| == |t.data|
  {
    |s.disk| == |t.disk| && forall b: nat :: Logical(s, b) == Logical(t, b)
  }

  /** `t` presents `s` with block `b` replaced by `c`. */
  ghost predicate ViewWith(s: State, t: State, b: nat, c: Block)
    requires |s.slots| == |s.data| && |t.slots| == |t.data|
  {
    |s.disk| == |t.disk| && forall x: nat :: Logical(t, x) == if x == b then c else Logical(s, x)
  }

  /** A block can only be cached in the ways of its own set. */
  lemma CachedInSet(s: State, b: nat)
    requires Inv(s)
    ensures Cached(s, b) <==> exists i :: SetOf(b) * WAYS <= i < SetOf(b) * WAYS + WAYS && Holds(s, i, b)
  {
    if Cached(s, b) {
      var i: nat :| Holds(s, i, b);
      assert SlotOk(s, i);
    }
  }

  /** Only slot `v` and its buffer differ. */
  ghost predicate OneSlot(s: State, t: State, v: nat)
  {
    && |s.slots| == |s.data| == |t.slots| == |t.data| == SLOTS && v < SLOTS && t.disk == s.disk
    && t.slots == s.slots[v := t.slots[v]] && t.data == s.data[v := t.data[v]]
  }

  /** Emptying a slot that is not dirty is invisible. */
  lemma EvictClean(s: State, t: State, v: nat)
    requires Inv(s) && v < SLOTS && !s.slots[v].dirty
    requires OneSlot(s, t, v) && !t.slots[v].valid && !t.slots[v].dirty
    ensures Inv(t) && SameView(s, t)
  {
    forall i | 0 <= i < SLOTS ensures SlotOk(t, i) { assert SlotOk(s, i); }
    forall b: nat ensures Logical(s, b) == Logical(t, b) {
      if Cached(t, b) {
        var i: nat :| Holds(t, i, b);
        assert Holds(s, i, b);
        LogicalHit(s, i, b);
        LogicalHit(t, i, b);
      } else if Cached(s, b) {
        var i: nat :| Holds(s, i, b);
        assert i == v by { if i != v { assert Holds(t, i, b); } }
        LogicalHit(s, i, b);
        assert SlotOk(s, v);
      }
    }
  }

  /** Filling an empty slot with block `b`, which no slot holds. */
  lemma Install(s: State, t: State, v: nat, b: nat)
    requires Inv(s) && v < SLOTS && !s.slots[v].valid && !Cached(s, b)
    requires OneSlot(s, t, v)
    requires t.slots[v].valid && t.slots[v].blk == b && b < U32 && SetOf(b) == v / WAYS
    requires !t.slots[v].dirty ==> b < |t.disk| && t.data[v] == t.disk[b]
    ensures Inv(t) && Holds(t, v, b) && ViewWith(s, t, b, t.data[v])
  {
    forall i | 0 <= i < SLOTS ensures SlotOk(t, i) { assert SlotOk(s, i); }
    forall i, j | 0 <= i < j < SLOTS && t.slots[i].valid && t.slots[j].valid ensures t.slots[i].blk != t.slots[j].blk {
      assert i != v ==> !Holds(s, i, b);
      assert j != v ==> !Holds(s, j, b);
    }
    LogicalHit(t, v, b);
    forall x: nat ensures Logical(t, x) == if x == b then t.data[v] else Logical(s, x) {
      if x != b {
        if Cached(s, x) {
          var i: nat :| Holds(s, i, x);
          assert Holds(t, i, x);
          LogicalHit(s, i, x);
          LogicalHit(t, i, x);
        } else if Cached(t, x) {
          var i: nat :| Holds(t, i, x);
          assert Holds(s, i, x);
        }
      }
    }
  }

  /** New contents for a block that a slot holds, the slot marked dirty. */
  lemma Overwrite(s: State, t: State, v: nat, b: nat)
    requires Inv(s) && Holds(s, v, b) && v < SLOTS
    requires OneSlot(s, t, v)
    requires t.slots[v].valid && t.slots[v].dirty && t.slots[v].blk == b
    ensures Inv(t) && Holds(t, v, b) && ViewWith(s, t, b, t.data[v])
  {
    forall i | 0 <= i < SLOTS ensures SlotOk(t, i) { assert SlotOk(s, i); }
    LogicalHit(t, v, b);
    forall x: nat ensures Logical(t, x) == if x == b then t.data[v] else Logical(s, x) {
      if x != b {
        if Cached(s, x) {
          var i: nat :| Holds(s, i, x);
          assert Holds(t, i, x);
          LogicalHit(s, i, x);
          LogicalHit(t, i, x);
        } else if Cached(t, x) {
          var i: nat :| Holds(t, i, x);
          assert Holds(s, i, x);
        }
      }
    }
  }

  /** A write-back as it may leave the two: blocks held by dirty slots may hold anything on the device,
      and a slot may turn clean once its block is there. */
  ghost predicate WrittenBack(s: State, t: State)
  {
    && |s.slots| == |s.data| == |t.slots| == SLOTS && t.data == s.data && |t.disk| == |s.disk|
    && (forall i :: 0 <= i < SLOTS ==> t.slots[i] == s.slots[i] || Cleaned(s, t, i))
    && (forall b :: 0 <= b < |s.disk| ==> t.disk[b] == s.disk[b] || HeldDirty(s, b))
  }

  ghost predicate Cleaned(s: State, t: State, i: nat)
    requires i < |s.slots| == |s.data| == |t.slots|
  {
    && s.slots[i].dirty && t.slots[i] == s.slots[i].(dirty := false)
    && s.slots[i].blk < |t.disk| && t.disk[s.slots[i].blk] == s.data[i]
  }

  ghost predicate HeldDirty(s: State, b: nat)
  {
    exists i: nat :: Holds(s, i, b) && s.slots[i].dirty
  }

  /** Whatever a write-back does, even when it fails half way, it is invisible. */
  lemma WriteBackInvisible(s: State, t: State)
    requires Inv(s) && WrittenBack(s, t)
    ensures Inv(t) && SameView(s, t)
  {
    forall i | 0 <= i < SLOTS ensures SlotOk(t, i) {
      assert SlotOk(s, i);
      var b := s.slots[i].blk;
      assert s.slots[i].valid && !s.slots[i].dirty ==> !HeldDirty(s, b);
    }
    forall b: nat ensures Logical(s, b) == Logical(t, b) {
      if Cached(s, b) {
        var i: nat :| Holds(s, i, b);
        assert Holds(t, i, b);
        LogicalHit(s, i, b);
        LogicalHit(t, i, b);
      } else {
        if Cached(t, b) { var i: nat :| Holds(t, i, b); assert Holds(s, i, b); }
        assert !HeldDirty(s, b);
      }
    }
  }

  /** Slot `v` is empty and reserved for block `b + j`, which is not cached. */
  ghost predicate Claimed(s: State, b: nat, j: nat, v: nat)
  {
    && v < |s.slots| && v / WAYS == SetOf(b + j) && !Cached(s, b + j)
    && s.slots[v].blk == b + j && !s.slots[v].valid && !s.slots[v].dirty
  }

  /** Filling an empty slot with what the device holds is invisible, and caches that block only. */
  lemma InstallClean(s: State, t: State, v: nat, b: nat)
    requires Inv(s) && v < SLOTS && !s.slots[v].valid && !Cached(s, b) && b < |s.disk|
    requires OneSlot(s, t, v) && t.slots[v] == s.slots[v].(valid := true) && !s.slots[v].dirty
    requires s.slots[v].blk == b && b < U32 && SetOf(b) == v / WAYS
    requires t.data[v] == t.disk[b]
    ensures Inv(t) && SameView(s, t)
    ensures forall x: nat :: x != b && Cached(t, x) ==> Cached(s, x)
  {
    Install(s, t, v, b);
    forall x: nat | x != b && Cached(t, x) ensures Cached(s, x) {
      var k: nat :| Holds(t, k, x);
      assert Holds(s, k, x);
    }
  }

  lemma SameSlots(s: State, t: State, b: nat)
    requires s.slots == t.slots
    ensures Cached(s, b) <==> Cached(t, b)
  {
    if Cached(s, b) { var i: nat :| Holds(s, i, b); assert Holds(t, i, b); }
    if Cached(t, b) { var i: nat :| Holds(t, i, b); assert Holds(s, i, b); }
  }

  /** Buffers of empty slots may hold anything. */
  lemma BuffersOnly(s: State, t: State)
    requires Inv(s) && t.slots == s.slots && t.disk == s.disk && |t.data| == SLOTS
    requires forall i :: 0 <= i < SLOTS && s.slots[i].valid ==> t.data[i] == s.data[i]
    ensures Inv(t) && SameView(s, t)
  {
    forall k | 0 <= k < SLOTS ensures SlotOk(t, k) { assert SlotOk(s, k); }
    forall b: nat ensures Logical(s, b) == Logical(t, b) {
      if Cached(s, b) {
        var k: nat :| Holds(s, k, b);
        assert Holds(t, k, b);
        LogicalHit(s, k, b);
        LogicalHit(t, k, b);
      } else if Cached(t, b) {
        var k: nat :| Holds(t, k, b);
        assert Holds(s, k, b);
      }
    }
  }

  lemma UsedOnly(s: State, t: State, i: nat)
    requires Inv(s) && i < SLOTS && t.data == s.data && t.disk == s.disk
    requires |t.slots| == SLOTS && t.slots == s.slots[i := s.slots[i].(used := t.slots[i].used)]
    ensures Inv(t) && SameView(s, t)
  {
    forall k | 0 <= k < SLOTS ensures SlotOk(t, k) { assert SlotOk(s, k); }
    forall b: nat ensures Logical(s, b) == Logical(t, b) {
      if Cached(s, b) {
        var k: nat :| Holds(s, k, b);
        assert Holds(t, k, b);
        LogicalHit(s, k, b);
        LogicalHit(t, k, b);
      } else if Cached(t, b) {
        var k: nat :| Holds(t, k, b);
        assert Holds(s, k, b);
      }
    }
  }

  lemma ViewTransitive(r: State, s: State, t: State)
    requires |r.slots| == |r.data| && |s.slots| == |s.data| && |t.slots| == |t.data|
    requires SameView(r, s) && SameView(s, t)
    ensures SameView(r, t)
  {
  }

  // ---------------------------------------------------------------- counting dirty slots

  function CountDirty(ss: seq<Slot>): nat
  {
    if ss == [] then 0 else (if ss[0].dirty then 1 else 0) + CountDirty(ss[1..])
  }

  lemma {:induction false} CountUpdate(ss: seq<Slot>, i: nat, t: Slot)
    requires i < |ss|
    ensures CountDirty(ss[i := t]) + (if ss[i].dirty then 1 else 0) == CountDirty(ss) + if t.dirty then 1 else 0
  {
    if i == 0 {
      assert ss[i := t][1..] == ss[1..];
    } else {
      assert ss[i := t][1..] == ss[1..][i - 1 := t];
      CountUpdate(ss[1..], i - 1, t);
    }
  }

  lemma {:induction false} CountZero(ss: seq<Slot>)
    ensures CountDirty(ss) == 0 <==> forall i :: 0 <= i < |ss| ==> !ss[i].dirty
  {
    if ss != [] {
      CountZero(ss[1..]);
      assert forall i :: 1 <= i < |ss| ==> ss[i] == ss[1..][i - 1];
    }
  }

  // ---------------------------------------------------------------- the cache

  /** Ticks since a slot was last used, on a 32-bit clock that wraps. */
  function Age(now: nat, used: nat): (r: nat)
    requires now < U32 && used < U32
    ensures r < U32
  {
    (now - used) % U32
  }

  /** How many uses ago, if that was less than 2^32, although the clock wraps. */
  lemma AgeMeans(used: nat, uses: nat)
    requires uses < U32
    ensures Age((used + uses) % U32, used % U32) == uses
  {
    var q := used / U32;
    assert used == q * U32 + used % U32;
    assert (used + uses) % U32 == (used % U32 + uses) % U32;
  }

  /** The difference taken the other way round. */
  lemma AgeTurned(now: nat, used: nat)
    requires now < U32 && used < U32 && used != now
    ensures (used - now) % U32 == U32 - Age(now, used)
  {
  }

  /** Slot `v` of the set is empty, or the one used longest ago. */
  ghost predicate LeastRecent(ss: seq<Slot>, base: nat, now: nat, v: nat)
    requires base + WAYS <= |ss| && now < U32 && forall k :: 0 <= k < |ss| ==> ss[k].used < U32
  {
    && base <= v < base + WAYS
    && (ss[v].valid ==> forall k :: base <= k < base + WAYS ==> ss[k].valid && Age(now, ss[k].used) <= Age(now, ss[v].used))
  }

  /** Every slot of the set would have to be written back, or is taken already. */
  ghost predicate NoVictim(ss: seq<Slot>, base: nat, now: nat)
    requires base + WAYS <= |ss|
  {
    forall k :: base <= k < base + WAYS ==> ss[k].valid && (ss[k].dirty || ss[k].used == now)
  }

  /** All slots but those taken are as they were. */
  ghost predicate ChangedOnly(was: seq<Slot>, ss: seq<Slot>, taken: seq<nat>)
  {
    |ss| == |was| && forall i :: 0 <= i < |ss| && i !in taken ==> ss[i] == was[i]
  }

  lemma SameOnly(ss: seq<Slot>)
    ensures ChangedOnly(ss, ss, [])
  {
  }

  lemma ChangedThen(was: seq<Slot>, ss: seq<Slot>, ts: seq<Slot>, taken: seq<nat>, v: nat)
    requires ChangedOnly(was, ss, taken) && v < |ss| == |ts| && ts == ss[v := ts[v]]
    ensures ChangedOnly(was, ts, taken + [v])
  {
    assert v == (taken + [v])[|taken|];
  }

  /** The slots taken before lie in other sets. */
  lemma StillNoVictim(was: seq<Slot>, s: State, b: nat, taken: seq<nat>, now: nat)
    requires ChangedOnly(was, s.slots, taken) && |was| == SLOTS && |taken| < MAX_SEGS && NoVictim(s.slots, SetOf(b + |taken|) * WAYS, now)
    requires forall j :: 0 <= j < |taken| ==> Claimed(s, b, j, taken[j])
    ensures NoVictim(was, SetOf(b + |taken|) * WAYS, now)
  {
    hide SetOf, Cached;
    var base := SetOf(b + |taken|) * WAYS;
    forall i | base <= i < base + WAYS ensures s.slots[i] == was[i] {
      assert s.slots[i].valid;
      forall j | 0 <= j < |taken| ensures taken[j] != i { assert Claimed(s, b, j, taken[j]); }
    }
  }

  function SatSub(x: nat, y: nat): nat { if x < y then 0 else x - y }

  // ---------------------------------------------------------------- flushing in block order

  datatype Item = Item(blk: nat, slot: nat)

  /** Every item names a different dirty slot and its block. */
  ghost predicate Listed(s: State, list: seq<Item>)
  {
    && (forall j :: 0 <= j < |list| ==>
          list[j].slot < |s.slots| && s.slots[list[j].slot].dirty && s.slots[list[j].slot].blk == list[j].blk)
    && (forall i, j :: 0 <= i < j < |list| ==> list[i].slot != list[j].slot)
  }

  lemma ListedParts(s: State, xs: seq<Item>, ys: seq<Item>)
    requires Listed(s, xs + ys)
    ensures Listed(s, xs) && Listed(s, ys)
    ensures forall i, j :: 0 <= i < |xs| && 0 <= j < |ys| ==> xs[i].slot != ys[j].slot
  {
    var l := xs + ys;
    assert forall i :: 0 <= i < |xs| ==> xs[i] == l[i];
    assert forall j :: 0 <= j < |ys| ==> ys[j] == l[|xs| + j];
  }

  /** A request over a run of dirty blocks only disturbs blocks that dirty slots hold. */
  lemma WroteRun(s: State, t: State, run: seq<Item>)
    requires Inv(s) && Listed(s, run) && run != []
    requires IsRun(run)
    requires t.slots == s.slots && t.data == s.data && |t.disk| == |s.disk|
    requires forall b :: 0 <= b < |s.disk| && !(run[0].blk <= b < run[0].blk + |run|) ==> t.disk[b] == s.disk[b]
    ensures Inv(t) && SameView(s, t)
  {
    forall b | 0 <= b < |s.disk| ensures t.disk[b] == s.disk[b] || HeldDirty(s, b) {
      if run[0].blk <= b < run[0].blk + |run| {
        var item := run[b - run[0].blk];
        assert SlotOk(s, item.slot);
        assert Holds(s, item.slot, b);
      }
    }
    WriteBackInvisible(s, t);
  }

  /** With nothing dirty the device holds the logical disk. */
  lemma CleanView(s: State)
    requires Inv(s) && forall k :: 0 <= k < SLOTS ==> !s.slots[k].dirty
    ensures forall b: nat :: b < |s.disk| ==> s.disk[b] == Logical(s, b)
  {
    forall b: nat | b < |s.disk| ensures s.disk[b] == Logical(s, b) {
      if Cached(s, b) {
        var i: nat :| Holds(s, i, b);
        LogicalHit(s, i, b);
        assert SlotOk(s, i);
      }
    }
  }

  /** Forgetting the one slot that holds `b` changes the view at `b` only. */
  lemma Discarded(s: State, t: State, i: nat, b: nat)
    requires Inv(s) && i < SLOTS && Holds(s, i, b) && t.data == s.data && t.disk == s.disk
    requires t.slots == s.slots[i := s.slots[i].(valid := false, dirty := false)]
    ensures Inv(t) && !Cached(t, b)
    ensures forall x: nat :: x != b ==> Logical(t, x) == Logical(s, x)
  {
    forall k | 0 <= k < SLOTS ensures SlotOk(t, k) { assert SlotOk(s, k); }
    forall k: nat ensures !Holds(t, k, b) { assert Holds(t, k, b) ==> Holds(s, k, b); }
    forall x: nat | x != b ensures Logical(t, x) == Logical(s, x) {
      if Cached(s, x) {
        var k: nat :| Holds(s, k, x);
        assert Holds(t, k, x);
        LogicalHit(s, k, x);
        LogicalHit(t, k, x);
      } else if Cached(t, x) {
        var k: nat :| Holds(t, k, x);
        assert Holds(s, k, x);
      }
    }
  }

  lemma ViewWithThen(r: State, s: State, t: State, b: nat, c: Block)
    requires |r.slots| == |r.data| && |s.slots| == |s.data| && |t.slots| == |t.data|
    requires ViewWith(r, s, b, c) && SameView(s, t)
    ensures ViewWith(r, t, b, c)
  {
  }

  function InsertItem(e: Item, r: seq<Item>): seq<Item>
  {
    if r == [] || e.blk <= r[0].blk then [e] + r else [r[0]] + InsertItem(e, r[1..])
  }

  ghost predicate Ordered(r: seq<Item>)
  {
    forall i, j :: 0 <= i < j < |r| ==> r[i].blk <= r[j].blk
  }

  lemma {:induction false} InsertItemKeeps(e: Item, r: seq<Item>)
    ensures multiset(InsertItem(e, r)) == multiset(r) + multiset{e}
  {
    if r == [] || e.blk <= r[0].blk {
    } else {
      InsertItemKeeps(e, r[1..]);
      assert r == [r[0]] + r[1..];
    }
  }

  lemma {:induction false} InsertItemOrdered(e: Item, r: seq<Item>)
    requires Ordered(r)
    ensures Ordered(InsertItem(e, r))
  {
    if r == [] || e.blk <= r[0].blk {
    } else {
      InsertItemOrdered(e, r[1..]);
      InsertItemKeeps(e, r[1..]);
      var t := InsertItem(e, r[1..]);
      forall j | 0 <= j < |t| ensures r[0].blk <= t[j].blk {
        assert t[j] in multiset(t);
        if t[j] != e { assert t[j] in r[1..]; }
      }
    }
  }

  /** A rearrangement of a list of distinct dirty slots is one. */
  lemma ListedAgain(s: State, xs: seq<Item>, ys: seq<Item>)
    requires Listed(s, xs) && multiset(xs) == multiset(ys)
    ensures Listed(s, ys)
  {
    forall j | 0 <= j < |ys|
      ensures ys[j].slot < |s.slots| && s.slots[ys[j].slot].dirty && s.slots[ys[j].slot].blk == ys[j].blk
    {
      assert ys[j] in multiset(xs);
    }
    forall i, j | 0 <= i < j < |ys| ensures ys[i].slot != ys[j].slot {
      if ys[i].slot == ys[j].slot {
        TwoOccurrences(ys, i, j);
        OneOccurrence(xs, ys[i], s);
      }
    }
  }

  lemma TwoOccurrences(ys: seq<Item>, i: nat, j: nat)
    requires i < j < |ys| && ys[i] == ys[j]
    ensures multiset(ys)[ys[i]] >= 2
  {
    assert ys == ys[..i] + [ys[i]] + ys[i + 1..j] + [ys[j]] + ys[j + 1..];
  }

  lemma {:induction false} OneOccurrence(xs: seq<Item>, e: Item, s: State)
    requires Listed(s, xs)
    ensures multiset(xs)[e] <= 1
  {
    if xs != [] {
      assert xs == [xs[0]] + xs[1..];
      OneOccurrence(xs[1..], e, s);
      if xs[0] == e { assert e !in xs[1..]; }
    }
  }

  /** The dirty list in block order. */
  method Sort(list: seq<Item>) returns (r: seq<Item>)
    ensures multiset(r) == multiset(list) && Ordered(r)
    ensures forall x :: x in list ==> x in r
  {
    r := [];
    for i := 0 to |list|
      invariant multiset(r) == multiset(list[..i]) && Ordered(r)
    {
      InsertItemKeeps(list[i], r);
      InsertItemOrdered(list[i], r);
      r := InsertItem(list[i], r);
      assert list[..i + 1] == list[..i] + [list[i]];
    }
    assert list[..|list|] == list;
    forall x | x in list ensures x in r { assert x in multiset(list); }
  }

  /** Consecutive block numbers. */
  ghost predicate IsRun(run: seq<Item>)
  {
    forall j :: 0 <= j < |run| ==> run[j].blk == run[0].blk + j
  }

  /** How many items from `i` on fit in one request. */
  method RunLength(list: seq<Item>, i: nat) returns (k: nat)
    requires i < |list|
    ensures 1 <= k <= MAX_SEGS && i + k <= |list| && IsRun(list[i..i + k])
    ensures k < MAX_SEGS && i + k < |list| ==> !IsRun(list[i..i + k + 1])
  {
    k := 1;
    while i + k < |list| && k < MAX_SEGS && list[i + k].blk == list[i].blk + k
      invariant 1 <= k <= MAX_SEGS && i + k <= |list| && IsRun(list[i..i + k])
    {
      assert list[i..i + k + 1] == list[i..i + k] + [list[i + k]];
      k := k + 1;
    }
    if k < MAX_SEGS && i + k < |list| { assert list[i..i + k + 1][k] == list[i + k]; }
  }

  /** The only blocks cached since `s` are among the `n` from `first` on. */
  ghost predicate Grew(s: State, t: State, first: nat, n: nat)
  {
    forall x: nat :: Cached(t, x) ==> Cached(s, x) || first <= x < first + n
  }

  lemma GrewThen(s: State, t: State, u: State, first: nat, m: nat, n: nat)
    requires Grew(s, t, first, m) && Grew(t, u, first, n) && m <= n
    ensures Grew(s, u, first, n)
  {
    hide Cached;
  }

  lemma GrewBy(s: State, t: State, first: nat, n: nat)
    requires forall i, x: nat :: Holds(t, i, x) ==> Holds(s, i, x) || first <= x < first + n
    ensures Grew(s, t, first, n)
  {
    forall x: nat | Cached(t, x) ensures Cached(s, x) || first <= x < first + n {
      var i: nat :| Holds(t, i, x);
      if Holds(s, i, x) { assert Cached(s, x); }
    }
  }

  /** Holding the same blocks is caching the same. */
  lemma SameCached(s: State, t: State)
    requires forall i, b :: Holds(t, i, b) <==> Holds(s, i, b)
    ensures forall x: nat :: Cached(t, x) <==> Cached(s, x)
  {
    forall x: nat ensures Cached(t, x) <==> Cached(s, x) {
      if Cached(t, x) { var i: nat :| Holds(t, i, x); assert Holds(s, i, x); }
      if Cached(s, x) { var i: nat :| Holds(s, i, x); assert Holds(t, i, x); }
    }
  }

  /** Every dirty slot holds a block of the device. */
  ghost predicate Inside(s: State)
  {
    forall i :: 0 <= i < |s.slots| && s.slots[i].dirty ==> s.slots[i].blk < |s.disk|
  }

  class Cache {
    var slots: seq<Slot>
    var data: seq<Block>
    var disk: seq<Block>
    var dirtyCount: nat
    var tick: nat
    const zero: Block
    /** Whether the device does all that is asked of it inside its range; otherwise any request may fail. */
    const healthy: bool

    ghost function S(): State
      reads this
    {
      State(slots, data, disk)
    }

    /** An empty cache shows the device as it is. */
    constructor (device: seq<Block>, zero: Block, healthy: bool)
      ensures Valid() && Inside(S()) && disk == device && this.zero == zero && this.healthy == healthy && dirtyCount == 0
      ensures forall b: nat :: b < |device| ==> Logical(S(), b) == device[b]
    {
      slots := seq(SLOTS, _ => BLANK);
      data := seq(SLOTS, _ => []);
      disk := device;
      dirtyCount := 0;
      tick := 0;
      this.zero, this.healthy := zero, healthy;
      new;
      CountZero(slots);
      CleanView(S());
    }

    ghost predicate Valid()
      reads this
    {
      && Inv(S()) && dirtyCount == CountDirty(slots) && tick < U32
      && forall i :: 0 <= i < SLOTS ==> slots[i].used < U32
    }

    /** One request to the device for consecutive blocks. It fails beyond the end of the device, and it
        may fail for reasons of its own, leaving anything in the blocks it was to write. */
    method WriteRun(first: nat, blocks: seq<Block>) returns (ok: bool)
      modifies this`disk
      ensures |disk| == |old(disk)|
      ensures forall b :: 0 <= b < |disk| && !(first <= b < first + |blocks|) ==> disk[b] == old(disk)[b]
      ensures healthy && first + |blocks| <= |disk| ==> ok
      ensures ok ==> first + |blocks| <= |disk| && disk[first..first + |blocks|] == blocks
    {
      if first + |blocks| > |disk| { return false; }
      ok := *;
      ok := ok || healthy;
      var left: seq<Block> := *;
      if ok {
        left := blocks;
      } else if |left| != |blocks| {
        return false;
      }
      disk := disk[..first] + left + disk[first + |blocks|..];
    }

    /** The clock of the cache. */
    method Tick() returns (now: nat)
      requires Valid()
      modifies this`tick
      ensures Valid() && now == tick == (old(tick) + 1) % U32
    {
      tick := (tick + 1) % U32;
      now := tick;
    }

    /** Where block `b` is cached, if it is. */
    method Lookup(b: nat) returns (r: Option<nat>)
      requires Valid()
      ensures r.Some? <==> Cached(S(), b)
      ensures r.Some? ==> Holds(S(), r.value, b) && data[r.value] == Logical(S(), b)
    {
      hide SlotOk;
      var base := SetOf(b) * WAYS;
      CachedInSet(S(), b);
      for i := base to base + WAYS
        invariant forall k: nat :: base <= k < i ==> !Holds(S(), k, b)
      {
        if slots[i].valid && slots[i].blk == b {
          assert Holds(S(), i, b);
          LogicalHit(S(), i, b);
          return Some(i);
        }
      }
      return None;
    }

    /** The slot of the set to reuse: an empty one, or the least recently used. */
    method Victim(base: nat, now: nat) returns (v: nat)
      requires Valid() && base + WAYS <= SLOTS && now < U32
      ensures LeastRecent(slots, base, now, v)
    {
      v := base;
      for i := base to base + WAYS
        invariant base <= v < base + WAYS && v <= i
        invariant forall k :: base <= k < i ==> slots[k].valid && Age(now, slots[k].used) <= Age(now, slots[v].used)
      {
        if !slots[i].valid { return i; }
        if Age(now, slots[i].used) > Age(now, slots[v].used) { v := i; }
      }
    }

    /** Writes slot `v` back if it is dirty. */
    method CleanSlot(v: nat) returns (ok: bool)
      requires Valid() && v < SLOTS
      modifies this`slots, this`disk, this`dirtyCount
      ensures Valid() && SameView(old(S()), S()) && data == old(data)
      ensures old(Inside(S())) ==> Inside(S())
      ensures healthy && old(Inside(S())) ==> ok
      ensures ok ==> !slots[v].dirty
      ensures forall i :: 0 <= i < SLOTS ==> slots[i] == old(slots)[i].(dirty := slots[i].dirty)
      ensures forall i, b :: Holds(S(), i, b) <==> Holds(old(S()), i, b)
    {
      if slots[v].valid && slots[v].dirty {
        ghost var s := S();
        ok := WriteRun(slots[v].blk, [data[v]]);
        if ok {
          assert disk[slots[v].blk] == disk[slots[v].blk..slots[v].blk + 1][0];
          CountUpdate(slots, v, slots[v].(dirty := false));
          slots := slots[v := slots[v].(dirty := false)];
          dirtyCount := SatSub(dirtyCount, 1);
        }
        assert Holds(s, v, s.slots[v].blk);
        assert WrittenBack(s, S());
        WriteBackInvisible(s, S());
      } else {
        assert SlotOk(S(), v);
        ok := true;
      }
    }

    /** Moves slot `i` to the front of the use order. */
    method Touch(i: nat, now: nat)
      requires Valid() && i < SLOTS && now < U32
      modifies this`slots
      ensures Valid() && SameView(old(S()), S())
      ensures old(Inside(S())) ==> Inside(S())
      ensures forall k, b :: Holds(S(), k, b) <==> Holds(old(S()), k, b)
      ensures slots == old(slots)[i := old(slots)[i].(used := now)]
    {
      ghost var s := S();
      CountUpdate(slots, i, slots[i].(used := now));
      slots := slots[i := slots[i].(used := now)];
      UsedOnly(s, S(), i);
    }

    /** Takes slot `v`, which is not dirty, away from whatever block it held. */
    method Empty(v: nat, b: nat, now: nat)
      requires Valid() && v < SLOTS && now < U32 && !slots[v].dirty
      modifies this`slots
      ensures Valid() && SameView(old(S()), S())
      ensures old(Inside(S())) ==> Inside(S())
      ensures slots == old(slots)[v := Slot(b, false, false, now)]
      ensures forall x: nat :: Cached(S(), x) ==> old(Cached(S(), x))
    {
      ghost var s := S();
      CountUpdate(slots, v, Slot(b, false, false, now));
      slots := slots[v := Slot(b, false, false, now)];
      EvictClean(s, S(), v);
      forall x: nat | Cached(S(), x) ensures Cached(s, x) {
        var k: nat :| Holds(S(), k, x);
        assert Holds(s, k, x);
      }
    }

    /** Reads block `b` into the empty slot `v`. */
    method Fill(v: nat, b: nat) returns (ok: bool)
      requires Valid() && v < SLOTS && b < U32 && SetOf(b) == v / WAYS
      requires !slots[v].valid && !slots[v].dirty && slots[v].blk == b && !Cached(S(), b)
      modifies this`slots, this`data
      ensures Valid() && SameView(old(S()), S())
      ensures Grew(old(S()), S(), b, 1)
      ensures old(Inside(S())) ==> Inside(S())
      ensures healthy && b < |disk| ==> ok
      ensures ok ==> Holds(S(), v, b) && slots[v].used == old(slots)[v].used
    {
      ghost var s := S();
      ok := *;
      var got: Block := *;
      ok := (ok || healthy) && b < |disk|;
      if ok { got := disk[b]; }
      data := data[v := got];
      if !ok {
        EvictClean(s, S(), v);
        GrewBy(s, S(), b, 1);
        return;
      }
      CountUpdate(slots, v, slots[v].(valid := true));
      slots := slots[v := slots[v].(valid := true)];
      Install(s, S(), v, b);
      GrewBy(s, S(), b, 1);
      assert Logical(s, b) == disk[b];
    }

    /** Makes the empty slot `v` a zeroed, dirty copy of block `b`. */
    method Zero(v: nat, b: nat)
      requires Valid() && v < SLOTS && b < U32 && SetOf(b) == v / WAYS
      requires !slots[v].valid && !slots[v].dirty && slots[v].blk == b && !Cached(S(), b)
      modifies this`slots, this`data, this`dirtyCount
      ensures Valid() && ViewWith(old(S()), S(), b, zero) && Holds(S(), v, b) && slots[v].used == old(slots)[v].used
      ensures Grew(old(S()), S(), b, 1)
      ensures old(Inside(S())) && b < |disk| ==> Inside(S())
    {
      ghost var s := S();
      data := data[v := zero];
      dirtyCount := dirtyCount + 1;
      CountUpdate(slots, v, slots[v].(dirty := true, valid := true));
      slots := slots[v := slots[v].(dirty := true, valid := true)];
      Install(s, S(), v, b);
      GrewBy(s, S(), b, 1);
    }

    /** Block `b` in the cache, and the slot that holds it. With `load` its contents come from the device;
        without, a block that was not cached starts zeroed and dirty. None is an I/O error. */
    method Bget(b: nat, load: bool) returns (r: Option<nat>)
      requires Valid() && b < U32
      modifies this`slots, this`data, this`disk, this`dirtyCount, this`tick
      ensures Valid() && |disk| == |old(disk)|
      ensures Grew(old(S()), S(), b, 1)
      ensures r.Some? ==> r.value < SLOTS && Holds(S(), r.value, b) && data[r.value] == Logical(S(), b)
      ensures load || r.None? || old(Cached(S(), b)) ==> SameView(old(S()), S())
      ensures !load && r.Some? && !old(Cached(S(), b)) ==> ViewWith(old(S()), S(), b, zero)
      ensures old(Inside(S())) && (load || b < |disk|) ==> Inside(S())
      ensures healthy && old(Inside(S())) && b < |disk| ==> r.Some?
      ensures old(Cached(S(), b)) ==> r.Some? && disk == old(disk)
      ensures tick == (old(tick) + 1) % U32 && (r.Some? ==> slots[r.value].used == tick)
      ensures r.Some? && !old(Cached(S(), b)) ==> LeastRecent(old(slots), SetOf(b) * WAYS, tick, r.value)
    {
      hide Logical, CountDirty, SlotOk;
      var now := Tick();
      var hit := Lookup(b);
      if hit.Some? {
        Touch(hit.value, now);
        LogicalHit(S(), hit.value, b);
        return hit;
      }
      var base := SetOf(b) * WAYS;
      var v := Victim(base, now);
      var clean := CleanSlot(v);
      if !clean { return None; }
      ghost var s := S();
      Empty(v, b, now);
      ViewTransitive(old(S()), s, S());
      s := S();
      if load {
        var ok := Fill(v, b);
        ViewTransitive(old(S()), s, S());
        if !ok { return None; }
      } else {
        Zero(v, b);
      }
      LogicalHit(S(), v, b);
      r := Some(v);
    }

    /** Writes `c` through the pointer to slot `i`, which holds `b`, and marks the block modified: the
        view changes at `b` only. Many dirty blocks trigger a flush, whose failure loses nothing. */
    method Update(i: nat, b: nat, c: Block)
      requires Valid() && i < SLOTS && Holds(S(), i, b)
      modifies this`slots, this`data, this`disk, this`dirtyCount
      ensures Valid() && ViewWith(old(S()), S(), b, c) && Holds(S(), i, b)
      ensures forall x: nat :: Cached(S(), x) <==> old(Cached(S(), x))
      ensures old(Inside(S())) && b < |disk| ==> Inside(S())
    {
      hide Logical;
      ghost var s := S();
      var was := slots[i].dirty;
      CountUpdate(slots, i, slots[i].(dirty := true));
      data := data[i := c];
      slots := slots[i := slots[i].(dirty := true)];
      Overwrite(s, S(), i, b);
      SameCached(s, S());
      if !was {
        dirtyCount := dirtyCount + 1;
        if dirtyCount >= FLUSH_AT {
          ghost var t := S();
          var ok := Flush();
          ViewWithThen(s, t, S(), b, c);
        }
      }
    }

    /** Forgets block `b`, which was freed: it will not be written back. */
    method Bforget(b: nat)
      requires Valid()
      modifies this`slots, this`dirtyCount
      ensures Valid() && !Cached(S(), b)
      ensures Grew(old(S()), S(), b, 0)
      ensures old(Inside(S())) ==> Inside(S())
      ensures forall x: nat :: x != b ==> Logical(S(), x) == old(Logical(S(), x))
    {
      hide Logical, SlotOk, CountDirty;
      var base := SetOf(b) * WAYS;
      for i := base to base + WAYS
        invariant Grew(old(S()), S(), b, 0)
        invariant Valid() && (old(Inside(S())) ==> Inside(S()))
        invariant forall k: nat :: base <= k < i ==> !Holds(S(), k, b)
        invariant forall x: nat :: x != b ==> Logical(S(), x) == old(Logical(S(), x))
      {
        if slots[i].valid && slots[i].blk == b {
          ghost var s := S();
          Discard(i, b);
          GrewThen(old(S()), s, S(), b, 0, 0);
        }
      }
      CachedInSet(S(), b);
    }

    method Discard(i: nat, b: nat)
      requires Valid() && i < SLOTS && Holds(S(), i, b)
      modifies this`slots, this`dirtyCount
      ensures Valid() && !Cached(S(), b)
      ensures Grew(old(S()), S(), b, 0)
      ensures old(Inside(S())) ==> Inside(S())
      ensures forall x: nat :: x != b ==> Logical(S(), x) == old(Logical(S(), x))
    {
      ghost var s := S();
      CountUpdate(slots, i, slots[i].(valid := false, dirty := false));
      if slots[i].dirty { dirtyCount := SatSub(dirtyCount, 1); }
      slots := slots[i := slots[i].(valid := false, dirty := false)];
      Discarded(s, S(), i, b);
      GrewBy(s, S(), b, 0);
    }

    /** Writes every dirty block, in block order, consecutive ones as one request. True means that none is
        left dirty and the device holds what the file system sees; the view never changes. */
    method Flush() returns (ok: bool)
      requires Valid()
      modifies this`slots, this`disk, this`dirtyCount
      ensures Valid() && SameView(old(S()), S()) && data == old(data)
      ensures forall x: nat :: Cached(S(), x) <==> old(Cached(S(), x))
      ensures old(Inside(S())) ==> Inside(S())
      ensures healthy && old(Inside(S())) ==> ok
      ensures ok ==> dirtyCount == 0 && forall b: nat :: b < |disk| ==> disk[b] == Logical(S(), b)
      ensures forall i, b :: Holds(S(), i, b) <==> Holds(old(S()), i, b)
    {
      hide Logical, CountDirty, SlotOk, Listed, IsRun, Ordered;
      if dirtyCount == 0 {
        CountZero(slots);
        CleanView(S());
        return true;
      }
      var list := Collect();
      var sorted := Sort(list);
      ListedAgain(S(), list, sorted);
      ok := true;
      ghost var s := S();
      var i := 0;
      while i < |sorted|
        invariant 0 <= i <= |sorted|
        invariant Valid() && SameView(s, S()) && data == old(data)
        invariant Listed(S(), sorted[i..])
        invariant ok ==> forall k :: 0 <= k < SLOTS && slots[k].dirty ==> Item(slots[k].blk, k) in sorted[i..]
        invariant forall k, b :: Holds(S(), k, b) <==> Holds(s, k, b)
        invariant Inside(s) ==> Inside(S()) && (healthy ==> ok)
      {
        var k := RunLength(sorted, i);
        ghost var t := S();
        assert sorted[i..] == sorted[i..i + k] + sorted[i + k..];
        var done := FlushRun(sorted[i..i + k], sorted[i + k..]);
        ViewTransitive(s, t, S());
        ok := ok && done;
        i := i + k;
      }
      if ok { CountZero(slots); CleanView(S()); }
    }

    /** The dirty slots and their blocks. */
    method Collect() returns (list: seq<Item>)
      requires Valid()
      ensures Listed(S(), list)
      ensures forall k :: 0 <= k < SLOTS && slots[k].dirty ==> Item(slots[k].blk, k) in list
    {
      list := [];
      for i := 0 to SLOTS
        invariant Listed(S(), list)
        invariant forall j :: 0 <= j < |list| ==> list[j].slot < i
        invariant forall k :: 0 <= k < i && slots[k].dirty ==> Item(slots[k].blk, k) in list
      {
        assert SlotOk(S(), i);
        if slots[i].valid && slots[i].dirty { list := list + [Item(slots[i].blk, i)]; }
      }
    }

    /** Writes a run of consecutive dirty blocks as one request; on success their slots turn clean. */
    method FlushRun(run: seq<Item>, rest: seq<Item>) returns (ok: bool)
      requires Valid() && Listed(S(), run + rest) && run != []
      requires IsRun(run)
      modifies this`slots, this`disk, this`dirtyCount
      ensures Valid() && SameView(old(S()), S()) && data == old(data)
      ensures old(Inside(S())) ==> Inside(S())
      ensures healthy && old(Inside(S())) ==> ok
      ensures Listed(S(), rest)
      ensures forall k, b :: Holds(S(), k, b) <==> Holds(old(S()), k, b)
      ensures forall k :: 0 <= k < SLOTS && slots[k].dirty ==> old(slots)[k].dirty && slots[k] == old(slots)[k]
      ensures ok ==> forall k :: 0 <= k < SLOTS && slots[k].dirty ==> Item(slots[k].blk, k) !in run
    {
      hide Logical, CountDirty, SlotOk;
      ghost var s := S();
      var bufs := data;
      ListedParts(s, run, rest);
      ghost var last := run[|run| - 1];
      assert s.slots[last.slot].dirty && s.slots[last.slot].blk == last.blk == run[0].blk + |run| - 1;
      var blocks := seq(|run|, j requires 0 <= j < |run| => bufs[run[j].slot]);
      ok := WriteRun(run[0].blk, blocks);
      WroteRun(s, S(), run);
      if ok {
        ghost var written := disk;
        forall j | 0 <= j < |run| ensures disk[run[j].blk] == bufs[run[j].slot] {
          assert run[j].blk == run[0].blk + j;
          assert disk[run[0].blk + j] == disk[run[0].blk..run[0].blk + |run|][j] == blocks[j] == bufs[run[j].slot];
        }
        ghost var t := S();
        CleanRun(run, rest);
        ViewTransitive(s, t, S());
      }
    }

    /** The slots of a run that reached the device are no longer dirty. */
    method CleanRun(run: seq<Item>, ghost rest: seq<Item>)
      requires Valid() && Listed(S(), run) && Listed(S(), rest)
      requires forall i, j :: 0 <= i < |run| && 0 <= j < |rest| ==> run[i].slot != rest[j].slot
      requires forall j :: 0 <= j < |run| ==> run[j].blk < |disk| && disk[run[j].blk] == data[run[j].slot]
      modifies this`slots, this`dirtyCount
      ensures Valid() && SameView(old(S()), S()) && Listed(S(), rest)
      ensures old(Inside(S())) ==> Inside(S())
      ensures forall k :: 0 <= k < SLOTS ==> slots[k] == old(slots)[k].(dirty := slots[k].dirty)
      ensures forall k :: 0 <= k < SLOTS && slots[k].dirty ==> old(slots)[k].dirty && Item(slots[k].blk, k) !in run
    {
      hide Logical, CountDirty, SlotOk;
      ghost var s := S();
      ghost var cleaned: set<nat> := {};
      for j := 0 to |run|
        invariant Valid() && SameView(s, S()) && (Inside(s) ==> Inside(S()))
        invariant forall k :: 0 <= k < SLOTS ==> slots[k] == s.slots[k].(dirty := s.slots[k].dirty && k !in cleaned)
        invariant forall i :: 0 <= i < j ==> run[i].slot in cleaned
        invariant forall i :: j <= i < |run| ==> run[i].slot !in cleaned
        invariant forall i :: 0 <= i < |rest| ==> rest[i].slot !in cleaned
      {
        ghost var t := S();
        MarkClean(run[j].slot);
        ViewTransitive(s, t, S());
        cleaned := cleaned + {run[j].slot};
      }
    }

    /** Slot `i`, whose block just reached the device, is no longer dirty. */
    method MarkClean(i: nat)
      requires Valid() && i < SLOTS && slots[i].dirty
      requires slots[i].blk < |disk| && disk[slots[i].blk] == data[i]
      modifies this`slots, this`dirtyCount
      ensures Valid() && SameView(old(S()), S())
      ensures old(Inside(S())) ==> Inside(S())
      ensures slots == old(slots)[i := old(slots)[i].(dirty := false)]
    {
      ghost var s := S();
      CountUpdate(slots, i, slots[i].(dirty := false));
      slots := slots[i := slots[i].(dirty := false)];
      dirtyCount := SatSub(dirtyCount, 1);
      WriteBackInvisible(s, S());
    }

    /** A slot of the set whose loss costs nothing and that this read has not taken: the longest unused. */
    method CleanVictim(base: nat, now: nat) returns (r: Option<nat>)
      requires Valid() && base + WAYS <= SLOTS && now < U32
      ensures r.Some? ==> base <= r.value < base + WAYS && !slots[r.value].dirty
      ensures r.Some? && slots[r.value].valid ==>
                forall k :: base <= k < base + WAYS && !(slots[k].valid && (slots[k].dirty || slots[k].used == now)) ==>
                  slots[k].valid && Age(now, slots[k].used) <= Age(now, slots[r.value].used)
      ensures r.None? <==> NoVictim(slots, base, now)
    {
      hide Age;
      r := None;
      var best := 0;
      for i := base to base + WAYS
        invariant r.Some? ==> base <= r.value < i && !slots[r.value].dirty && !(slots[r.value].valid && slots[r.value].used == now)
        invariant r.Some? ==> best == (if slots[r.value].valid then U32 - Age(now, slots[r.value].used) else 0)
        invariant r.Some? ==> forall k :: base <= k < i && !(slots[k].valid && (slots[k].dirty || slots[k].used == now)) ==>
                    best <= if slots[k].valid then U32 - Age(now, slots[k].used) else 0
        invariant r.None? ==> forall k :: base <= k < i ==> slots[k].valid && (slots[k].dirty || slots[k].used == now)
      {
        assert SlotOk(S(), i);
        if !(slots[i].valid && (slots[i].dirty || slots[i].used == now)) {
          if slots[i].valid { AgeTurned(now, slots[i].used); }
          var key := if slots[i].valid then (slots[i].used - now) % U32 else 0;
          if r.None? || key < best { r, best := Some(i), key; }
        }
      }
    }

    /** One request that reads consecutive blocks into the given buffers; on failure they hold anything. */
    method ReadRun(first: nat, taken: seq<nat>) returns (ok: bool)
      requires Valid() && forall j :: 0 <= j < |taken| ==> taken[j] < SLOTS && !slots[taken[j]].valid
      requires forall i, j :: 0 <= i < j < |taken| ==> taken[i] != taken[j]
      modifies this`data
      ensures Valid() && SameView(old(S()), S())
      ensures old(Inside(S())) ==> Inside(S())
      ensures healthy && first + |taken| <= |disk| ==> ok
      ensures ok ==> first + |taken| <= |disk| && forall j :: 0 <= j < |taken| ==> data[taken[j]] == disk[first + j]
    {
      hide Logical, CountDirty;
      ghost var s := S();
      ok := *;
      ok := (ok || healthy) && first + |taken| <= |disk|;
      for j := 0 to |taken|
        invariant |data| == SLOTS
        invariant forall i :: 0 <= i < SLOTS && slots[i].valid ==> data[i] == s.data[i]
        invariant ok ==> forall i :: 0 <= i < j ==> data[taken[i]] == disk[first + i]
      {
        var got: Block := *;
        if ok { got := disk[first + j]; }
        data := data[taken[j] := got];
      }
      BuffersOnly(s, S());
    }

    /** Reads ahead the blocks `b`, `b` + 1, ... that are not cached, up to the first that is, in one
        request. Nothing the file system sees changes. It asks for `k` of them: as many as there are before a cached
        one, a set without a slot to spare, or 62. */
    method Prefetch(b: nat, n: nat) returns (ghost k: nat)
      requires Valid() && b + n <= U32
      modifies this`slots, this`data, this`tick
      ensures Valid() && SameView(old(S()), S())
      ensures k <= n && k <= MAX_SEGS && (healthy && b + k <= |disk| ==> AllCached(S(), b, k))
      ensures k == n || k == MAX_SEGS || old(Cached(S(), b + k)) || NoVictim(old(slots), SetOf(b + k) * WAYS, tick)
      ensures Grew(old(S()), S(), b, n)
      ensures old(Inside(S())) ==> Inside(S())
    {
      hide Logical, CountDirty, SlotOk;
      var now := Tick();
      var taken := Claim(b, n, now);
      k := |taken|;
      if taken == [] { return; }
      ghost var s := S();
      var ok := ReadRun(b, taken);
      ViewTransitive(old(S()), s, S());
      SameCached(s, S());
      ghost var u := S();
      if ok {
        forall j | 0 <= j < |taken| ensures Claimed(S(), b, j, taken[j]) {
          assert Claimed(s, b, j, taken[j]);
          SameSlots(s, S(), b + j);
        }
        Publish(b, taken);
        forall x: nat | b <= x < b + k ensures Cached(S(), x) { assert Holds(S(), taken[x - b], x); }
        GrewThen(s, u, S(), b, 0, |taken|);
      }
    }

    /** Empties one slot for each missing block of the run. */
    method Claim(b: nat, n: nat, now: nat) returns (taken: seq<nat>)
      requires Valid() && b + n <= U32 && now < U32
      modifies this`slots
      ensures Valid() && SameView(old(S()), S())
      ensures Grew(old(S()), S(), b, 0) && |taken| <= n
      ensures old(Inside(S())) ==> Inside(S())
      ensures |taken| <= MAX_SEGS && b + |taken| <= U32
      ensures |taken| == n || |taken| == MAX_SEGS || Cached(old(S()), b + |taken|)
              || NoVictim(old(slots), SetOf(b + |taken|) * WAYS, now)
      ensures forall j :: 0 <= j < |taken| ==> Claimed(S(), b, j, taken[j])
      ensures forall i, j :: 0 <= i < j < |taken| ==> taken[i] != taken[j]
    {
      hide Logical, CountDirty, SlotOk, SetOf, ChangedOnly, NoVictim;
      taken := [];
      SameOnly(slots);
      var k := 0;
      while k < n && k < MAX_SEGS
        invariant Valid() && SameView(old(S()), S()) && (old(Inside(S())) ==> Inside(S()))
        invariant Grew(old(S()), S(), b, 0)
        invariant |taken| == k <= n && k <= MAX_SEGS
        invariant forall j :: 0 <= j < k ==> Claimed(S(), b, j, taken[j])
        invariant ChangedOnly(old(slots), slots, taken)
      {
        var hit := Lookup(b + k);
        if hit.Some? { break; }
        var v := CleanVictim(SetOf(b + k) * WAYS, now);
        if v.None? {
          StillNoVictim(old(slots), S(), b, taken, now);
          break;
        }
        ghost var s := S();
        Empty(v.value, b + k, now);
        ViewTransitive(old(S()), s, S());
        forall j | 0 <= j < k ensures Claimed(S(), b, j, taken[j]) && taken[j] != v.value {
          assert Claimed(s, b, j, taken[j]);
          DistinctSets(b + j, k - j);
        }
        ChangedThen(old(slots), s.slots, slots, taken, v.value);
        taken := taken + [v.value];
        k := k + 1;
      }
      forall i, j | 0 <= i < j < |taken| ensures taken[i] != taken[j] {
        assert Claimed(S(), b, i, taken[i]) && Claimed(S(), b, j, taken[j]);
        DistinctSets(b + i, j - i);
      }
    }

    /** The blocks read become visible, each in the slot claimed for it. */
    method Publish(b: nat, taken: seq<nat>)
      requires Valid() && |taken| <= MAX_SEGS && b + |taken| <= U32 && b + |taken| <= |disk|
      requires forall j :: 0 <= j < |taken| ==> Claimed(S(), b, j, taken[j]) && data[taken[j]] == disk[b + j]
      requires forall i, j :: 0 <= i < j < |taken| ==> taken[i] != taken[j]
      modifies this`slots
      ensures Valid() && SameView(old(S()), S())
      ensures Grew(old(S()), S(), b, |taken|) && forall j :: 0 <= j < |taken| ==> Holds(S(), taken[j], b + j)
      ensures old(Inside(S())) ==> Inside(S())
    {
      hide Logical, CountDirty, SlotOk;
      for j := 0 to |taken|
        invariant |slots| == SLOTS && forall i :: 0 <= i < j ==> Holds(S(), taken[i], b + i)
        invariant Valid() && SameView(old(S()), S()) && (old(Inside(S())) ==> Inside(S()))
        invariant Grew(old(S()), S(), b, j)
        invariant forall i :: j <= i < |taken| ==> Claimed(S(), b, i, taken[i])
      {
        ghost var s := S();
        assert Claimed(s, b, j, taken[j]);
        var v := taken[j];
        CountUpdate(slots, v, slots[v].(valid := true));
        slots := slots[v := slots[v].(valid := true)];
        InstallClean(s, S(), v, b + j);
        ViewTransitive(old(S()), s, S());
        forall i | j < i < |taken| ensures Claimed(S(), b, i, taken[i]) {
          assert Claimed(s, b, i, taken[i]);
        }
      }
    }
  }
}
