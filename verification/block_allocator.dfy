/** The block allocator of ext2: a bitmap per group, a counter of clear bits per group and one for the
    volume (kernel/src/ext2.rs:365-454). */
module BlockAllocator {
  import opened Basics
  import opened BlockRoutes

  /** Clear bits among the first `n`. */
  function Clear(bits: seq<bool>, n: nat): nat
    requires n <= |bits|
  {
    if n == 0 then 0 else Clear(bits, n - 1) + if bits[n - 1] then 0 else 1
  }

  lemma {:induction false} ClearUpdate(bits: seq<bool>, i: nat, v: bool, n: nat)
    requires n <= |bits| && i < |bits|
    ensures Clear(bits[i := v], n) + (if i < n && !bits[i] then 1 else 0) == Clear(bits, n) + if i < n && !v then 1 else 0
  {
    if n > 0 { ClearUpdate(bits, i, v, n - 1); }
  }

  lemma {:induction false} ClearZero(bits: seq<bool>, n: nat)
    requires n <= |bits|
    ensures Clear(bits, n) == 0 <==> forall i :: 0 <= i < n ==> bits[i]
  {
    if n > 0 { ClearZero(bits, n - 1); }
  }

  function Sum(s: seq<nat>): nat
  {
    if s == [] then 0 else s[0] + Sum(s[1..])
  }

  lemma {:induction false} SumUpdate(s: seq<nat>, i: nat, v: nat)
    requires i < |s|
    ensures Sum(s[i := v]) + s[i] == Sum(s) + v
  {
    if i == 0 {
      assert s[i := v][1..] == s[1..];
    } else {
      assert s[i := v][1..] == s[1..][i - 1 := v];
      SumUpdate(s[1..], i - 1, v);
    }
  }

  lemma {:induction false} SumZero(s: seq<nat>)
    ensures Sum(s) == 0 <==> forall i :: 0 <= i < |s| ==> s[i] == 0
  {
    if s != [] {
      SumZero(s[1..]);
      assert forall i :: 1 <= i < |s| ==> s[i] == s[1..][i - 1];
    }
  }

  /** The 64 bits of word `w` are all set. */
  predicate FullWord(bits: seq<bool>, w: nat)
    requires 64 * w + 64 <= |bits|
  {
    forall i :: 64 * w <= i < 64 * w + 64 ==> bits[i]
  }

  /** trailing_zeros of the complement: the first clear bit of a word that has one. */
  method FirstClear(bits: seq<bool>, w: nat) returns (i: nat)
    requires 64 * w + 64 <= |bits| && !FullWord(bits, w)
    ensures 64 * w <= i < 64 * w + 64 && !bits[i] && forall j :: 64 * w <= j < i ==> bits[j]
  {
    i := 64 * w;
    while bits[i]
      invariant 64 * w <= i < 64 * w + 64
      invariant forall j :: 64 * w <= j < i ==> bits[j]
      decreases 64 * w + 64 - i
    {
      assert i + 1 == 64 * w + 64 ==> FullWord(bits, w);
      i := i + 1;
    }
  }

  /** The lowest clear bit below `limit`, searched word by word. */
  method BitmapFind(bits: seq<bool>, limit: nat) returns (r: Option<nat>)
    requires |bits| % 64 == 0 && limit <= |bits|
    ensures r.Some? ==> r.value < limit && !bits[r.value] && forall j :: 0 <= j < r.value ==> bits[j]
    ensures r.None? ==> forall j :: 0 <= j < limit ==> bits[j]
  {
    var words := (limit + 63) / 64;
    for w := 0 to words
      invariant forall j :: 0 <= j < 64 * w ==> bits[j]
    {
      if !FullWord(bits, w) {
        var idx := FirstClear(bits, w);
        if idx >= limit { break; }
        return Some(idx);
      }
    }
    r := None;
  }

  /** A group's bitmap is long enough and its counter is right. */
  predicate CountedGroup(blocks: nat, firstData: nat, bpg: nat, g: nat, bits: seq<bool>, free: nat)
  {
    var rest := blocks - firstData - g * bpg;
    && rest >= 0 && |bits| % 64 == 0 && bpg <= |bits|
    && free == Clear(bits, if rest < bpg then rest else bpg)
  }

  class Allocator {
    const blocks: nat
    const firstData: nat
    const bpg: nat           // blocks per group
    const groups: nat
    var bits: seq<seq<bool>>
    var gdFree: seq<nat>
    var freeBlocks: nat

    /** A mounted volume whose counters agree with its bitmaps. */
    constructor (blocks: nat, firstData: nat, bpg: nat, bits: seq<seq<bool>>, gdFree: seq<nat>)
      requires 0 < bpg <= 32768 && firstData < blocks && |bits| == |gdFree| > 0
      requires (|bits| - 1) * bpg < blocks - firstData <= |bits| * bpg
      requires forall g :: 0 <= g < |bits| ==> CountedGroup(blocks, firstData, bpg, g, bits[g], gdFree[g])
      ensures Valid() && this.bits == bits && this.blocks == blocks && this.firstData == firstData
    {
      this.blocks, this.firstData, this.bpg, this.groups := blocks, firstData, bpg, |bits|;
      this.bits, this.gdFree, this.freeBlocks := bits, gdFree, Sum(gdFree);
      new;
      forall g | 0 <= g < groups ensures GroupOk(g) {
        GroupStart(g);
        assert CountedGroup(blocks, firstData, bpg, g, bits[g], gdFree[g]);
      }
    }

    /** Blocks that group `g` really has: the last one may be short. */
    function InGroup(g: nat): nat
      requires firstData + g * bpg <= blocks
    {
      if blocks - firstData - g * bpg < bpg then blocks - firstData - g * bpg else bpg
    }

    ghost predicate Geometry()
    {
      && 0 < bpg <= 32768 && firstData < blocks && 0 < groups
      && (groups - 1) * bpg < blocks - firstData <= groups * bpg
    }

    ghost predicate GroupOk(g: nat)
      requires Geometry() && g < groups && |bits| == |gdFree| == groups
      reads this
    {
      GroupStart(g);
      |bits[g]| % 64 == 0 && bpg <= |bits[g]| && gdFree[g] == Clear(bits[g], InGroup(g))
    }

    /** The counters are exact. */
    ghost predicate Valid()
      reads this
    {
      && Geometry() && |bits| == |gdFree| == groups
      && (forall g :: 0 <= g < groups ==> GroupOk(g))
      && freeBlocks == Sum(gdFree)
    }

    lemma GroupStart(g: nat)
      requires Geometry() && g < groups
      ensures firstData + g * bpg < blocks
    {
      MulMono(bpg, g, groups - 1);
    }

    function GroupOf(b: nat): nat
      requires firstData <= b && bpg > 0
    {
      (b - firstData) / bpg
    }

    lemma Locate(b: nat)
      requires Geometry() && firstData <= b < blocks
      ensures GroupOf(b) < groups
      ensures firstData + GroupOf(b) * bpg <= b
      ensures (b - firstData) % bpg < InGroup(GroupOf(b))
      ensures b == firstData + GroupOf(b) * bpg + (b - firstData) % bpg
    {
      DivBelow(b - firstData, bpg, groups);
    }

    lemma LocateBack(g: nat, i: nat)
      requires Geometry() && g < groups && firstData + g * bpg <= blocks && i < InGroup(g)
      ensures var b := firstData + g * bpg + i; b < blocks && GroupOf(b) == g && (b - firstData) % bpg == i
    {
      var b := firstData + g * bpg + i;
      DivUnique(b - firstData, bpg, g, i);
      assert (b - firstData) == bpg * ((b - firstData) / bpg) + (b - firstData) % bpg;
    }

    /** Block `b` is marked in its bitmap. */
    ghost predicate InUse(b: nat)
      requires Valid()
      reads this
    {
      firstData <= b < blocks && (Locate(b); assert GroupOk(GroupOf(b)); bits[GroupOf(b)][(b - firstData) % bpg])
    }

    /** Sets or clears bit `i` of group `g`, which had the other value, with its counters: the use of one
        block changes. */
    method Flip(g: nat, i: nat, v: bool)
      requires Valid() && g < groups && firstData + g * bpg <= blocks && i < InGroup(g) <= |bits[g]| && bits[g][i] != v
      modifies this`bits, this`gdFree, this`freeBlocks
      ensures Valid()
      ensures forall x: nat :: InUse(x) <==> if x == firstData + g * bpg + i then v else old(InUse(x))
    {
      ghost var was := bits;
      assert GroupOk(g);
      ClearUpdate(bits[g], i, v, InGroup(g));
      var n := if v then gdFree[g] - 1 else gdFree[g] + 1;
      SumUpdate(gdFree, g, n);
      if v { SomeFree(g); }
      ghost var w := bits[g][i := v];
      bits := bits[g := bits[g][i := v]];
      gdFree := gdFree[g := n];
      freeBlocks := if v then freeBlocks - 1 else freeBlocks + 1;
      forall h | 0 <= h < groups ensures GroupOk(h) {
        assert old(GroupOk(h));
      }
      LocateBack(g, i);
      forall x: nat ensures InUse(x) <==> if x == firstData + g * bpg + i then v else old(InUse(x)) {
        if firstData <= x < blocks { Locate(x); }
      }
    }

    lemma SomeFree(g: nat)
      requires Valid() && g < groups && gdFree[g] > 0
      ensures freeBlocks > 0
    {
      SumZero(gdFree);
    }

    /** No block is left when the counter says so. */
    lemma NoneFree(b: nat)
      requires Valid() && freeBlocks == 0 && firstData <= b < blocks
      ensures InUse(b)
    {
      SumZero(gdFree);
      Locate(b);
      GroupFull(GroupOf(b), b);
    }

    lemma GroupFull(g: nat, b: nat)
      requires Valid() && g < groups && gdFree[g] == 0 && firstData <= b < blocks && GroupOf(b) == g
      ensures InUse(b)
    {
      Locate(b);
      assert GroupOk(g);
      ClearZero(bits[g], InGroup(g));
    }

    /** A free block, taken from the group `goal` if possible. It fails only when every block is in use. */
    method AllocBlock(goal: nat) returns (r: Option<nat>)
      requires Valid()
      modifies this`bits, this`gdFree, this`freeBlocks
      ensures Valid()
      ensures r.Some? ==> r.value >= firstData && old(LowestOfGroup(r.value)) && exists k: nat :: old(FirstGroup(goal, k, GroupOf(r.value)))
      ensures r.None? <==> forall x: nat :: firstData <= x < blocks ==> old(InUse(x))
      ensures r.None? ==> forall x: nat :: InUse(x) <==> old(InUse(x))
      ensures r.Some? ==> firstData <= r.value < blocks && !old(InUse(r.value))
      ensures r.Some? ==> forall x: nat :: InUse(x) <==> old(InUse(x)) || x == r.value
    {
      hide Clear, Sum, GroupOk, InUse, FirstGroup, LowestOfGroup;
      if freeBlocks == 0 {
        forall x: nat | firstData <= x < blocks ensures InUse(x) { NoneFree(x); }
        return None;
      }
      for k := 0 to groups
        invariant Valid() && bits == old(bits) && gdFree == old(gdFree) && freeBlocks == old(freeBlocks)
        invariant forall x: nat :: InUse(x) <==> old(InUse(x))
        invariant unchanged(this) && forall j :: 0 <= j < k ==> Exhausted(goal, j)
      {
        FirstTried(goal, k);
        r := AllocIn((goal + k) % groups);
        if r.Some? {
          assert old(FirstGroup(goal, k, GroupOf(r.value)));
          return;
        }
        assert Exhausted(goal, k);
      }
      forall x: nat | firstData <= x < blocks ensures InUse(x) {
        Locate(x);
        Around(goal, GroupOf(x));
        GroupFull(GroupOf(x), x);
      }
      return None;
    }

    /** The lowest free block of group `g`, unless its counter says there is none. */
    method AllocIn(g: nat) returns (r: Option<nat>)
      requires Valid() && g < groups
      modifies this`bits, this`gdFree, this`freeBlocks
      ensures Valid()
      ensures r.None? ==> gdFree[g] == 0 && bits == old(bits) && gdFree == old(gdFree) && freeBlocks == old(freeBlocks)
      ensures r.None? ==> forall x: nat :: InUse(x) <==> old(InUse(x))
      ensures r.Some? ==> firstData <= r.value < blocks && !old(InUse(r.value)) && GroupOf(r.value) == g && old(LowestOfGroup(r.value))
      ensures r.Some? ==> forall x: nat :: InUse(x) <==> old(InUse(x)) || x == r.value
    {
      hide Clear, Sum;
      GroupStart(g);
      assert GroupOk(g);
      ClearLimit(bits[g], InGroup(g));
      if gdFree[g] % 0x1_0000 == 0 { return None; }
      var i := BitmapFind(bits[g], InGroup(g));
      if i.None? {
        ClearZero(bits[g], InGroup(g));
        assert false;
        return None;
      }
      LocateBack(g, i.value);
      ghost var b := firstData + g * bpg + i.value;
      forall x: nat | firstData <= x < b && GroupOf(x) == g ensures InUse(x) { Locate(x); }
      Flip(g, i.value, true);
      r := Some(firstData + g * bpg + i.value);
    }

    /** All lower blocks of the group are in use. */
    ghost predicate LowestOfGroup(b: nat)
      requires Valid() && firstData <= b
      reads this
    {
      forall x: nat :: firstData <= x < b && GroupOf(x) == GroupOf(b) ==> InUse(x)
    }

    /** Group `g` is the `k`-th from the goal on, and those before it are full. */
    ghost predicate FirstGroup(goal: nat, k: nat, g: nat)
      requires Valid()
      reads this
    {
      k < groups && g == (goal + k) % groups && forall j :: 0 <= j < k ==> FullAt(goal, j)
    }

    /** All blocks of the `j`-th group from the goal on are in use. */
    ghost predicate FullAt(goal: nat, j: nat)
      requires Valid()
      reads this
    {
      forall x: nat :: firstData <= x < blocks && GroupOf(x) == (goal + j) % groups ==> InUse(x)
    }

    lemma FirstTried(goal: nat, k: nat)
      requires Valid() && k < groups && forall j :: 0 <= j < k ==> Exhausted(goal, j)
      ensures FirstGroup(goal, k, (goal + k) % groups)
    {
      hide InUse, GroupOk, Sum;
      forall j | 0 <= j < k ensures FullAt(goal, j) {
        assert Exhausted(goal, j);
        forall x: nat | firstData <= x < blocks && GroupOf(x) == (goal + j) % groups ensures InUse(x) {
          GroupFull((goal + j) % groups, x);
        }
      }
    }

    /** The `j`-th group tried has no free block. */
    ghost predicate Exhausted(goal: nat, j: nat)
      requires |gdFree| == groups
      reads this
    {
      groups > 0 && gdFree[(goal + j) % groups] == 0
    }

    /** Every group comes up when counting from `goal` around. */
    lemma Around(goal: nat, g: nat)
      requires g < groups && |gdFree| == groups
      requires forall j :: 0 <= j < groups ==> Exhausted(goal, j)
      ensures gdFree[g] == 0
    {
      var s := goal % groups;
      var j := if g >= s then g - s else g - s + groups;
      AddMod(goal, j, groups, s, g);
      assert Exhausted(goal, j);
    }

    /** The block is free again; a block outside the volume, or free already, is left alone. */
    method FreeBlock(b: nat)
      requires Valid()
      modifies this`bits, this`gdFree, this`freeBlocks
      ensures Valid()
      ensures forall x: nat :: InUse(x) <==> old(InUse(x)) && x != b
    {
      if b < firstData || b >= blocks { return; }
      Locate(b);
      var g, i := GroupOf(b), (b - firstData) % bpg;
      assert GroupOk(g);
      if bits[g][i] {
        Flip(g, i, false);
      }
    }
  }

  lemma {:induction false} ClearLimit(bits: seq<bool>, n: nat)
    requires n <= |bits|
    ensures Clear(bits, n) <= n
  {
    if n > 0 { ClearLimit(bits, n - 1); }
  }

  lemma AddMod(a: nat, j: nat, n: nat, s: nat, g: nat)
    requires n > 0 && s == a % n && g < n && (s + j == g || s + j == g + n)
    ensures (a + j) % n == g
  {
    var q := a / n;
    assert a == n * q + s;
    var q' := if s + j == g then q else q + 1;
    assert a + j == q' * n + g;
    DivUnique(a + j, n, q', g);
    assert a + j == n * ((a + j) / n) + (a + j) % n;
  }
}
