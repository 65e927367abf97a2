/** Unsigned numbers as little-endian bytes. */
module LittleEndian {
  import opened Basics

  type Bytes = seq<byte>

  /** How many values `n` bytes have. */
  function Pow(n: nat): (r: nat)
    ensures r > 0
  {
    if n == 0 then 1 else 0x100 * Pow(n - 1)
  }

  lemma Widths()
    ensures Pow(2) == 0x1_0000 && Pow(4) == 0x1_0000_0000 && Pow(8) == 0x1_0000_0000_0000_0000
  {
    assert Pow(1) == 0x100;
    assert Pow(3) == 0x100_0000;
    assert Pow(5) == 0x100_0000_0000 && Pow(6) == 0x1_0000_0000_0000 && Pow(7) == 0x100_0000_0000_0000;
  }

  /** `v` as `n` bytes. */
  function Le(v: nat, n: nat): (r: Bytes)
    ensures |r| == n
  {
    if n == 0 then [] else [v % 0x100] + Le(v / 0x100, n - 1)
  }

  /** The number in the `n` bytes at `o`. */
  function Rd(b: Bytes, o: nat, n: nat): (v: nat)
    requires o + n <= |b|
    ensures v < Pow(n)
    decreases n
  {
    if n == 0 then 0 else b[o] + 0x100 * Rd(b, o + 1, n - 1)
  }

  /** What was written is read back. */
  lemma {:induction false} RdLe(b: Bytes, o: nat, v: nat, n: nat)
    requires o + n <= |b| && b[o..o + n] == Le(v, n) && v < Pow(n)
    ensures Rd(b, o, n) == v
    decreases n
  {
    if n > 0 {
      assert b[o] == b[o..o + n][0];
      assert b[o + 1..o + n] == b[o..o + n][1..] == Le(v / 0x100, n - 1);
      RdLe(b, o + 1, v / 0x100, n - 1);
    }
  }

  /** A number read out of a part of the bytes. */
  lemma {:induction false} RdWithin(b: Bytes, c: Bytes, o: nat, p: nat, n: nat)
    requires o + n <= |b| && p + n <= |c| && b[o..o + n] == c[p..p + n]
    ensures Rd(b, o, n) == Rd(c, p, n)
    decreases n
  {
    if n > 0 {
      assert b[o] == b[o..o + n][0] && c[p] == c[p..p + n][0];
      assert b[o + 1..o + n] == b[o..o + n][1..] && c[p + 1..p + n] == c[p..p + n][1..];
      RdWithin(b, c, o + 1, p + 1, n - 1);
    }
  }

  /** A field of `n` bytes at `at` in what was written at `o`. */
  lemma Field(out: Bytes, o: nat, w: Bytes, at: nat, v: nat, n: nat)
    requires o + |w| <= |out| && out[o..o + |w|] == w && at + n <= |w| && w[at..at + n] == Le(v, n) && v < Pow(n)
    ensures Rd(out, o + at, n) == v
  {
    var part, field := out[o + at..o + at + n], w[at..at + n];
    forall i | 0 <= i < n ensures part[i] == field[i] {
      assert out[o..o + |w|][at + i] == out[o + at + i];
    }
    assert part == field;
    RdLe(out, o + at, v, n);
  }
}
