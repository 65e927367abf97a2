/** The 64 KiB ring behind pipes and local connections, copied in and out in chunks that stop at its end
    (kernel/src/file.rs:446-487, kernel/src/unix.rs:159-169, kernel/src/unix.rs:195-203). */
module ByteRings {
  import opened Basics

  const CAP: nat := 0x1_0000

  function Min(a: nat, b: nat): nat { if a < b then a else b }

  /** Index `j` places after `head` around the ring. */
  function At(head: nat, j: nat): (r: nat)
    ensures r < CAP
  {
    (head + j) % CAP
  }

  /** The `len` bytes of ring `b` from `head` on. */
  function Unrolled(b: seq<byte>, head: nat, len: nat): (r: seq<byte>)
    requires |b| == CAP
    ensures |r| == len
  {
    seq(len, k requires 0 <= k => b[At(head, k)])
  }

  lemma Dropped(b: seq<byte>, head: nat, len: nat, n: nat)
    requires |b| == CAP && n <= len
    ensures Unrolled(b, At(head, n), len - n) == Unrolled(b, head, len)[n..]
  {
    hide At;
    forall j | 0 <= j < len - n ensures At(At(head, n), j) == At(head, n + j) { AtAt(head, n, j); }
  }

  lemma AtAt(head: nat, n: nat, j: nat)
    ensures At(At(head, n), j) == At(head, n + j)
  {
  }

  /** A chunk that stops at the end of the ring lies in one piece. */
  lemma InOnePiece(head: nat, at: nat, chunk: nat, j: nat)
    requires at + chunk <= CAP && At(head, 0) + 0 < CAP && At(head, at) + chunk <= CAP && j < chunk
    ensures At(head, at + j) == At(head, at) + j
  {
  }

  class Ring {
    const buf: array<byte>
    var head: nat
    var len: nat

    ghost predicate Valid()
      reads this
    {
      buf.Length == CAP && head < CAP && len <= CAP
    }

    /** What the ring holds, oldest first. */
    ghost function Bytes(): (r: seq<byte>)
      requires Valid()
      reads this, buf
      ensures |r| == len
    {
      Unrolled(buf[..], head, len)
    }

    constructor ()
      ensures Valid() && fresh(buf) && Bytes() == []
    {
      buf := new byte[CAP](_ => 0);
      head, len := 0, 0;
    }

    /** Copies the oldest bytes to the front of `dst` and leaves the ring alone. */
    method CopyOut(dst: array<byte>, take: nat)
      requires Valid() && dst != buf && take <= len && take <= dst.Length
      modifies dst
      ensures Valid() && Bytes() == old(Bytes())
      ensures dst[..take] == Bytes()[..take] && dst[take..] == old(dst[take..])
    {
      var done := 0;
      while done < take
        invariant 0 <= done <= take && Bytes() == old(Bytes())
        invariant forall j :: 0 <= j < done ==> dst[j] == Bytes()[j]
        invariant forall j :: done <= j < dst.Length ==> dst[j] == old(dst[j])
      {
        var at := At(head, done);
        var chunk := Min(take - done, CAP - at);
        forall j | 0 <= j < chunk { dst[done + j] := buf[at + j]; }
        forall j | done <= j < done + chunk ensures dst[j] == Bytes()[j] {
          InOnePiece(head, done, chunk, j - done);
          assert dst[done + (j - done)] == buf[at + (j - done)];
        }
        done := done + chunk;
      }
    }

    /** Appends the first `n` bytes of `src`. */
    method CopyIn(src: seq<byte>, n: nat)
      requires Valid() && n <= |src| && n <= CAP - len
      modifies this`len, buf
      ensures Valid() && Bytes() == old(Bytes()) + src[..n] && head == old(head)
    {
      var done := 0;
      while done < n
        invariant 0 <= done <= n && Valid() && head == old(head) && len == old(len)
        invariant forall j :: 0 <= j < len ==> buf[At(head, j)] == old(buf[At(head, j)])
        invariant forall j :: len <= j < len + done ==> buf[At(head, j)] == src[j - len]
      {
        var at := At(head, len + done);
        var chunk := Min(n - done, CAP - at);
        CopyChunk(src, done, chunk);
        done := done + chunk;
      }
      len := len + n;
      assert Bytes() == old(Bytes()) + src[..n];
    }

    method CopyChunk(src: seq<byte>, done: nat, chunk: nat)
      requires Valid() && done + chunk <= |src| && len + done + chunk <= CAP && At(head, len + done) + chunk <= CAP
      modifies buf
      ensures forall j :: 0 <= j < len + done ==> buf[At(head, j)] == old(buf[At(head, j)])
      ensures forall j :: len + done <= j < len + done + chunk ==> buf[At(head, j)] == src[j - len]
    {
      var at := At(head, len + done);
      forall j | 0 <= j < chunk { buf[at + j] := src[done + j]; }
      forall j | 0 <= j < len + done ensures !(at <= At(head, j) < at + chunk) {
        Elsewhere(head, len + done, chunk, j);
      }
      forall j | len + done <= j < len + done + chunk ensures buf[At(head, j)] == src[j - len] {
        InOnePiece(head, len + done, chunk, j - len - done);
        assert buf[at + (j - len - done)] == src[done + (j - len - done)];
      }
    }

    /** The oldest `n` bytes are consumed. */
    method Consume(n: nat)
      requires Valid() && n <= len
      modifies this
      ensures Valid() && Bytes() == old(Bytes())[n..]
    {
      Dropped(buf[..], head, len, n);
      head, len := At(head, n), len - n;
    }
  }

  /** What was in the ring is not under a chunk that goes in after it. */
  lemma Elsewhere(head: nat, at: nat, chunk: nat, j: nat)
    requires at + chunk <= CAP && At(head, at) + chunk <= CAP && j < at
    ensures !(At(head, at) <= At(head, j) < At(head, at) + chunk)
  {
    var i := At(head, j) - At(head, at);
    if 0 <= i < chunk {
      InOnePiece(head, at, chunk, i);
      Distinct(head, j, at + i);
    }
  }

  /** Places less than one round apart are different. */
  lemma Distinct(head: nat, i: nat, j: nat)
    requires i < j < i + CAP
    ensures At(head, i) != At(head, j)
  {
  }
}
