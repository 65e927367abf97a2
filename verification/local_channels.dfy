/** Pipes and local connections over their rings (kernel/src/file.rs:446-487, kernel/src/unix.rs:130-218),
    each operation with the key it signals. */
module LocalChannels {
  import opened Basics
  import opened ByteRings
  import opened LocalStreams
  import W = WaitConditions

  type Key = W.Key

  datatype Outcome<+T> =
    | Done(value: T)
    /** The caller is to wait on a key. */
    | Block(key: Key)
    | Fail(error: nat)

  const EAGAIN: nat := 11
  const EPIPE: nat := 32
  const EMSGSIZE: nat := 90
  const ENOBUFS: nat := 105

  class Pipe {
    /** Index of the pipe, which its keys are made from. */
    const id: nat
    const ring: Ring
    var readers: nat
    var writers: nat

    ghost predicate Valid()
      reads this, ring
    {
      ring.Valid()
    }

    /** What others may wait for. */
    ghost function Summary(): W.Pipe
      reads this, ring
    {
      W.Pipe(ring.len, readers, writers)
    }

    constructor (id: nat)
      ensures Valid() && fresh(ring) && fresh(ring.buf) && this.id == id && ring.Bytes() == [] && readers == writers == 1
      ensures Summary() == W.PipeStep(W.Pipe(0, 0, 0), W.PipeNew(id))
    {
      this.id, readers, writers := id, 1, 1;
      ring := new Ring();
    }

    /** add_ref: one more end open for reading, or for writing. */
    method AddEnd(reading: bool)
      requires Valid()
      modifies this
      ensures Valid() && ring.Bytes() == old(ring.Bytes())
      ensures Summary() == W.PipeStep(old(Summary()), if reading then W.PipeAddReader(id) else W.PipeAddWriter(id))
    {
      if reading { readers := readers + 1; } else { writers := writers + 1; }
    }

    /** drop_ref: one end less, which the other side is told; the pipe is blank again with the last one. */
    method DropEnd(reading: bool) returns (keys: seq<Key>)
      requires Valid() && if reading then readers > 0 else writers > 0
      modifies this, ring
      ensures Valid() && keys == [if reading then W.PipeKeyW(id) else W.PipeKeyR(id)]
      ensures readers == old(readers) - (if reading then 1 else 0) && writers == old(writers) - (if reading then 0 else 1)
      ensures ring.Bytes() == if readers == 0 && writers == 0 then [] else old(ring.Bytes())
      ensures Summary() == W.PipeStep(old(Summary()), if reading then W.PipeDropReader(id) else W.PipeDropWriter(id))
    {
      if reading { readers := readers - 1; } else { writers := writers - 1; }
      keys := [if reading then W.PipeKeyW(id) else W.PipeKeyR(id)];
      if readers == 0 && writers == 0 { ring.Consume(ring.len); }
    }

    /** pipe_read: the oldest bytes, in order; 0 when nobody writes any more. */
    method Read(dst: array<byte>, len: nat, nonblock: bool) returns (r: Outcome<nat>, keys: seq<Key>)
      requires Valid() && dst != ring.buf && len <= dst.Length
      modifies ring, dst
      ensures Valid()
      ensures old(ring.Bytes()) == [] ==>
                ring.Bytes() == [] && dst[..] == old(dst[..]) && keys == []
                && r == if writers == 0 then Done(0) else if nonblock then Fail(EAGAIN) else Block(W.PipeKeyR(id))
      ensures old(ring.Bytes()) != [] ==>
                r == Done(Min(len, |old(ring.Bytes())|)) && dst[..r.value] + ring.Bytes() == old(ring.Bytes())
                && dst[r.value..] == old(dst[r.value..]) && keys == [W.PipeKeyW(id)]
                && Summary() == W.PipeStep(old(Summary()), W.PipeRead(id, r.value))
      ensures r.Block? <==> !W.Holds(W.Objects([old(Summary())], [], [], []), W.PipeReadable(0)) && !nonblock
    {
      if ring.len == 0 {
        return if writers == 0 then Done(0) else if nonblock then Fail(EAGAIN) else Block(W.PipeKeyR(id)), [];
      }
      var n := Min(len, ring.len);
      ghost var held := ring.Bytes();
      ring.CopyOut(dst, n);
      ring.Consume(n);
      assert held == held[..n] + held[n..];
      r, keys := Done(n), [W.PipeKeyW(id)];
    }

    /** pipe_write: appends what fits; EPIPE when nobody reads any more. */
    method Write(src: seq<byte>, nonblock: bool) returns (r: Outcome<nat>, keys: seq<Key>)
      requires Valid()
      modifies ring, ring.buf
      ensures Valid()
      ensures !r.Done? ==> ring.Bytes() == old(ring.Bytes()) && keys == []
      ensures readers == 0 ==> r == Fail(EPIPE)
      ensures readers > 0 && |old(ring.Bytes())| == CAP ==> r == if nonblock then Fail(EAGAIN) else Block(W.PipeKeyW(id))
      ensures readers > 0 && |old(ring.Bytes())| < CAP ==>
                r == Done(Min(|src|, CAP - |old(ring.Bytes())|)) && ring.Bytes() == old(ring.Bytes()) + src[..r.value]
                && keys == [W.PipeKeyR(id)] && Summary() == W.PipeStep(old(Summary()), W.PipeWrite(id, r.value))
      ensures r.Block? <==> !W.Holds(W.Objects([old(Summary())], [], [], []), W.PipeWritable(0)) && !nonblock
    {
      if readers == 0 { return Fail(EPIPE), []; }
      var space := CAP - ring.len;
      if space == 0 { return if nonblock then Fail(EAGAIN) else Block(W.PipeKeyW(id)), []; }
      var n := Min(|src|, space);
      ring.CopyIn(src, n);
      r, keys := Done(n), [W.PipeKeyR(id)];
    }
  }

  /** The queue that end `e` of connection `c` reads. */
  class Queue {
    const c: nat
    const e: nat
    const packet: bool
    const ring: Ring
    var wpos: nat
    var rpos: nat
    const msgs: array<nat>
    var mhead: nat
    var mcount: nat
    var atts: seq<Att>
    var eof: bool
    /** References to the other end, which writes here. */
    var peerRefs: nat
    /** References to this end, which reads here. */
    var refs: nat

    ghost predicate Valid()
      reads this, ring
    {
      && ring.Valid() && msgs.Length == MSGQ && mhead < MSGQ && mcount <= MSGQ && wpos == rpos + ring.len && |atts| <= ATTQ && e < 2
    }

    ghost function SizesHeld(): (r: seq<nat>)
      requires Valid()
      reads this, ring, msgs
      ensures |r| == mcount
    {
      seq(mcount, k requires 0 <= k < mcount reads this, msgs, ring requires Valid() => msgs[Slot(mhead, k)])
    }

    ghost function View(): Chan
      requires Valid()
      reads this, ring, ring.buf, msgs
    {
      Chan(packet, ring.Bytes(), if packet then SizesHeld() else [], atts, rpos, eof)
    }

    /** What others may wait for. */
    ghost function Summary(): W.Queue
      reads this, ring
    {
      W.Queue(ring.len, if packet then mcount else 0, eof)
    }

    constructor (c: nat, e: nat, packet: bool)
      requires e < 2
      ensures Valid() && fresh(ring) && fresh(ring.buf) && fresh(msgs)
      ensures View() == Chan(packet, [], [], [], 0, false) && Balanced(View()) && refs == peerRefs == 1
    {
      this.c, this.e, this.packet := c, e, packet;
      ring := new Ring();
      msgs := new nat[MSGQ](_ => 0);
      wpos, rpos, mhead, mcount, atts, eof, refs, peerRefs := 0, 0, 0, 0, [], false, 1, 1;
    }

    /** unix::read */
    method Read(dst: array<byte>, len: nat, nonblock: bool) returns (r: Outcome<Got>, keys: seq<Key>)
      requires Valid() && Balanced(View()) && dst != ring.buf && len <= dst.Length
      modifies this, ring, dst
      ensures Valid() && Balanced(View())
      ensures old(View().bytes) != [] ==> CanRead(old(View()))
      ensures old(View().bytes) == [] ==>
                View() == old(View()) && dst[..] == old(dst[..]) && keys == []
                && r == if peerRefs == 0 || eof then Done(Got([], [], false)) else if nonblock then Fail(EAGAIN) else Block(W.UnixKey(c, e))
      ensures old(View().bytes) != [] ==>
                r.Done? && (View(), r.value) == ReadOf(old(View()), len) && keys == [W.UnixKey(c, 1 - e)]
                && |r.value.data| <= len && dst[..|r.value.data|] == r.value.data && dst[|r.value.data|..] == old(dst[|r.value.data|..])
      ensures old(View().bytes) != [] ==> Summary() == W.QueueRead(old(Summary()), packet, old(ring.len) - ring.len)
    {
      hide Balanced, CanRead;
      if ring.len == 0 {
        return if peerRefs == 0 || eof then Done(Got([], [], false)) else if nonblock then Fail(EAGAIN) else Block(W.UnixKey(c, e)), [];
      }
      ghost var q := View();
      ReadBalanced(q, len);
      var files := TakeFiles();
      var take, consume, trunc := Share(len);
      Drain(dst, take, consume);
      r := Done(Got(dst[..take], files, trunc));
      keys := [W.UnixKey(c, 1 - e)];
    }

    /** The first `take` bytes go to the buffer, and the first `consume` leave the ring. */
    method Drain(dst: array<byte>, take: nat, consume: nat)
      requires Valid() && dst != ring.buf && take <= consume <= ring.len && take <= dst.Length
      modifies this`rpos, ring, dst
      ensures Valid() && View() == old(View()).(bytes := old(View()).bytes[consume..], rpos := old(rpos) + consume)
      ensures ring.len == old(ring.len) - consume
      ensures dst[..take] == old(View()).bytes[..take] && dst[take..] == old(dst[take..])
    {
      ghost var sizes := SizesHeld();
      ring.CopyOut(dst, take);
      ring.Consume(consume);
      rpos := rpos + consume;
      assert SizesHeld() == sizes;
    }

    /** The descriptors attached to the next byte. */
    method TakeFiles() returns (files: seq<File>)
      requires Valid()
      modifies this`atts
      ensures Valid() && files == HandedNow(old(View())) && View() == old(View()).(atts := AttsAfter(old(View())))
    {
      files := [];
      if |atts| > 0 && atts[0].pos == rpos {
        files := atts[0].files;
        atts := atts[1..];
      }
    }

    /** How much of the queue a read takes: a whole message, or up to the next attachment. */
    method Share(len: nat) returns (take: nat, consume: nat, trunc: bool)
      requires Valid() && CanRead(View())
      modifies this`mhead, this`mcount
      ensures Valid() && consume <= ring.len && take <= consume && take <= len
      ensures packet ==> consume == old(View()).sizes[0] && take == Min(len, consume) && (trunc <==> len < consume)
      ensures packet ==> View() == old(View()).(sizes := old(View()).sizes[1..])
      ensures !packet ==> take == consume == Upto(ring.len, atts, rpos, len) && !trunc && View() == old(View())
    {
      if packet {
        var m := PopSize();
        return Min(len, m), m, len < m;
      }
      var n := Min(len, ring.len);
      if |atts| > 0 && atts[0].pos > rpos { n := Min(n, atts[0].pos - rpos); }
      return n, n, false;
    }

    method PopSize() returns (m: nat)
      requires Valid() && mcount > 0
      modifies this`mhead, this`mcount
      ensures Valid() && m == old(SizesHeld())[0] && SizesHeld() == old(SizesHeld())[1..]
    {
      hide Slot;
      SlotHere(mhead);
      m := msgs[mhead];
      ghost var before := mhead;
      mhead, mcount := Slot(mhead, 1), mcount - 1;
      forall k | 0 <= k < mcount ensures Slot(mhead, k) == Slot(before, k + 1) { SlotSlot(before, k); }
    }

    /** unix::write, of one message or as much of it as fits, with `files` attached to its first byte. */
    method Write(src: seq<byte>, nonblock: bool, files: seq<File>) returns (r: Outcome<nat>, keys: seq<Key>)
      requires Valid()
      modifies this, ring, ring.buf, msgs
      ensures Valid() && (old(Balanced(View())) ==> Balanced(View()))
      ensures !r.Done? ==> View() == old(View()) && keys == []
      ensures r.Fail? && r.error == EPIPE <==> old(refs) == 0
      ensures old(refs) > 0 && packet && |src| > CAP ==> r == Fail(EMSGSIZE)
      ensures r.Done? ==> r.value == (if packet then |src| else Min(|src|, CAP - |old(View()).bytes|)) && keys == [W.UnixKey(c, e)]
                            && View() == WriteOf(old(View()), src[..r.value], files)
                            && Summary() == W.QueueWritten(old(Summary()), packet, r.value)
      ensures r.Block? ==> r.key == W.UnixKey(c, e) && !nonblock
      ensures var full := if packet then CAP - |old(View()).bytes| < |src| || |old(View()).sizes| == MSGQ else |old(View()).bytes| == CAP;
              old(refs) > 0 && !(packet && |src| > CAP) ==>
                (full <==> r == if nonblock then Fail(EAGAIN) else Block(W.UnixKey(c, e)))
                && (!full ==> (r == Fail(ENOBUFS) <==> files != [] && (|old(atts)| == ATTQ || |files| > MAX_FILES)))
    {
      hide Balanced, ByteRings.At;
      if refs == 0 { return Fail(EPIPE), []; }
      var space := CAP - ring.len;
      if packet && |src| > CAP { return Fail(EMSGSIZE), []; }
      var full := if packet then space < |src| || mcount == MSGQ else space == 0;
      if full { return if nonblock then Fail(EAGAIN) else Block(W.UnixKey(c, e)), []; }
      ghost var q := View();
      if |files| > 0 {
        if |atts| == ATTQ || |files| > MAX_FILES { return Fail(ENOBUFS), []; }
        atts := atts + [Att(wpos, files)];
      }
      var n := if packet then |src| else Min(|src|, space);
      Append(src, n);
      assert View() == WriteOf(q, src[..n], files);
      if Balanced(q) { WriteBalanced(q, src[..n], files); }
      r, keys := Done(n), [W.UnixKey(c, e)];
    }

    /** The bytes of a message, and in packet mode its size. */
    method Append(src: seq<byte>, n: nat)
      requires Valid() && n <= |src| && n <= CAP - ring.len && (packet ==> mcount < MSGQ)
      modifies this`wpos, this`mcount, ring, ring.buf, msgs
      ensures Valid()
      ensures ring.Bytes() == old(ring.Bytes()) + src[..n]
      ensures if packet then SizesHeld() == old(SizesHeld()) + [n] else mcount == old(mcount)
    {
      ring.CopyIn(src, n);
      wpos := wpos + n;
      if packet {
        ghost var held := SizesHeld();
        NextSlot(mhead, mcount);
        msgs[Slot(mhead, mcount)] := n;
        mcount := mcount + 1;
        assert SizesHeld() == held + [n];
      }
    }
  }

  lemma NextSlot(head: nat, count: nat)
    requires count < MSGQ
    ensures forall k: nat :: k < count ==> Slot(head, k) != Slot(head, count)
  {
    hide Slot;
    forall k: nat | k < count ensures Slot(head, k) != Slot(head, count) { SlotsDiffer(head, k, count); }
  }

  lemma SlotsDiffer(head: nat, i: nat, j: nat)
    requires i < j < i + MSGQ
    ensures Slot(head, i) != Slot(head, j)
  {
  }

  lemma SlotSlot(head: nat, k: nat)
    ensures Slot(Slot(head, 1), k) == Slot(head, k + 1)
  {
  }

  /** Index `k` places after `head` around the ring of sizes. */
  function Slot(head: nat, k: nat): (r: nat)
    ensures r < MSGQ
  {
    (head + k) % MSGQ
  }

  lemma SlotHere(head: nat)
    requires head < MSGQ
    ensures Slot(head, 0) == head
  {
  }
}
