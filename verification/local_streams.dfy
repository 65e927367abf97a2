/** One direction of a local connection: bytes, message boundaries and attached descriptors
    (kernel/src/unix.rs:30-46, kernel/src/unix.rs:130-211), against the history of what was sent. */
module LocalStreams {
  import opened Basics
  import opened ByteRings

  const MSGQ: nat := 128
  const ATTQ: nat := 8
  const MAX_FILES: nat := 16

  /** A descriptor in flight. */
  type File = nat

  /** Descriptors attached to the byte at `pos`, counted from the first byte ever written. */
  datatype Att = Att(pos: nat, files: seq<File>)

  datatype Chan = Chan(packet: bool, bytes: seq<byte>, sizes: seq<nat>, atts: seq<Att>, rpos: nat, eof: bool)

  /** What one read returns. */
  datatype Got = Got(data: seq<byte>, files: seq<File>, truncated: bool)

  // ---------------------------------------------------------------- reading and writing

  function HandedNow(q: Chan): seq<File>
  {
    if q.atts != [] && q.atts[0].pos == q.rpos then q.atts[0].files else []
  }

  function AttsAfter(q: Chan): seq<Att>
  {
    if q.atts != [] && q.atts[0].pos == q.rpos then q.atts[1..] else q.atts
  }

  /** How many of `avail` bytes a stream read takes: it stops before the next attachment. */
  function Upto(avail: nat, atts: seq<Att>, rpos: nat, len: nat): (n: nat)
    ensures n <= avail && n <= len
  {
    var n := Min(len, avail);
    if atts != [] && atts[0].pos > rpos then Min(n, atts[0].pos - rpos) else n
  }

  function StreamTake(q: Chan, len: nat): (n: nat)
    ensures n <= |q.bytes| && n <= len
  {
    Upto(|q.bytes|, AttsAfter(q), q.rpos, len)
  }

  ghost predicate CanRead(q: Chan)
  {
    q.bytes != [] && (q.packet ==> q.sizes != [] && q.sizes[0] <= |q.bytes|)
  }

  /** A read of up to `len` bytes from a queue that has some. */
  function ReadOf(q: Chan, len: nat): (Chan, Got)
    requires CanRead(q)
  {
    if q.packet then
      var m := q.sizes[0];
      (q.(bytes := q.bytes[m..], sizes := q.sizes[1..], atts := AttsAfter(q), rpos := q.rpos + m),
       Got(q.bytes[..Min(len, m)], HandedNow(q), len < m))
    else
      var n := StreamTake(q, len);
      (q.(bytes := q.bytes[n..], atts := AttsAfter(q), rpos := q.rpos + n), Got(q.bytes[..n], HandedNow(q), false))
  }

  /** In packet mode the sizes held are those of the bytes held. */
  predicate Balanced(q: Chan)
  {
    q.packet ==> SizeSum(q.sizes) == |q.bytes|
  }

  function SizeSum(sizes: seq<nat>): nat
  {
    if sizes == [] then 0 else sizes[0] + SizeSum(sizes[1..])
  }

  /** So there is always something to read when there are bytes, and reading keeps the balance. */
  lemma ReadBalanced(q: Chan, len: nat)
    requires Balanced(q) && q.bytes != []
    ensures CanRead(q) && Balanced(ReadOf(q, len).0)
  {
  }

  lemma {:induction false} SizeSumAppend(sizes: seq<nat>, n: nat)
    ensures SizeSum(sizes + [n]) == SizeSum(sizes) + n
  {
    if sizes == [] {
      assert [n][1..] == [];
    } else {
      assert (sizes + [n])[1..] == sizes[1..] + [n];
      SizeSumAppend(sizes[1..], n);
    }
  }

  lemma WriteBalanced(q: Chan, data: seq<byte>, files: seq<File>)
    requires Balanced(q)
    ensures Balanced(WriteOf(q, data, files))
  {
    SizeSumAppend(q.sizes, |data|);
  }

  /** `data` went in, with `files` attached to its first byte. */
  function WriteOf(q: Chan, data: seq<byte>, files: seq<File>): Chan
  {
    q.(bytes := q.bytes + data, sizes := if q.packet then q.sizes + [|data|] else q.sizes,
       atts := if files != [] then q.atts + [Att(q.rpos + |q.bytes|, files)] else q.atts)
  }

  // ---------------------------------------------------------------- the history

  datatype Msg = Msg(data: seq<byte>, files: seq<File>)

  /** All that was ever written. */
  function Stream(sent: seq<Msg>): seq<byte>
  {
    if sent == [] then [] else Stream(sent[..|sent| - 1]) + sent[|sent| - 1].data
  }

  /** Where message `k` starts. */
  function Start(sent: seq<Msg>, k: nat): nat
    requires k <= |sent|
  {
    |Stream(sent[..k])|
  }

  /** All that was ever attached, in order. */
  function Attached(sent: seq<Msg>): seq<Att>
  {
    if sent == [] then []
    else
      var init, last := sent[..|sent| - 1], sent[|sent| - 1];
      Attached(init) + if last.files != [] then [Att(|Stream(init)|, last.files)] else []
  }

  function Sizes(sent: seq<Msg>): (r: seq<nat>)
    ensures |r| == |sent|
  {
    seq(|sent|, k requires 0 <= k < |sent| => |sent[k].data|)
  }

  ghost predicate NonEmpty(sent: seq<Msg>)
  {
    forall k :: 0 <= k < |sent| ==> sent[k].data != []
  }

  /** The queue holds what was sent and not read: the bytes from `rpos` on, the messages from number `got`
      on, and the attachments not yet handed over, none of which has been passed. */
  ghost predicate Tracks(q: Chan, sent: seq<Msg>, got: nat, handed: seq<Att>)
  {
    && NonEmpty(sent) && got <= |sent|
    && q.rpos <= |Stream(sent)| && q.bytes == Stream(sent)[q.rpos..]
    && handed + q.atts == Attached(sent)
    && (forall a :: a in q.atts ==> a.pos >= q.rpos)
    && (forall a :: a in handed ==> if q.packet then a.pos < q.rpos else a.pos <= q.rpos)
    && (q.packet ==> q.sizes == Sizes(sent)[got..] && q.rpos == Start(sent, got))
  }

  lemma {:induction false} AttachedBelow(sent: seq<Msg>)
    requires NonEmpty(sent)
    ensures forall i :: 0 <= i < |Attached(sent)| ==> Attached(sent)[i].pos < |Stream(sent)|
    ensures forall i, j :: 0 <= i < j < |Attached(sent)| ==> Attached(sent)[i].pos < Attached(sent)[j].pos
  {
    if sent != [] { AttachedBelow(sent[..|sent| - 1]); }
  }

  /** An attachment is what its message carried. */
  lemma {:induction false} AttachedMeans(sent: seq<Msg>, i: nat) returns (k: nat)
    requires i < |Attached(sent)|
    ensures k < |sent| && Attached(sent)[i] == Att(Start(sent, k), sent[k].files) && sent[k].files != []
  {
    var init := sent[..|sent| - 1];
    if i < |Attached(init)| {
      k := AttachedMeans(init, i);
      assert init[..k] == sent[..k];
    } else {
      k := |sent| - 1;
    }
  }

  /** A message of at least one byte keeps the queue in step with the history. */
  lemma WriteTracks(q: Chan, sent: seq<Msg>, got: nat, handed: seq<Att>, data: seq<byte>, files: seq<File>)
    requires Tracks(q, sent, got, handed) && data != []
    ensures Tracks(WriteOf(q, data, files), sent + [Msg(data, files)], got, handed)
  {
    var after := sent + [Msg(data, files)];
    assert after[..|after| - 1] == sent;
    assert Stream(after)[q.rpos..] == Stream(sent)[q.rpos..] + data;
    assert handed + (q.atts + [Att(|Stream(sent)|, files)]) == (handed + q.atts) + [Att(|Stream(sent)|, files)];
    assert after[..got] == sent[..got];
    assert Sizes(after)[got..] == Sizes(sent)[got..] + [|data|];
  }

  lemma {:induction false} StartGrows(sent: seq<Msg>, k: nat)
    requires k < |sent|
    ensures Start(sent, k + 1) == Start(sent, k) + |sent[k].data|
    ensures Start(sent, k + 1) <= |Stream(sent)|
    ensures Stream(sent)[Start(sent, k)..Start(sent, k + 1)] == sent[k].data
  {
    assert sent[..k + 1][..k] == sent[..k];
    StreamPrefix(sent, k + 1);
    assert Stream(sent[..k + 1])[Start(sent, k)..] == sent[k].data;
  }

  lemma {:induction false} StreamPrefix(sent: seq<Msg>, k: nat)
    requires k <= |sent|
    ensures Stream(sent[..k]) <= Stream(sent)
    decreases |sent| - k
  {
    if k < |sent| {
      StreamPrefix(sent, k + 1);
      assert sent[..k + 1][..k] == sent[..k];
    } else {
      assert sent[..k] == sent;
    }
  }

  /** Attachments never sit strictly between the boundaries of one message. */
  lemma {:induction false} AttachedAtStarts(sent: seq<Msg>, a: Att, k: nat)
    requires NonEmpty(sent) && a in Attached(sent) && k < |sent| && a.pos > Start(sent, k)
    ensures a.pos >= Start(sent, k + 1)
  {
    var i :| 0 <= i < |Attached(sent)| && Attached(sent)[i] == a;
    var j := AttachedMeans(sent, i);
    if j <= k { StartsOrdered(sent, j, k); } else { StartsOrdered(sent, k + 1, j); }
  }

  lemma {:induction false} StartsOrdered(sent: seq<Msg>, j: nat, k: nat)
    requires j <= k <= |sent|
    ensures Start(sent, j) <= Start(sent, k)
    decreases k
  {
    if j < k {
      StartsOrdered(sent, j, k - 1);
      StartGrows(sent, k - 1);
    }
  }

  /** The handed attachments after a read. */
  function HandedAfter(q: Chan, handed: seq<Att>): seq<Att>
  {
    if HandedNow(q) == [] then handed else handed + [Att(q.rpos, HandedNow(q))]
  }

  /** Taking the first attachment, or none, keeps the account of attachments. */
  lemma HandedSplit(q: Chan, sent: seq<Msg>, got: nat, handed: seq<Att>)
    requires Tracks(q, sent, got, handed)
    ensures HandedAfter(q, handed) + AttsAfter(q) == Attached(sent)
    ensures forall a :: a in HandedAfter(q, handed) ==> a.pos <= q.rpos && (a in handed || a.files == HandedNow(q))
  {
    FirstHasFiles(q, sent, handed);
    if q.atts != [] && q.atts[0].pos == q.rpos {
      var rest := AttsAfter(q);
      assert q.atts[0] == Att(q.rpos, HandedNow(q)) && q.atts == [q.atts[0]] + rest;
      assert handed + ([q.atts[0]] + rest) == (handed + [q.atts[0]]) + rest;
    }
  }

  /** What is left lies ahead, in order. */
  lemma RestAhead(q: Chan, sent: seq<Msg>, got: nat, handed: seq<Att>)
    requires Tracks(q, sent, got, handed)
    ensures forall a :: a in AttsAfter(q) ==> a.pos > q.rpos && AttsAfter(q)[0].pos <= a.pos && a.pos < |Stream(sent)|
  {
    AttachedBelow(sent);
    var all, k := Attached(sent), |handed|;
    forall i | 0 <= i < |q.atts| ensures q.atts[i] == all[k + i] { }
    hide Attached;
    forall i, j | 0 <= i < j < |q.atts| ensures q.atts[i].pos < q.atts[j].pos {
      assert all[k + i].pos < all[k + j].pos;
    }
    forall i | 0 <= i < |q.atts| ensures q.rpos <= q.atts[i].pos < |Stream(sent)| { assert q.atts[i] in q.atts; }
  }

  lemma HandedOn(q: Chan, sent: seq<Msg>, got: nat, handed: seq<Att>)
    requires Tracks(q, sent, got, handed)
    ensures HandedAfter(q, handed) + AttsAfter(q) == Attached(sent)
    ensures forall a :: a in HandedAfter(q, handed) ==> a.pos <= q.rpos
    ensures forall a :: a in AttsAfter(q) ==> a.pos > q.rpos && AttsAfter(q)[0].pos <= a.pos && a.pos < |Stream(sent)|
    ensures forall a :: a in Attached(sent) && a.pos == q.rpos && a !in handed ==> a.files == HandedNow(q)
    ensures forall a :: a in Attached(sent) && a.pos > q.rpos ==> a in AttsAfter(q)
  {
    HandedSplit(q, sent, got, handed);
    RestAhead(q, sent, got, handed);
    hide Attached, HandedAfter, AttsAfter, HandedNow, Tracks;
    forall a | a in Attached(sent) ensures a in HandedAfter(q, handed) || a in AttsAfter(q) {
      assert a in HandedAfter(q, handed) + AttsAfter(q);
    }
  }

  lemma TrackedBytes(q: Chan, sent: seq<Msg>, got: nat, handed: seq<Att>)
    requires Tracks(q, sent, got, handed)
    ensures q.rpos <= |Stream(sent)| && q.bytes == Stream(sent)[q.rpos..]
  {
  }

  /** A stream read: the next bytes in order, with the descriptors attached to the first of them, and nothing
      attached to a later one is passed. */
  lemma StreamRead(q: Chan, sent: seq<Msg>, got: nat, handed: seq<Att>, len: nat)
    requires Tracks(q, sent, got, handed) && CanRead(q) && !q.packet
    ensures var r := ReadOf(q, len); var n := |r.1.data|;
            && Tracks(r.0, sent, got, HandedAfter(q, handed))
            && n <= len && (len > 0 ==> n > 0) && q.rpos + n <= |Stream(sent)|
            && r.1.data == Stream(sent)[q.rpos..q.rpos + n] && r.0.rpos == q.rpos + n
            && (forall a :: a in Attached(sent) && a.pos == q.rpos && a !in handed ==> a.files == r.1.files)
            && (forall a :: a in Attached(sent) ==> !(q.rpos < a.pos < q.rpos + n))
  {
    HandedOn(q, sent, got, handed);
    TrackedBytes(q, sent, got, handed);
    StreamTracks(q, sent, got, handed, len);
    hide Tracks, Attached, HandedNow, HandedAfter, Stream, AttsAfter;
    var n := StreamTake(q, len);
    assert Stream(sent)[q.rpos..][..n] == Stream(sent)[q.rpos..q.rpos + n];
    forall a | a in Attached(sent) && a.pos > q.rpos ensures a.pos >= q.rpos + n { assert a in AttsAfter(q); }
  }

  lemma StreamTracks(q: Chan, sent: seq<Msg>, got: nat, handed: seq<Att>, len: nat)
    requires Tracks(q, sent, got, handed) && CanRead(q) && !q.packet
    ensures Tracks(ReadOf(q, len).0, sent, got, HandedAfter(q, handed))
  {
    HandedOn(q, sent, got, handed);
    hide Attached, HandedNow, HandedAfter, Stream, Start, Sizes, NonEmpty, AttsAfter;
    var n := StreamTake(q, len);
    assert Stream(sent)[q.rpos..][n..] == Stream(sent)[q.rpos + n..];
    if AttsAfter(q) != [] { assert AttsAfter(q)[0] in AttsAfter(q); }
  }

  /** It stops only when it has `len` bytes, all there are, or all before the next attachment. */
  lemma StreamStops(q: Chan, sent: seq<Msg>, got: nat, handed: seq<Att>, len: nat)
    requires Tracks(q, sent, got, handed) && CanRead(q) && !q.packet
    ensures var n := |ReadOf(q, len).1.data|;
            n == len || q.rpos + n == |Stream(sent)| || exists a :: a in Attached(sent) && a.pos == q.rpos + n
  {
    HandedOn(q, sent, got, handed);
    hide Attached, HandedNow, HandedAfter, Stream, Start, Sizes, NonEmpty, AttsAfter;
    var n := StreamTake(q, len);
    if AttsAfter(q) != [] { assert AttsAfter(q)[0] in HandedAfter(q, handed) + AttsAfter(q); }
  }

  /** A packet read: one message, cut to `len` bytes with the rest thrown away, and all its descriptors. */
  lemma PacketRead(q: Chan, sent: seq<Msg>, got: nat, handed: seq<Att>, len: nat)
    requires Tracks(q, sent, got, handed) && q.bytes != [] && q.packet
    ensures got < |sent| && CanRead(q)
    ensures var r := ReadOf(q, len); var m := sent[got];
            && Tracks(r.0, sent, got + 1, HandedAfter(q, handed))
            && r.1.data == m.data[..Min(len, |m.data|)] && (r.1.truncated <==> len < |m.data|)
            && r.1.files == m.files
  {
    NotAllRead(q, sent, got, handed);
    StartGrows(sent, got);
    HandedOn(q, sent, got, handed);
    var m := |sent[got].data|;
    assert Sizes(sent)[got..][0] == m && Sizes(sent)[got..][1..] == Sizes(sent)[got + 1..];
    assert Stream(sent)[q.rpos..][..m] == sent[got].data;
    assert Stream(sent)[q.rpos..][m..] == Stream(sent)[q.rpos + m..];
    assert q.bytes[..Min(len, m)] == sent[got].data[..Min(len, m)];
    forall a | a in AttsAfter(q) ensures a.pos >= q.rpos + m {
      assert a in HandedAfter(q, handed) + AttsAfter(q);
      AttachedAtStarts(sent, a, got);
    }
    FilesOf(q, sent, got, handed);
  }

  /** Bytes left means messages left. */
  lemma NotAllRead(q: Chan, sent: seq<Msg>, got: nat, handed: seq<Att>)
    requires Tracks(q, sent, got, handed) && q.bytes != [] && q.packet
    ensures got < |sent|
  {
    assert sent[..|sent|] == sent;
  }

  /** Between two packets: everything handed on belongs to earlier ones. */
  lemma PacketPlace(q: Chan, sent: seq<Msg>, got: nat, handed: seq<Att>)
    requires Tracks(q, sent, got, handed) && q.packet && got < |sent|
    ensures q.rpos == Start(sent, got) && NonEmpty(sent) && (forall a :: a in handed ==> a.pos < q.rpos)
    ensures q.atts != [] ==> q.atts[0] in Attached(sent)
  {
    if q.atts != [] { assert q.atts[0] in handed + q.atts; }
  }

  lemma HandedAt(q: Chan, sent: seq<Msg>, got: nat, handed: seq<Att>, a: Att)
    requires Tracks(q, sent, got, handed) && a in Attached(sent) && a.pos == q.rpos && a !in handed
    ensures a.files == HandedNow(q)
  {
    HandedOn(q, sent, got, handed);
  }

  /** An attachment at the start of a message is that message's. */
  lemma {:induction false} OwnStart(sent: seq<Msg>, got: nat, a: Att)
    requires NonEmpty(sent) && got < |sent| && a in Attached(sent) && a.pos == Start(sent, got)
    ensures a.files == sent[got].files
  {
    var i :| 0 <= i < |Attached(sent)| && Attached(sent)[i] == a;
    var k := AttachedMeans(sent, i);
    hide Attached, Stream, Start;
    if k < got { StartsOrdered(sent, k + 1, got); StartGrows(sent, k); }
    if k > got { StartsOrdered(sent, got + 1, k); StartGrows(sent, got); }
  }

  /** The descriptors at hand are those of the next message. */
  lemma FilesOf(q: Chan, sent: seq<Msg>, got: nat, handed: seq<Att>)
    requires Tracks(q, sent, got, handed) && q.packet && got < |sent|
    ensures HandedNow(q) == sent[got].files
  {
    PacketPlace(q, sent, got, handed);
    if sent[got].files != [] {
      var a := Att(Start(sent, got), sent[got].files);
      AttachedHas(sent, got);
      hide Tracks, Attached, Start, Stream;
      HandedAt(q, sent, got, handed, a);
    } else if HandedNow(q) != [] {
      OwnStart(sent, got, q.atts[0]);
    }
  }

  lemma {:induction false} AttachedHas(sent: seq<Msg>, k: nat)
    requires k < |sent| && sent[k].files != []
    ensures Att(Start(sent, k), sent[k].files) in Attached(sent)
  {
    var init := sent[..|sent| - 1];
    if k < |init| {
      AttachedHas(init, k);
      assert init[..k] == sent[..k];
    }
  }

  /** Every attachment carries descriptors. */
  lemma FirstHasFiles(q: Chan, sent: seq<Msg>, handed: seq<Att>)
    requires handed + q.atts == Attached(sent)
    ensures q.atts != [] ==> q.atts[0].files != []
  {
    if q.atts != [] {
      assert Attached(sent)[|handed|] == q.atts[0];
      var k := AttachedMeans(sent, |handed|);
    }
  }

  // ---------------------------------------------------------------- empty messages

  /** An attachment that has been passed. */
  ghost predicate Jammed(q: Chan)
  {
    q.atts != [] && q.atts[0].pos < q.rpos
  }

  /** Once an attachment has been passed, no read hands over anything any more. */
  lemma JamStays(q: Chan, len: nat)
    requires CanRead(q) && Jammed(q)
    ensures ReadOf(q, len).1.files == [] && Jammed(ReadOf(q, len).0)
  {
  }

  /** Descriptors sent with no bytes do that: the next message's share their position, and are passed by the
      read that hands over the first ones, exactly when it takes a byte. */
  lemma EmptyMessageJams(q: Chan, data: seq<byte>, a: seq<File>, b: seq<File>, len: nat)
    requires q.bytes == [] && q.atts == [] && q.sizes == [] && !q.packet && data != [] && a != [] && b != []
    ensures var two := WriteOf(WriteOf(q, [], a), data, b);
            CanRead(two) && ReadOf(two, len).1.files == a && (Jammed(ReadOf(two, len).0) <==> len > 0)
  {
  }
}
