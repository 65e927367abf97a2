/** A connection record over its two buffers: the send buffer shifted down as bytes are acknowledged, the
    receive ring. Each operation is proved against the one on endpoints (kernel/src/net.rs:337-418,
    kernel/src/net.rs:466-538, kernel/src/net.rs:588-628). */
module TcpConnection {
  import opened Basics
  import opened TcpEndpoint
  import ByteRings

  lemma Pushed(b: seq<byte>, head: nat, len: nat, x: byte)
    requires |b| == RXCAP && len < RXCAP
    ensures ByteRings.Unrolled(b[ByteRings.At(head, len) := x], head, len + 1) == ByteRings.Unrolled(b, head, len) + [x]
  {
    hide ByteRings.At;
    forall j | 0 <= j < len ensures ByteRings.At(head, j) != ByteRings.At(head, len) { ByteRings.Distinct(head, j, len); }
  }

  lemma PartOf(b: seq<byte>, len: nat, at: nat, n: nat)
    requires at + n <= len <= |b|
    ensures b[..len][at..at + n] == b[at..at + n]
  {
  }

  class Tcp {
    var failed: bool
    var sndUna: nat
    var sndNxt: nat
    var rcvNxt: nat
    var peerWnd: nat
    var mss: nat
    const tx: array<byte>
    var txLen: nat
    const rx: array<byte>
    var rxHead: nat
    var rxLen: nat
    var advWnd: nat
    var lastTx: nat
    var retries: nat

    ghost predicate Valid()
      reads this, tx
    {
      && tx != rx && tx.Length == TXCAP && rx.Length == RXCAP && txLen <= TXCAP && rxHead < RXCAP && rxLen <= RXCAP
      && sndUna < M && sndNxt < M && rcvNxt < M && Sub(sndNxt, sndUna) <= txLen && 536 <= mss <= MAX_DATA
    }

    /** What the ring holds, oldest first. */
    function Ring(): (r: seq<byte>)
      requires rx.Length == RXCAP && rxHead < RXCAP && rxLen <= RXCAP
      reads this, rx
      ensures |r| == rxLen
    {
      ByteRings.Unrolled(rx[..], rxHead, rxLen)
    }

    ghost function View(): (e: Endpoint)
      requires Valid()
      reads this, tx, rx
      ensures Sane(e)
    {
      Endpoint(failed, sndUna, sndNxt, rcvNxt, peerWnd, mss, tx[..txLen], Ring(), advWnd, lastTx, retries)
    }

    /** A connection right after its handshake. */
    constructor (isn: nat, peerIsn: nat, peerWnd: nat, mss: nat, now: nat)
      requires isn < M && peerIsn < M && 536 <= mss <= MAX_DATA
      ensures Valid() && fresh(tx) && fresh(rx)
      ensures View() == Endpoint(false, Add(isn, 1), Add(isn, 1), Add(peerIsn, 1), peerWnd, mss, [], [], RXCAP - 1, now, 0)
    {
      failed, sndUna, sndNxt, rcvNxt := false, Add(isn, 1), Add(isn, 1), Add(peerIsn, 1);
      this.peerWnd, this.mss, txLen, rxHead, rxLen, advWnd, lastTx, retries := peerWnd, mss, 0, 0, 0, RXCAP - 1, now, 0;
      tx := new byte[TXCAP](_ => 0);
      rx := new byte[RXCAP](_ => 0);
    }

    /** tcp_segment: announces the window and sends. */
    method Emit(seqNo: nat, data: seq<byte>) returns (g: Segment)
      requires Valid()
      modifies this`advWnd
      ensures Valid() && g == Emitted(old(View()), seqNo, data)
      ensures View() == old(View()).(advWnd := Window(old(View())))
    {
      advWnd := Min(RXCAP - rxLen, 65535);
      g := Segment(seqNo, rcvNxt, advWnd, data);
    }

    /** tcp_output: sends until the data or the peer's window is used up. */
    method TcpOutput(now: nat) returns (out: seq<Segment>)
      requires Valid()
      modifies this`sndNxt, this`advWnd, this`lastTx
      ensures Valid() && (View(), out) == Output(old(View()), now)
      ensures forall i :: 0 <= i < |out| ==> Carries(old(View()), out[i])
      ensures forall i :: 0 <= i < |out| - 1 ==> |out[i].data| == mss
      ensures out != [] ==> |out[|out| - 1].data| == mss || InFlight(View()) == txLen || InFlight(View()) == Max(peerWnd, 1)
    {
      hide NextChunk, Emitted, Advanced, Carries;
      OutputCarries(View(), now);
      OutputFull(View(), now);
      out := [];
      ghost var start := View();
      assert [] + Output(start, now).1 == Output(start, now).1;
      var more := true;
      while more
        invariant Valid() && Output(start, now) == (Output(View(), now).0, out + Output(View(), now).1)
        invariant !more ==> NextChunk(View()) == 0
        decreases more, txLen - Sub(sndNxt, sndUna)
      {
        ghost var e := View();
        var g;
        more, g := SendNext(now);
        if more {
          assert out + ([g] + Output(View(), now).1) == (out + [g]) + Output(View(), now).1;
          out := out + [g];
        }
      }
      assert out + [] == out;
    }

    /** How much the next segment carries: what is queued, as far as the peer takes it in one segment and its window
        reaches. */
    method Chunk() returns (n: nat)
      requires Valid()
      ensures n == NextChunk(View())
    {
      var flight := Sub(sndNxt, sndUna);
      if failed || flight >= txLen { return 0; }
      var wnd := Max(peerWnd, 1);
      if flight >= wnd { return 0; }
      n := Min(Min(txLen - flight, mss), wnd - flight);
    }

    method SendNext(now: nat) returns (more: bool, g: Segment)
      requires Valid()
      modifies this`sndNxt, this`advWnd, this`lastTx
      ensures Valid()
      ensures var e := old(View()); var n := NextChunk(e);
              && (more <==> n > 0) && (!more ==> View() == e)
              && (more ==> View() == Advanced(e, n, now) && g == Emitted(e, e.sndNxt, e.tx[InFlight(e)..InFlight(e) + n]))
      ensures more ==> InFlight(View()) > InFlight(old(View()))
    {
      hide ByteRings.Unrolled, ByteRings.At, Add, Sub, NextChunk, Window;
      g := Segment(0, 0, 0, []);
      ChunkFits(View());
      var n := Chunk();
      if n == 0 { return false, g; }
      var flight := Sub(sndNxt, sndUna);
      AddSub(sndNxt, sndUna, n);
      PartOf(tx[..], txLen, flight, n);
      assert tx[..][..txLen] == tx[..txLen] && tx[..][flight..flight + n] == tx[flight..flight + n];
      g := Emit(sndNxt, tx[flight..flight + n]);
      sndNxt := Add(sndNxt, n);
      lastTx := now;
      more := true;
    }

    /** The acknowledged bytes leave the send buffer; the rest moves to its front. */
    method TakeAck(ack: nat, wnd: nat, now: nat)
      requires Valid() && ack < M
      modifies this, tx
      ensures Valid() && View() == Acknowledged(old(View()), ack, wnd, now)
    {
      var acked := Sub(ack, sndUna);
      if 0 < acked <= Sub(sndNxt, sndUna) {
        forall k | 0 <= k < txLen - acked { tx[k] := tx[k + acked]; }
        txLen, sndUna, retries, lastTx := txLen - acked, ack, 0, now;
        assert tx[..txLen] == old(tx[..txLen])[acked..];
      }
      peerWnd := wnd;
      assert Ring() == old(Ring());
    }

    /** In-order data goes into the ring, as far as it fits. */
    method TakeData(seqNo: nat, data: seq<byte>)
      requires Valid() && seqNo < M
      modifies this`rcvNxt, this`rxLen, rx
      ensures Valid() && View() == Received(old(View()), seqNo, data)
    {
      var d, sq := data, seqNo;
      var behind := Sub(rcvNxt, sq);
      if behind < |d| && behind < 0x8000_0000 { d, sq := d[behind..], rcvNxt; }
      if sq == rcvNxt {
        var n := Min(|d|, RXCAP - rxLen);
        Append(d, n);
        rcvNxt := Add(rcvNxt, n);
      } else {
        assert old(Ring()) + [] == Ring();
      }
    }

    /** The first `n` bytes of `d` go to the end of the ring. */
    method Append(d: seq<byte>, n: nat)
      requires Valid() && n <= |d| && n <= RXCAP - rxLen
      modifies this`rxLen, rx
      ensures Valid() && rxLen == old(rxLen) + n && View() == old(View()).(rx := old(Ring()) + d[..n])
    {
      hide Sub, Add, ByteRings.At, Sane;
      for k := 0 to n
        invariant Valid() && ByteRings.Unrolled(rx[..], rxHead, rxLen + k) == old(Ring()) + d[..k]
        invariant View() == old(View()).(rx := View().rx)
      {
        Pushed(rx[..], rxHead, rxLen + k, d[k]);
        rx[ByteRings.At(rxHead, rxLen + k)] := d[k];
        assert d[..k + 1] == d[..k] + [d[k]];
      }
      rxLen := rxLen + n;
    }

    /** tcp_input. */
    method TcpInput(g: Segment, now: nat) returns (out: seq<Segment>)
      requires Valid() && g.seqNo < M && g.ack < M
      modifies this, tx, rx
      ensures Valid() && (View(), out) == Input(old(View()), g, now)
    {
      TakeAck(g.ack, g.wnd, now);
      out := [];
      if g.data != [] {
        TakeData(g.seqNo, g.data);
        var a := Emit(sndNxt, []);
        out := [a];
      }
      var rest := TcpOutput(now);
      out := out + rest;
      assert [] + rest == rest;
    }

    /** tcp_timers for this connection. */
    method TcpTimer(now: nat) returns (out: seq<Segment>)
      requires Valid()
      modifies this
      ensures Valid() && (View(), out) == Timer(old(View()), now)
    {
      hide ByteRings.Unrolled, ByteRings.At, Add, Output, Backoff;
      if failed || sndNxt == sndUna || now < lastTx + Backoff(retries) { return []; }
      retries := retries + 1;
      if retries > MAX_RETRIES {
        failed := true;
        assert Ring() == old(Ring());
        return [];
      }
      lastTx := now;
      sndNxt := sndUna;
      assert Ring() == old(Ring());
      out := TcpOutput(now);
    }

    /** tcp_send: how many bytes were queued, or -1. */
    method TcpSend(data: seq<byte>, now: nat) returns (r: int, out: seq<Segment>)
      requires Valid()
      modifies this, tx
      ensures Valid() && (View(), out) == Send(old(View()), data, now)
      ensures r == if old(failed) then -1 else Accepted(old(View()), data)
    {
      if failed { return -1, []; }
      var n := Min(|data|, TXCAP - txLen);
      forall k | 0 <= k < n { tx[txLen + k] := data[k]; }
      txLen := txLen + n;
      assert tx[..txLen] == old(tx[..txLen]) + data[..n];
      assert Ring() == old(Ring());
      out := TcpOutput(now);
      r := n;
    }

    /** tcp_recv: the oldest bytes go out; -2 when there are none, -1 when there never will be. */
    method TcpRecv(dst: array<byte>) returns (r: int, out: seq<Segment>)
      requires Valid() && dst != tx && dst != rx
      modifies this, dst
      ensures Valid()
      ensures old(rxLen) == 0 ==> r == (if failed then -1 else -2) && View() == old(View()) && out == [] && dst[..] == old(dst[..])
      ensures old(rxLen) > 0 ==> (View(), out) == Recv(old(View()), dst.Length) && r == Min(dst.Length, old(rxLen))
      ensures old(rxLen) > 0 ==> dst[..r] == old(Ring())[..r] && dst[r..] == old(dst[r..])
    {
      if rxLen == 0 { return if failed then -1 else -2, []; }
      var n := Min(dst.Length, rxLen);
      CopyOut(dst, n);
      ByteRings.Dropped(rx[..], rxHead, rxLen, n);
      rxHead, rxLen := ByteRings.At(rxHead, n), rxLen - n;
      out := [];
      var free := Min(RXCAP - rxLen, 65535);
      if !failed && advWnd < RXCAP / 4 && free >= RXCAP / 2 {
        var g := Emit(sndNxt, []);
        out := [g];
      }
      r := n;
    }

    method CopyOut(dst: array<byte>, n: nat)
      requires Valid() && dst != tx && dst != rx && n <= dst.Length && n <= rxLen
      modifies dst
      ensures Valid() && View() == old(View())
      ensures dst[..n] == old(Ring())[..n] && dst[n..] == old(dst[n..])
    {
      for k := 0 to n
        invariant Valid() && View() == old(View())
        invariant forall j :: 0 <= j < k ==> dst[j] == old(Ring())[j]
        invariant forall j :: k <= j < dst.Length ==> dst[j] == old(dst[j])
      {
        dst[k] := rx[ByteRings.At(rxHead, k)];
      }
    }
  }
}
