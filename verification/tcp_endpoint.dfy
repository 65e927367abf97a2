/** One end of an established TCP connection: what each event does to it, in sequence numbers modulo 2^32
    (kernel/src/net.rs:318-418, kernel/src/net.rs:466-538, kernel/src/net.rs:588-628; sections 3.4 and
    3.10.7.4 of RFC 9293). */
module TcpEndpoint {
  import opened Basics

  const RXCAP: nat := 0x1_0000
  const TXCAP: nat := 0x4000
  const MAX_DATA: nat := 1460
  const RTO_MS: nat := 400
  const MAX_RETRIES: nat := 12
  /** The sequence space. */
  const M: nat := 0x1_0000_0000

  datatype Segment = Segment(seqNo: nat, ack: nat, wnd: nat, data: seq<byte>)

  /** `tx` starts at `sndUna`; `rx` is what has been received and not read. */
  datatype Endpoint = Endpoint(failed: bool, sndUna: nat, sndNxt: nat, rcvNxt: nat, peerWnd: nat, mss: nat,
                               tx: seq<byte>, rx: seq<byte>, advWnd: nat, lastTx: nat, retries: nat)

  function Add(a: nat, n: nat): (r: nat)
    ensures r < M
  {
    (a + n) % M
  }

  /** wrapping_sub */
  function Sub(a: nat, b: nat): (r: nat)
    requires a < M && b < M
    ensures r < M
  {
    if a >= b then a - b else a + M - b
  }

  function Min(a: nat, b: nat): nat { if a < b then a else b }

  function Max(a: nat, b: nat): nat { if a < b then b else a }

  predicate Sane(e: Endpoint)
  {
    && e.sndUna < M && e.sndNxt < M && e.rcvNxt < M && |e.tx| <= TXCAP && |e.rx| <= RXCAP
    && Sub(e.sndNxt, e.sndUna) <= |e.tx| && 536 <= e.mss <= MAX_DATA
  }

  function InFlight(e: Endpoint): nat
    requires Sane(e)
  {
    Sub(e.sndNxt, e.sndUna)
  }

  /** The window to announce: free room, as far as 16 bits go. */
  function Window(e: Endpoint): nat
    requires Sane(e)
  {
    Min(RXCAP - |e.rx|, 65535)
  }

  /** tcp_segment with ACK set. */
  function Emitted(e: Endpoint, seqNo: nat, data: seq<byte>): Segment
    requires Sane(e)
  {
    Segment(seqNo, e.rcvNxt, Window(e), data)
  }

  /** How much the next segment carries; 0 when there is nothing to send or no room for it. */
  function NextChunk(e: Endpoint): nat
    requires Sane(e)
  {
    var flight := InFlight(e);
    var wnd := Max(e.peerWnd, 1);
    if e.failed || flight >= |e.tx| || flight >= wnd then 0
    else Min(Min(|e.tx| - flight, e.mss), wnd - flight)
  }

  lemma ChunkFits(e: Endpoint)
    requires Sane(e)
    ensures InFlight(e) + NextChunk(e) <= |e.tx| < M
  {
  }

  lemma AddSub(a: nat, b: nat, n: nat)
    requires a < M && b < M && Sub(a, b) + n < M
    ensures Sub(Add(a, n), b) == Sub(a, b) + n
  {
  }

  /** The endpoint after one more segment. */
  function Advanced(e: Endpoint, n: nat, now: nat): (r: Endpoint)
    requires Sane(e) && n <= |e.tx| - InFlight(e)
    ensures Sane(r) && InFlight(r) == InFlight(e) + n
  {
    AddSub(e.sndNxt, e.sndUna, n);
    e.(sndNxt := Add(e.sndNxt, n), advWnd := Window(e), lastTx := now)
  }

  /** tcp_output: sends what the peer's window lets through. */
  function Output(e: Endpoint, now: nat): (r: (Endpoint, seq<Segment>))
    requires Sane(e)
    ensures Sane(r.0)
    decreases |e.tx| - InFlight(e)
  {
    var n := NextChunk(e);
    if n == 0 then (e, [])
    else
      var flight := InFlight(e);
      var rest := Output(Advanced(e, n, now), now);
      (rest.0, [Emitted(e, e.sndNxt, e.tx[flight..flight + n])] + rest.1)
  }

  /** The acknowledgment of a segment. */
  function Acknowledged(e: Endpoint, ack: nat, wnd: nat, now: nat): (r: Endpoint)
    requires Sane(e) && ack < M
    ensures Sane(r)
  {
    var acked := Sub(ack, e.sndUna);
    (if 0 < acked <= InFlight(e) then e.(tx := e.tx[acked..], sndUna := ack, retries := 0, lastTx := now) else e).(peerWnd := wnd)
  }

  /** The part of the data that starts at the next expected byte, if there is one. */
  function InOrder(e: Endpoint, seqNo: nat, data: seq<byte>): (r: seq<byte>)
    requires Sane(e) && seqNo < M
  {
    var behind := Sub(e.rcvNxt, seqNo);
    if behind < |data| && behind < 0x8000_0000 then data[behind..]
    else if seqNo == e.rcvNxt then data
    else []
  }

  /** The data of a segment: what is in order and fits is kept. */
  function Received(e: Endpoint, seqNo: nat, data: seq<byte>): (r: Endpoint)
    requires Sane(e) && seqNo < M
    ensures Sane(r)
  {
    var d := InOrder(e, seqNo, data);
    var n := Min(|d|, RXCAP - |e.rx|);
    e.(rx := e.rx + d[..n], rcvNxt := Add(e.rcvNxt, n))
  }

  /** tcp_input on a connection that was established, for a segment with ACK and without RST, SYN and FIN.
      After an error it still takes data in, but sends none. */
  function Input(e: Endpoint, g: Segment, now: nat): (r: (Endpoint, seq<Segment>))
    requires Sane(e) && g.seqNo < M && g.ack < M
    ensures Sane(r.0)
  {
    var acked := Acknowledged(e, g.ack, g.wnd, now);
    if g.data == [] then Output(acked, now)
    else
      var got := Received(acked, g.seqNo, g.data);
      var out := Output(got.(advWnd := Window(got)), now);
      (out.0, [Emitted(got, got.sndNxt, [])] + out.1)
  }

  /** One connection's turn in tcp_timers: go back to the first unacknowledged byte. */
  function Timer(e: Endpoint, now: nat): (r: (Endpoint, seq<Segment>))
    requires Sane(e)
    ensures Sane(r.0)
  {
    if e.failed || e.sndNxt == e.sndUna || now < e.lastTx + Backoff(e.retries) then (e, [])
    else if e.retries + 1 > MAX_RETRIES then (e.(retries := e.retries + 1, failed := true), [])
    else Output(e.(retries := e.retries + 1, lastTx := now, sndNxt := e.sndUna), now)
  }

  /** RTO_MS << min(retries, 4) */
  function Backoff(retries: nat): nat
  {
    if retries == 0 then RTO_MS else if retries == 1 then RTO_MS * 2 else if retries == 2 then RTO_MS * 4
    else if retries == 3 then RTO_MS * 8 else RTO_MS * 16
  }

  /** tcp_send: what fits is queued. */
  function Accepted(e: Endpoint, data: seq<byte>): nat
    requires Sane(e)
  {
    if e.failed then 0 else Min(|data|, TXCAP - |e.tx|)
  }

  function Send(e: Endpoint, data: seq<byte>, now: nat): (r: (Endpoint, seq<Segment>))
    requires Sane(e)
    ensures Sane(r.0)
  {
    if e.failed then (e, []) else Output(e.(tx := e.tx + data[..Accepted(e, data)]), now)
  }

  /** tcp_recv: up to `k` bytes leave; a window that had nearly closed is announced again once half open. */
  function Recv(e: Endpoint, k: nat): (r: (Endpoint, seq<Segment>))
    requires Sane(e)
    ensures Sane(r.0)
  {
    var f := e.(rx := e.rx[Min(k, |e.rx|)..]);
    if |e.rx| > 0 && !e.failed && e.advWnd < RXCAP / 4 && Window(f) >= RXCAP / 2
    then (f.(advWnd := Window(f)), [Emitted(f, f.sndNxt, [])])
    else (f, [])
  }

  // ---------------------------------------------------------------- what sending leaves

  /** Output never touches what was received or acknowledged, and never moves back. */
  lemma {:induction false} OutputKeeps(e: Endpoint, now: nat)
    requires Sane(e)
    ensures var r := Output(e, now).0;
            r == e.(sndNxt := r.sndNxt, advWnd := r.advWnd, lastTx := r.lastTx) && InFlight(e) <= InFlight(r)
    decreases |e.tx| - InFlight(e)
  {
    if NextChunk(e) > 0 { OutputKeeps(Advanced(e, NextChunk(e), now), now); }
  }

  /** Segment `g` carries bytes that are in `tx`, no more than the peer takes in one segment, under their own sequence
      number, and the current window. */
  predicate Carries(e: Endpoint, g: Segment)
    requires Sane(e)
  {
    && g.seqNo < M && g.ack == e.rcvNxt && g.wnd == Window(e) && |g.data| <= e.mss
    && var at := Sub(g.seqNo, e.sndUna);
    at + |g.data| <= |e.tx| && g.data == e.tx[at..at + |g.data|]
  }

  lemma {:induction false} OutputCarries(e: Endpoint, now: nat)
    requires Sane(e)
    ensures forall i :: 0 <= i < |Output(e, now).1| ==> Carries(e, Output(e, now).1[i])
    decreases |e.tx| - InFlight(e)
  {
    var n := NextChunk(e);
    if n > 0 {
      var f := Advanced(e, n, now);
      OutputCarries(f, now);
      var rest := Output(f, now).1;
      assert Output(e, now).1[1..] == rest;
      forall i | 0 <= i < |Output(e, now).1| ensures Carries(e, Output(e, now).1[i]) {
        if i > 0 { assert Carries(f, rest[i - 1]); }
      }
    }
  }

  /** Sending goes on until the data or the peer's window is used up, and never past the window: what was in flight
      before may exceed a window that shrank, but nothing is added to it then. */
  lemma {:induction false} OutputWindow(e: Endpoint, now: nat)
    requires Sane(e)
    ensures var r := Output(e, now);
            && InFlight(r.0) <= Max(InFlight(e), Max(e.peerWnd, 1))
            && (!e.failed ==> InFlight(r.0) == |e.tx| || InFlight(r.0) >= Max(e.peerWnd, 1))
            && (e.failed ==> r == (e, []))
    decreases |e.tx| - InFlight(e)
  {
    if NextChunk(e) > 0 { OutputWindow(Advanced(e, NextChunk(e), now), now); }
  }

  /** The segments of one output follow each other without a gap from the next number on. */
  lemma {:induction false} OutputFollows(e: Endpoint, now: nat)
    requires Sane(e)
    ensures var out := Output(e, now).1;
            && (out != [] ==> out[0].seqNo == e.sndNxt)
            && (forall i :: 0 <= i < |out| - 1 ==> out[i + 1].seqNo == Add(out[i].seqNo, |out[i].data|))
            && forall i :: 0 <= i < |out| ==> out[i].data != []
    decreases |e.tx| - InFlight(e)
  {
    var n := NextChunk(e);
    if n > 0 {
      var f := Advanced(e, n, now);
      OutputFollows(f, now);
      var out, rest := Output(e, now).1, Output(f, now).1;
      assert out == [out[0]] + rest && |out[0].data| == n;
      forall i | 0 <= i < |out| - 1 ensures out[i + 1].seqNo == Add(out[i].seqNo, |out[i].data|) {
        if i > 0 { assert rest[i].seqNo == Add(rest[i - 1].seqNo, |rest[i - 1].data|); }
      }
    }
  }

  /** All segments but the last are as long as the peer takes them; the last one is shorter only if the data or the
      window of the peer is used up with it. */
  lemma {:induction false} OutputFull(e: Endpoint, now: nat)
    requires Sane(e)
    ensures var (r, out) := Output(e, now);
            && (forall i :: 0 <= i < |out| - 1 ==> |out[i].data| == e.mss)
            && (out != [] ==> |out[|out| - 1].data| == e.mss || InFlight(r) == |e.tx| || InFlight(r) == Max(e.peerWnd, 1))
    decreases |e.tx| - InFlight(e)
  {
    var n := NextChunk(e);
    if n > 0 {
      var f := Advanced(e, n, now);
      OutputFull(f, now);
      var out, rest := Output(e, now).1, Output(f, now).1;
      assert out[1..] == rest && |out[0].data| == n;
      assert out == [out[0]] + rest;
      forall i | 0 <= i < |out| - 1 ensures |out[i].data| == e.mss {
        if i > 0 { assert |rest[i - 1].data| == e.mss; }
      }
    }
  }

  /** How many bytes the segments carry together. */
  function Carried(out: seq<Segment>): nat
  {
    if out == [] then 0 else |out[0].data| + Carried(out[1..])
  }

  /** What is in flight grows by what the segments carry; with the last one the window announced and the time are
      recorded, and with none nothing is. */
  lemma {:induction false} OutputLeaves(e: Endpoint, now: nat)
    requires Sane(e)
    ensures var (r, out) := Output(e, now);
            && InFlight(r) == InFlight(e) + Carried(out) && r.sndNxt == Add(e.sndNxt, Carried(out))
            && (if out == [] then r == e else r.advWnd == Window(e) && r.lastTx == now)
    decreases |e.tx| - InFlight(e)
  {
    hide Add, Sub;
    var n := NextChunk(e);
    if n > 0 {
      var f := Advanced(e, n, now);
      OutputLeaves(f, now);
      var out, rest := Output(e, now).1, Output(f, now).1;
      assert out[1..] == rest;
      AddTwice(e.sndNxt, n, Carried(rest));
    } else {
      AddTwice(e.sndNxt, 0, 0);
    }
  }

  lemma AddTwice(a: nat, m: nat, n: nat)
    ensures Add(Add(a, m), n) == Add(a, m + n) && (a < M ==> Add(a, 0) == a)
  {
  }

  /** The window announced is the largest that 16 bits and the free room allow. */
  lemma WindowLargest(e: Endpoint, w: nat)
    requires Sane(e)
    ensures w <= Window(e) <==> w <= 65535 && |e.rx| + w <= RXCAP
  {
  }

  /** The wait for an acknowledgment starts at 400 ms and doubles with each retry, four times. */
  lemma BackoffDoubles(k: nat)
    ensures Backoff(0) == 400 && Backoff(k + 1) == if k < 4 then 2 * Backoff(k) else Backoff(k)
  {
  }

  /** What is queued is a prefix of the data, and it falls short of all of it only when the buffer is full. */
  lemma SendMeans(e: Endpoint, data: seq<byte>, now: nat)
    requires Sane(e)
    ensures var (r, out) := Send(e, data, now); var n := Accepted(e, data);
            && n <= |data| && r.tx == e.tx + data[..n] && (e.failed ==> n == 0 && r == e && out == [])
            && (!e.failed ==> n == |data| || |r.tx| == TXCAP)
            && r.rx == e.rx && r.sndUna == e.sndUna && r.rcvNxt == e.rcvNxt && r.retries == e.retries && r.mss == e.mss
  {
    hide Output;
    if !e.failed { OutputKeeps(e.(tx := e.tx + data[..Accepted(e, data)]), now); }
  }

  /** A segment takes away only acknowledged bytes that were in flight, adds only bytes that continue the stream, and
      is answered at once when it carries data. */
  lemma InputMeans(e: Endpoint, g: Segment, now: nat)
    requires Sane(e) && g.seqNo < M && g.ack < M
    ensures var (r, out) := Input(e, g, now);
            var acked := Sub(g.ack, e.sndUna);
            var d := InOrder(e, g.seqNo, g.data);
            && (if 0 < acked <= InFlight(e) then r.tx == e.tx[acked..] && r.sndUna == g.ack else r.tx == e.tx && r.sndUna == e.sndUna)
            && r.peerWnd == g.wnd && r.failed == e.failed && r.mss == e.mss
            && r.retries == (if 0 < acked <= InFlight(e) then 0 else e.retries)
            && (0 < acked <= InFlight(e) ==> r.lastTx == now)
            && (g.data == [] ==> r.rx == e.rx && r.rcvNxt == e.rcvNxt)
            && (g.data != [] ==> r.rx == e.rx + d[..Min(|d|, RXCAP - |e.rx|)] && r.rcvNxt == Add(e.rcvNxt, |r.rx| - |e.rx|)
                                 && out != [] && out[0].ack == r.rcvNxt && out[0].wnd == Window(r))
  {
    hide Output, InOrder;
    var acked := Acknowledged(e, g.ack, g.wnd, now);
    SameOrder(e, acked, g.seqNo, g.data);
    if g.data == [] {
      OutputKeeps(acked, now);
      OutputLeaves(acked, now);
    } else {
      var got := Received(acked, g.seqNo, g.data);
      OutputKeeps(got.(advWnd := Window(got)), now);
      OutputLeaves(got.(advWnd := Window(got)), now);
    }
  }

  lemma SameOrder(e: Endpoint, f: Endpoint, seqNo: nat, data: seq<byte>)
    requires Sane(e) && Sane(f) && f.rcvNxt == e.rcvNxt && seqNo < M
    ensures InOrder(f, seqNo, data) == InOrder(e, seqNo, data)
  {
  }

  /** When the time is up, what is sent starts again at the first unacknowledged byte; after the last retry nothing is
      sent any more. */
  lemma TimerMeans(e: Endpoint, now: nat)
    requires Sane(e)
    ensures var (r, out) := Timer(e, now);
            var due := !e.failed && e.sndNxt != e.sndUna && now >= e.lastTx + Backoff(e.retries);
            && (!due ==> r == e && out == [])
            && (due && e.retries >= MAX_RETRIES ==> r.failed && out == [])
            && (due && e.retries < MAX_RETRIES ==> !r.failed && out != [] && out[0].seqNo == e.sndUna && out[0].data != [])
            && (due ==> r.retries == e.retries + 1) && r.peerWnd == e.peerWnd && r.mss == e.mss
            && r.tx == e.tx && r.rx == e.rx && r.sndUna == e.sndUna && r.rcvNxt == e.rcvNxt
  {
    hide Output;
    var f := e.(retries := e.retries + 1, lastTx := now, sndNxt := e.sndUna);
    OutputKeeps(f, now);
    OutputFollows(f, now);
    OutputSome(f, now);
  }

  /** With nothing in flight and something to send, something is sent. */
  lemma OutputSome(e: Endpoint, now: nat)
    requires Sane(e)
    ensures InFlight(e) == 0 && e.tx != [] && !e.failed ==> Output(e, now).1 != []
  {
  }

  /** Reading takes the oldest bytes and nothing else, and announces the window once it has opened from less than a
      quarter to half of the ring. */
  lemma RecvMeans(e: Endpoint, k: nat)
    requires Sane(e)
    ensures var (r, out) := Recv(e, k);
            && e.rx == e.rx[..Min(k, |e.rx|)] + r.rx && r == e.(rx := r.rx, advWnd := r.advWnd)
            && (out != [] <==> |e.rx| > 0 && !e.failed && e.advWnd < RXCAP / 4 && Window(r) >= RXCAP / 2)
            && (out != [] ==> r.advWnd == Window(r) && |out| == 1 && out[0] == Segment(e.sndNxt, e.rcvNxt, Window(r), []))
  {
  }
}
