/** Two endpoints over a network that loses, repeats and reorders segments: what is delivered is a prefix of
    what was written (kernel/src/net.rs:393-418, kernel/src/net.rs:466-538, kernel/src/net.rs:588-628). */
module TcpLink {
  import opened Basics
  import opened TcpEndpoint

  /** A segment on its way, with the positions in the two byte streams that its numbers stand for. */
  datatype Flight = Flight(g: Segment, pos: nat, ackPos: nat)

  /** One side of a connection: its endpoint, the number its stream starts at, all it ever wrote, how much of
      that is acknowledged, how much of the peer's stream it took in, what it handed to its reader, and all
      the segments it ever sent. */
  datatype Side = Side(e: Endpoint, base: nat, written: seq<byte>, una: nat, rcv: nat, delivered: seq<byte>, sent: seq<Flight>)

  // ---------------------------------------------------------------- the invariant

  /** The sending half of `s`: its window of the stream it wrote. */
  ghost predicate SendOk(s: Side)
  {
    && Sane(s.e) && s.e.sndUna == Add(s.base, s.una)
    && s.una <= |s.written| && s.e.tx == s.written[s.una..]
  }

  /** The receiving half of `s`: what it delivered and holds is how far it has come in the peer's stream. */
  ghost predicate ReceiveOk(s: Side, p: Side)
  {
    && Sane(s.e) && s.e.rcvNxt == Add(p.base, s.rcv)
    && s.rcv <= |p.written| && s.delivered + s.e.rx == p.written[..s.rcv]
  }

  /** A segment of `s` carries a stretch of what `s` wrote, and acknowledges no more than `s` took in. */
  ghost predicate FlightOk(f: Flight, s: Side, p: Side)
  {
    && f.g.seqNo == Add(s.base, f.pos) && f.pos + |f.g.data| <= |s.written|
    && f.g.data == s.written[f.pos..f.pos + |f.g.data|] && |f.g.data| <= s.e.mss
    && f.g.ack == Add(p.base, f.ackPos) && f.ackPos <= s.rcv
    && |s.e.rx| <= RXCAP && RightEdge(f) <= s.rcv + Min(RXCAP - |s.e.rx|, 65535)
  }

  /** The end of the window that a segment announces. */
  function RightEdge(f: Flight): nat
  {
    f.ackPos + f.g.wnd
  }

  ghost predicate EdgesOk(sent: seq<Flight>)
  {
    forall i, j :: 0 <= i < j < |sent| ==> RightEdge(sent[i]) <= RightEdge(sent[j])
  }

  /** Everything about the stream from `s` to `p`. */
  ghost predicate SideOk(s: Side, p: Side)
  {
    && SendOk(s) && ReceiveOk(s, p) && s.una <= p.rcv && |s.e.rx| <= RXCAP
    && (forall i :: 0 <= i < |s.sent| ==> FlightOk(s.sent[i], s, p))
    && EdgesOk(s.sent)
  }

  datatype Link = Link(a: Side, b: Side)

  ghost predicate Valid(l: Link)
  {
    SideOk(l.a, l.b) && SideOk(l.b, l.a)
  }

  // ---------------------------------------------------------------- steps

  /** The side after its endpoint became `e` and sent `segs`: the positions follow the sequence numbers. */
  function Moved(s: Side, e: Endpoint, segs: seq<Segment>): Side
    requires Sane(s.e) && Sane(e) && forall i :: 0 <= i < |segs| ==> segs[i].seqNo < M
  {
    var una, rcv := s.una + Sub(e.sndUna, s.e.sndUna), s.rcv + Sub(e.rcvNxt, s.e.rcvNxt);
    s.(e := e, una := una, rcv := rcv, sent := s.sent + Lifted(e, una, rcv, segs))
  }

  function Lifted(e: Endpoint, una: nat, rcv: nat, segs: seq<Segment>): (r: seq<Flight>)
    requires Sane(e) && forall i :: 0 <= i < |segs| ==> segs[i].seqNo < M
    ensures |r| == |segs|
  {
    seq(|segs|, i requires 0 <= i < |segs| => Flight(segs[i], una + Sub(segs[i].seqNo, e.sndUna), rcv))
  }

  /** Not so old that its numbers mean something else by now. Half the sequence space is young enough. */
  ghost predicate Young(f: Flight, s: Side)
  {
    s.rcv < f.pos + M && s.una + TXCAP < f.ackPos + M
  }

  lemma HalfTheSpace(f: Flight, s: Side)
    requires s.rcv < f.pos + 0x8000_0000 && s.una < f.ackPos + 0x8000_0000
    ensures Young(f, s)
  {
  }

  datatype Step =
    | Write(data: seq<byte>, now: nat)
    | Read(k: nat)
    | Tick(now: nat)
    | Deliver(i: nat, now: nat)

  /** A step of side `s` whose peer is `p`. */
  ghost predicate Allowed(s: Side, p: Side, step: Step)
  {
    step.Deliver? ==> step.i < |p.sent| && Young(p.sent[step.i], s) && p.sent[step.i].g.seqNo < M && p.sent[step.i].g.ack < M
  }

  function Outcome(s: Side, p: Side, step: Step): (r: (Endpoint, seq<Segment>))
    requires Sane(s.e) && (step.Deliver? ==> step.i < |p.sent| && p.sent[step.i].g.seqNo < M && p.sent[step.i].g.ack < M)
    ensures Sane(r.0)
  {
    match step
    case Write(data, now) => Send(s.e, data, now)
    case Read(k) => Recv(s.e, k)
    case Tick(now) => Timer(s.e, now)
    case Deliver(i, now) => Input(s.e, p.sent[i].g, now)
  }

  /** Every segment of the step fits the endpoint it leaves behind. */
  ghost predicate AllCarry(e: Endpoint, segs: seq<Segment>)
    requires Sane(e)
  {
    forall i :: 0 <= i < |segs| ==> Carries(e, segs[i])
  }

  /** The segments of an output fit the endpoint after it as well. */
  lemma OutputFits(e: Endpoint, now: nat)
    requires Sane(e)
    ensures AllCarry(Output(e, now).0, Output(e, now).1)
  {
    OutputKeeps(e, now);
    OutputCarries(e, now);
    var r := Output(e, now);
    forall i | 0 <= i < |r.1| ensures Carries(r.0, r.1[i]) { assert Carries(e, r.1[i]); }
  }

  lemma OutcomeFits(s: Side, p: Side, step: Step)
    requires Sane(s.e) && (step.Deliver? ==> step.i < |p.sent| && p.sent[step.i].g.seqNo < M && p.sent[step.i].g.ack < M)
    ensures AllCarry(Outcome(s, p, step).0, Outcome(s, p, step).1)
  {
    var e := s.e;
    match step {
      case Write(data, now) =>
        if !e.failed { OutputFits(e.(tx := e.tx + data[..Accepted(e, data)]), now); }
      case Read(k) =>
      case Tick(now) =>
        if !(e.failed || e.sndNxt == e.sndUna || now < e.lastTx + Backoff(e.retries) || e.retries + 1 > MAX_RETRIES) {
          OutputFits(e.(retries := e.retries + 1, lastTx := now, sndNxt := e.sndUna), now);
        }
      case Deliver(i, now) =>
        InputFits(e, p.sent[i].g, now);
    }
  }

  lemma InputFits(e: Endpoint, g: Segment, now: nat)
    requires Sane(e) && g.seqNo < M && g.ack < M
    ensures AllCarry(Input(e, g, now).0, Input(e, g, now).1)
  {
    var acked := Acknowledged(e, g.ack, g.wnd, now);
    if g.data == [] {
      OutputFits(acked, now);
    } else {
      var got := Received(acked, g.seqNo, g.data);
      var f := got.(advWnd := Window(got));
      OutputFits(f, now);
      OutputKeeps(f, now);
      var r := Input(e, g, now);
      assert r.1[1..] == Output(f, now).1;
      forall i | 0 <= i < |r.1| ensures Carries(r.0, r.1[i]) {
        if i > 0 { assert Carries(r.0, r.1[1..][i - 1]); }
      }
    }
  }

  lemma CarryNumbers(e: Endpoint, segs: seq<Segment>)
    requires Sane(e) && AllCarry(e, segs)
    ensures forall i :: 0 <= i < |segs| ==> segs[i].seqNo < M
  {
    forall i | 0 <= i < |segs| ensures segs[i].seqNo < M { assert Carries(e, segs[i]); }
  }

  // ---------------------------------------------------------------- arithmetic modulo 2^32

  lemma AddAdd(a: nat, m: nat, n: nat)
    ensures Add(Add(a, m), n) == Add(a, m + n)
  {
  }

  /** Positions less than 2^32 apart are as far apart as their numbers. */
  lemma SubAdd(base: nat, a: nat, b: nat)
    requires b <= a < b + M
    ensures Sub(Add(base, a), Add(base, b)) == a - b
  {
    var d := a - b;
    assert base + a == (base + b) + d;
    AddAdd(base, b, d);
  }

  lemma AddBack(base: nat, una: nat, x: nat)
    requires x < M
    ensures x == Add(base, una + Sub(x, Add(base, una)))
  {
    AddAdd(base, una, Sub(x, Add(base, una)));
  }

  // ---------------------------------------------------------------- one step keeps everything

  /** Side `s` after a step. */
  function NextSide(s: Side, p: Side, step: Step): Side
    requires Sane(s.e) && (step.Deliver? ==> step.i < |p.sent| && p.sent[step.i].g.seqNo < M && p.sent[step.i].g.ack < M)
  {
    var r := Outcome(s, p, step);
    OutcomeFits(s, p, step);
    CarryNumbers(r.0, r.1);
    var t := Moved(s, r.0, r.1);
    match step
    case Write(data, _) => t.(written := s.written + data[..Accepted(s.e, data)])
    case Read(k) => t.(delivered := s.delivered + s.e.rx[..Min(k, |s.e.rx|)])
    case _ => t
  }

  /** What `s` may become without upsetting `p`: it wrote more, took in more, delivered more. */
  ghost predicate Grows(s: Side, t: Side)
  {
    && t.base == s.base && s.written <= t.written && s.una <= t.una && s.rcv <= t.rcv && s.delivered <= t.delivered
    && s.sent <= t.sent
  }

  /** An acknowledgment that is not too old is taken for what it is. */
  lemma AckMeans(s: Side, p: Side, f: Flight)
    requires SideOk(s, p) && SideOk(p, s) && f in p.sent && Young(f, s)
    ensures f.g.ack < M
    ensures 0 < Sub(f.g.ack, s.e.sndUna) <= InFlight(s.e) ==>
              f.ackPos == s.una + Sub(f.g.ack, s.e.sndUna) && f.ackPos <= p.rcv && f.ackPos <= |s.written|
  {
    assert FlightOk(f, p, s);
    if f.ackPos >= s.una {
      SubAdd(s.base, f.ackPos, s.una);
    } else {
      SubAdd(s.base, s.una, f.ackPos);
    }
  }

  lemma AckedOk(s: Side, p: Side, f: Flight, now: nat)
    requires SideOk(s, p) && SideOk(p, s) && f in p.sent && Young(f, s) && f.g.ack < M
    ensures var e := Acknowledged(s.e, f.g.ack, f.g.wnd, now); var una := s.una + Sub(e.sndUna, s.e.sndUna);
            && s.una <= una <= p.rcv && una <= |s.written| && e.sndUna == Add(s.base, una) && e.tx == s.written[una..]
            && e.rx == s.e.rx && e.rcvNxt == s.e.rcvNxt
  {
    AckMeans(s, p, f);
    var acked := Sub(f.g.ack, s.e.sndUna);
    if 0 < acked <= InFlight(s.e) {
      assert FlightOk(f, p, s);
      assert s.written[s.una..][acked..] == s.written[s.una + acked..];
    }
  }

  /** Data that is not too old is taken for what it is: what is accepted continues the stream, and all that does is
      accepted. */
  lemma DataMeans(s: Side, p: Side, f: Flight, e: Endpoint)
    requires SideOk(s, p) && SideOk(p, s) && f in p.sent && Young(f, s) && f.g.seqNo < M
    requires Sane(e) && e.rx == s.e.rx && e.rcvNxt == s.e.rcvNxt
    ensures var d := InOrder(e, f.g.seqNo, f.g.data);
            && s.rcv + |d| <= |p.written| && d == p.written[s.rcv..s.rcv + |d|]
            && |d| == if f.pos <= s.rcv <= f.pos + |f.g.data| then f.pos + |f.g.data| - s.rcv else 0
  {
    assert FlightOk(f, p, s);
    var d := InOrder(e, f.g.seqNo, f.g.data);
    if f.pos <= s.rcv {
      SubAdd(p.base, s.rcv, f.pos);
      var behind := s.rcv - f.pos;
      if behind < |f.g.data| {
        assert d == p.written[f.pos..f.pos + |f.g.data|][behind..] == p.written[s.rcv..f.pos + |f.g.data|];
      }
    } else {
      SubAdd(p.base, f.pos, s.rcv);
    }
  }

  lemma ReceivedData(s: Side, p: Side, f: Flight, e: Endpoint)
    requires SideOk(s, p) && SideOk(p, s) && f in p.sent && Young(f, s) && f.g.seqNo < M
    requires Sane(e) && e.rx == s.e.rx && e.rcvNxt == s.e.rcvNxt
    ensures var r := Received(e, f.g.seqNo, f.g.data); var rcv := s.rcv + Sub(r.rcvNxt, s.e.rcvNxt);
            && s.rcv <= rcv <= |p.written| && r.rcvNxt == Add(p.base, rcv) && s.delivered + r.rx == p.written[..rcv]
  {
    hide FlightOk, EdgesOk, Young, InOrder, SendOk;
    DataMeans(s, p, f, e);
    var d := InOrder(e, f.g.seqNo, f.g.data);
    var n := Min(|d|, RXCAP - |e.rx|);
    AddAdd(p.base, s.rcv, n);
    SubAdd(p.base, s.rcv + n, s.rcv);
    Continues(p.written, s.rcv, s.delivered, e.rx, d, n);
  }

  lemma Continues(w: seq<byte>, at: nat, got: seq<byte>, rx: seq<byte>, d: seq<byte>, n: nat)
    requires at + |d| <= |w| && d == w[at..at + |d|] && got + rx == w[..at] && n <= |d|
    ensures got + (rx + d[..n]) == w[..at + n]
  {
    assert got + (rx + d[..n]) == (got + rx) + d[..n];
    assert w[..at + n] == w[..at] + w[at..at + |d|][..n];
  }

  /** The streams of `s` after any step. */
  ghost predicate StreamsOk(s: Side, p: Side, t: Side)
  {
    SendOk(t) && ReceiveOk(t, p) && t.una <= p.rcv && Grows(s, t) && t.e.mss == s.e.mss
  }

  /** Input changes the streams as the acknowledgment and the data say; what it sends does not. */
  lemma InputShape(e: Endpoint, g: Segment, now: nat)
    requires Sane(e) && g.seqNo < M && g.ack < M
    ensures var acked := Acknowledged(e, g.ack, g.wnd, now);
            var got := if g.data == [] then acked else Received(acked, g.seqNo, g.data);
            var r := Input(e, g, now).0;
            r == got.(sndNxt := r.sndNxt, advWnd := r.advWnd, lastTx := r.lastTx)
  {
    hide Acknowledged, Received, Output;
    var acked := Acknowledged(e, g.ack, g.wnd, now);
    if g.data == [] {
      OutputKeeps(acked, now);
    } else {
      var got := Received(acked, g.seqNo, g.data);
      OutputKeeps(got.(advWnd := Window(got)), now);
    }
  }

  lemma DeliverMoves(s: Side, p: Side, f: Flight, now: nat, r: Endpoint)
    requires SideOk(s, p) && SideOk(p, s) && f in p.sent && Young(f, s) && f.g.seqNo < M && f.g.ack < M
    requires r == Input(s.e, f.g, now).0
    ensures var una, rcv := s.una + Sub(r.sndUna, s.e.sndUna), s.rcv + Sub(r.rcvNxt, s.e.rcvNxt);
            && Sane(r) && r.mss == s.e.mss && s.una <= una <= p.rcv && una <= |s.written| && r.sndUna == Add(s.base, una) && r.tx == s.written[una..]
            && s.rcv <= rcv <= |p.written| && r.rcvNxt == Add(p.base, rcv) && s.delivered + r.rx == p.written[..rcv]
  {
    InputShape(s.e, f.g, now);
    var acked := Acknowledged(s.e, f.g.ack, f.g.wnd, now);
    AckedOk(s, p, f, now);
    if f.g.data != [] { ReceivedData(s, p, f, acked); }
    hide Input, InOrder, FlightOk, EdgesOk, Acknowledged;
  }

  lemma DeliverKeeps(s: Side, p: Side, i: nat, now: nat)
    requires SideOk(s, p) && SideOk(p, s) && Allowed(s, p, Deliver(i, now))
    ensures StreamsOk(s, p, NextSide(s, p, Deliver(i, now)))
  {
    hide Input, FlightOk, EdgesOk, Young;
    var f := p.sent[i];
    DeliverMoves(s, p, f, now, Input(s.e, f.g, now).0);
  }

  lemma WriteKeeps(s: Side, p: Side, data: seq<byte>, now: nat)
    requires SideOk(s, p) && SideOk(p, s)
    ensures StreamsOk(s, p, NextSide(s, p, Write(data, now)))
  {
    if !s.e.failed {
      var d := data[..Accepted(s.e, data)];
      var e := s.e.(tx := s.e.tx + d);
      OutputKeeps(e, now);
      assert (s.written + d)[s.una..] == s.written[s.una..] + d;
    } else {
      assert s.written + data[..0] == s.written;
    }
  }

  lemma ReadKeeps(s: Side, p: Side, k: nat)
    requires SideOk(s, p) && SideOk(p, s)
    ensures StreamsOk(s, p, NextSide(s, p, Read(k)))
  {
    var n := Min(k, |s.e.rx|);
    assert (s.delivered + s.e.rx[..n]) + s.e.rx[n..] == s.delivered + s.e.rx;
  }

  lemma TickKeeps(s: Side, p: Side, now: nat)
    requires SideOk(s, p) && SideOk(p, s)
    ensures StreamsOk(s, p, NextSide(s, p, Tick(now)))
  {
    var e := s.e;
    if !(e.failed || e.sndNxt == e.sndUna || now < e.lastTx + Backoff(e.retries) || e.retries + 1 > MAX_RETRIES) {
      OutputKeeps(e.(retries := e.retries + 1, lastTx := now, sndNxt := e.sndUna), now);
    }
  }

  lemma StreamsKept(s: Side, p: Side, step: Step)
    requires SideOk(s, p) && SideOk(p, s) && Allowed(s, p, step)
    ensures StreamsOk(s, p, NextSide(s, p, step))
  {
    match step {
      case Write(data, now) => WriteKeeps(s, p, data, now);
      case Read(k) => ReadKeeps(s, p, k);
      case Tick(now) => TickKeeps(s, p, now);
      case Deliver(i, now) => DeliverKeeps(s, p, i, now);
    }
  }

  /** The right edge of the window never moves left. */
  lemma EdgeMoves(s: Side, p: Side, t: Side)
    requires SideOk(s, p) && StreamsOk(s, p, t)
    ensures |t.e.rx| <= RXCAP && s.rcv + Min(RXCAP - |s.e.rx|, 65535) <= t.rcv + Min(RXCAP - |t.e.rx|, 65535)
  {
    assert |s.delivered| + |s.e.rx| == s.rcv && |t.delivered| + |t.e.rx| == t.rcv;
  }

  /** The new segments of a step stand for what they say. */
  lemma NewFlight(t: Side, p: Side, g: Segment)
    requires SendOk(t) && ReceiveOk(t, p) && |t.e.rx| <= RXCAP && Carries(t.e, g)
    ensures var f := Flight(g, t.una + Sub(g.seqNo, t.e.sndUna), t.rcv);
            FlightOk(f, t, p) && RightEdge(f) == t.rcv + Min(RXCAP - |t.e.rx|, 65535)
  {
    AddBack(t.base, t.una, g.seqNo);
    var at := Sub(g.seqNo, t.e.sndUna);
    assert t.written[t.una..][at..at + |g.data|] == t.written[t.una + at..t.una + at + |g.data|];
  }

  lemma OldFlight(s: Side, t: Side, p: Side, f: Flight)
    requires SideOk(s, p) && StreamsOk(s, p, t) && FlightOk(f, s, p)
    ensures FlightOk(f, t, p)
  {
    EdgeMoves(s, p, t);
    assert t.written[f.pos..f.pos + |f.g.data|] == s.written[f.pos..f.pos + |f.g.data|];
  }

  /** A step keeps all that is known about the side that makes it. */
  lemma SelfKept(s: Side, p: Side, step: Step)
    requires SideOk(s, p) && SideOk(p, s) && Allowed(s, p, step)
    ensures SideOk(NextSide(s, p, step), p) && Grows(s, NextSide(s, p, step))
  {
    hide NextSide, Outcome, SendOk, ReceiveOk, FlightOk, Grows, Carries, Young;
    SaneSide(s, p);
    StreamsKept(s, p, step);
    var t := NextSide(s, p, step);
    EdgeMoves(s, p, t);
    Sents(s, p, step);
    SentsKept(s, p, t);
  }

  /** Old segments stay right and the new ones join them. */
  lemma SentsKept(s: Side, p: Side, t: Side)
    requires SideOk(s, p) && StreamsOk(s, p, t) && |t.e.rx| <= RXCAP && |s.sent| <= |t.sent| && Sane(t.e)
    requires forall i :: 0 <= i < |s.sent| ==> t.sent[i] == s.sent[i]
    requires forall i :: |s.sent| <= i < |t.sent| ==> NewAt(t, i)
    ensures SideOk(t, p)
  {
    hide SendOk, ReceiveOk, FlightOk, Grows, Carries;
    var k := |s.sent|;
    forall i | 0 <= i < |t.sent|
      ensures FlightOk(t.sent[i], t, p) && (i >= k ==> RightEdge(t.sent[i]) == t.rcv + Min(RXCAP - |t.e.rx|, 65535))
    {
      if i < k {
        assert FlightOk(s.sent[i], s, p);
        OldFlight(s, t, p, s.sent[i]);
      } else {
        assert NewAt(t, i);
        NewFlight(t, p, t.sent[i].g);
      }
    }
    forall i, j | 0 <= i < j < |t.sent| ensures RightEdge(t.sent[i]) <= RightEdge(t.sent[j]) {
      if j < k {
        assert RightEdge(s.sent[i]) <= RightEdge(s.sent[j]);
      } else {
        EdgeBound(t.sent[i], t, p);
      }
    }
  }

  /** Segment `i` of `t` was sent in the step that led to it. */
  ghost predicate NewAt(t: Side, i: nat)
    requires i < |t.sent| && Sane(t.e)
  {
    var g := t.sent[i].g;
    Carries(t.e, g) && t.sent[i] == Flight(g, t.una + Sub(g.seqNo, t.e.sndUna), t.rcv)
  }

  lemma EdgeBound(f: Flight, s: Side, p: Side)
    requires FlightOk(f, s, p)
    ensures |s.e.rx| <= RXCAP && RightEdge(f) <= s.rcv + Min(RXCAP - |s.e.rx|, 65535)
  {
  }

  lemma SaneSide(s: Side, p: Side)
    requires SideOk(s, p)
    ensures Sane(s.e)
  {
  }

  /** Every segment that a step sends goes onto the network, once. */
  lemma Sents(s: Side, p: Side, step: Step)
    requires Sane(s.e) && SideOk(s, p) && Allowed(s, p, step)
    ensures var t := NextSide(s, p, step);
            && |t.sent| == |s.sent| + |Outcome(s, p, step).1| && Sane(t.e)
            && (forall i :: 0 <= i < |Outcome(s, p, step).1| ==> t.sent[|s.sent| + i].g == Outcome(s, p, step).1[i])
            && (forall i :: 0 <= i < |s.sent| ==> t.sent[i] == s.sent[i])
            && (forall i :: |s.sent| <= i < |t.sent| ==> NewAt(t, i))
  {
    OutcomeFits(s, p, step);
    var r := Outcome(s, p, step);
    CarryNumbers(r.0, r.1);
    var t := NextSide(s, p, step);
    hide Outcome, Carries, FlightOk, ReceiveOk;
    forall i | |s.sent| <= i < |t.sent| ensures NewAt(t, i) { assert Carries(r.0, r.1[i - |s.sent|]); }
  }

  /** A step keeps all that is known about the other side. */
  lemma PeerKept(s: Side, p: Side, t: Side)
    requires SideOk(s, p) && SideOk(p, s) && Grows(s, t)
    ensures SideOk(p, t)
  {
    assert t.written[..p.rcv] == s.written[..p.rcv];
    forall i | 0 <= i < |p.sent| ensures FlightOk(p.sent[i], p, t) { assert FlightOk(p.sent[i], p, s); }
  }

  // ---------------------------------------------------------------- runs

  /** A step of one side, or of the other. */
  datatype Event = AtA(step: Step) | AtB(step: Step)

  ghost predicate Possible(l: Link, ev: Event)
  {
    match ev
    case AtA(step) => Allowed(l.a, l.b, step)
    case AtB(step) => Allowed(l.b, l.a, step)
  }

  function Next(l: Link, ev: Event): Link
    requires Sane(l.a.e) && Sane(l.b.e)
    requires ev.step.Deliver? ==> var p := if ev.AtA? then l.b else l.a;
                                  ev.step.i < |p.sent| && p.sent[ev.step.i].g.seqNo < M && p.sent[ev.step.i].g.ack < M
  {
    match ev
    case AtA(step) => Link(NextSide(l.a, l.b, step), l.b)
    case AtB(step) => Link(l.a, NextSide(l.b, l.a, step))
  }

  lemma StepKeeps(l: Link, ev: Event)
    requires Valid(l) && Possible(l, ev)
    ensures Valid(Next(l, ev)) && Grows(l.a, Next(l, ev).a) && Grows(l.b, Next(l, ev).b)
  {
    hide NextSide, Grows, Young, FlightOk, EdgesOk, ReceiveOk;
    match ev {
      case AtA(step) =>
        SelfKept(l.a, l.b, step);
        PeerKept(l.a, l.b, NextSide(l.a, l.b, step));
        GrowsReflexive(l.b);
      case AtB(step) =>
        SelfKept(l.b, l.a, step);
        PeerKept(l.b, l.a, NextSide(l.b, l.a, step));
        GrowsReflexive(l.a);
    }
  }

  lemma GrowsReflexive(s: Side)
    ensures Grows(s, s)
  {
  }

  /** A run: each state is followed by the outcome of some possible event. */
  ghost predicate Run(ls: seq<Link>, evs: seq<Event>)
  {
    && |ls| == |evs| + 1 && Valid(ls[0])
    && forall k :: 0 <= k < |evs| ==> RunStep(ls, evs, k)
  }

  ghost predicate RunStep(ls: seq<Link>, evs: seq<Event>, k: nat)
    requires k < |evs| < |ls|
  {
    Valid(ls[k]) ==> Possible(ls[k], evs[k]) && ls[k + 1] == Next(ls[k], evs[k])
  }

  /** After the handshake both sides start empty, each expecting the other's first number. */
  lemma Established(a: Side, b: Side)
    requires Sane(a.e) && Sane(b.e) && a.e.sndUna == a.e.sndNxt == b.e.rcvNxt == a.base && b.e.sndUna == b.e.sndNxt == a.e.rcvNxt == b.base
    requires forall s :: s in {a, b} ==> s.e.tx == s.e.rx == s.written == s.delivered == [] && s.una == s.rcv == 0 && s.sent == []
    ensures Valid(Link(a, b))
  {
    assert a in {a, b} && b in {a, b};
  }

  lemma {:induction false} RunKeeps(ls: seq<Link>, evs: seq<Event>, i: nat, j: nat)
    requires Run(ls, evs) && i <= j < |ls|
    ensures Valid(ls[i]) && Valid(ls[j]) && Grows(ls[i].a, ls[j].a) && Grows(ls[i].b, ls[j].b)
    decreases j
  {
    hide Valid, Grows, Next, Possible;
    if j == 0 {
      GrowsReflexive(ls[0].a);
      GrowsReflexive(ls[0].b);
    } else if i == j {
      RunKeeps(ls, evs, i - 1, j - 1);
      assert RunStep(ls, evs, j - 1);
      StepKeeps(ls[j - 1], evs[j - 1]);
      GrowsReflexive(ls[j].a);
      GrowsReflexive(ls[j].b);
    } else {
      RunKeeps(ls, evs, i, j - 1);
      assert RunStep(ls, evs, j - 1);
      StepKeeps(ls[j - 1], evs[j - 1]);
      GrowsTransitive(ls[i].a, ls[j - 1].a, ls[j].a);
      GrowsTransitive(ls[i].b, ls[j - 1].b, ls[j].b);
    }
  }

  lemma GrowsTransitive(s: Side, t: Side, u: Side)
    requires Grows(s, t) && Grows(t, u)
    ensures Grows(s, u)
  {
  }

  /** In every run, at every moment: the reader has a prefix of what the writer had written, every byte that
      left the sender's buffer as acknowledged was received, and announced windows never shrink. */
  lemma Safety(ls: seq<Link>, evs: seq<Event>, k: nat)
    requires Run(ls, evs) && k < |ls|
    ensures var s, p := ls[k].a, ls[k].b;
            && s.delivered <= p.written && p.delivered <= s.written
            && s.una <= p.rcv <= |s.written| && p.una <= s.rcv <= |p.written|
            && EdgesOk(s.sent) && EdgesOk(p.sent)
  {
    RunKeeps(ls, evs, k, k);
    Prefix(ls[k].a, ls[k].b);
    Prefix(ls[k].b, ls[k].a);
  }

  lemma Prefix(s: Side, p: Side)
    requires ReceiveOk(s, p)
    ensures s.delivered <= p.written
  {
    assert s.delivered <= s.delivered + s.e.rx;
    assert p.written[..s.rcv] <= p.written;
  }

  /** What was delivered stays delivered: later moments only add to it. */
  lemma Monotone(ls: seq<Link>, evs: seq<Event>, i: nat, j: nat)
    requires Run(ls, evs) && i <= j < |ls|
    ensures ls[i].a.delivered <= ls[j].a.delivered && ls[i].b.delivered <= ls[j].b.delivered
    ensures ls[i].a.written <= ls[j].a.written && ls[i].b.written <= ls[j].b.written
  {
    RunKeeps(ls, evs, i, j);
  }

  // ---------------------------------------------------------------- one round trip

  /** When the time is up, the first segment sent starts at the first byte that is not acknowledged. */
  lemma SentAgain(s: Side, p: Side, now: nat)
    requires SideOk(s, p) && SideOk(p, s) && !s.e.failed && InFlight(s.e) > 0 && s.e.retries < MAX_RETRIES
    requires now >= s.e.lastTx + Backoff(s.e.retries)
    ensures var t := NextSide(s, p, Tick(now));
            && |t.sent| > |s.sent| && t.una == s.una && t.rcv == s.rcv && t.written == s.written
            && var f := t.sent[|s.sent|]; f.pos == s.una && f.ackPos == s.rcv && f.g.data != []
  {
    hide FlightOk, EdgesOk, Timer, Lifted, Carries;
    var step := Tick(now);
    Sents(s, p, step);
    TimerMeans(s.e, now);
    var t := NextSide(s, p, step);
    assert NewAt(t, |s.sent|);
    assert t.sent[|s.sent|].g == Outcome(s, p, step).1[0];
  }

  /** What the next numbers stand for. */
  lemma Numbers(s: Side, p: Side)
    requires SideOk(s, p)
    ensures Sane(s.e) && s.e.rcvNxt == Add(p.base, s.rcv) && s.e.sndUna == Add(s.base, s.una)
  {
    hide FlightOk, EdgesOk, Add, Sub;
  }

  /** A delivery moves the positions as far as the numbers. */
  lemma Delivered(s: Side, p: Side, i: nat, now: nat)
    requires Sane(s.e) && i < |p.sent| && p.sent[i].g.seqNo < M && p.sent[i].g.ack < M
    ensures var t := NextSide(s, p, Deliver(i, now)); var e := Input(s.e, p.sent[i].g, now).0;
            && Sane(e) && t.e == e && t.una == s.una + Sub(e.sndUna, s.e.sndUna) && t.rcv == s.rcv + Sub(e.rcvNxt, s.e.rcvNxt)
  {
    hide Input, Lifted, Carries, Add, Sub;
  }

  lemma NewPlaces(t: Side, k: nat)
    requires k < |t.sent| && Sane(t.e) && NewAt(t, k)
    ensures t.sent[k].ackPos == t.rcv && t.sent[k].pos >= t.una
  {
    hide Carries, Add, Sub;
  }

  /** A segment with data is answered with how far the receiver has come: further by what continues its stream and
      fits. */
  lemma Answered(s: Side, p: Side, i: nat, now: nat)
    requires SideOk(s, p) && SideOk(p, s) && Allowed(s, p, Deliver(i, now)) && p.sent[i].g.data != []
    ensures var t := NextSide(s, p, Deliver(i, now)); var f := p.sent[i];
            && t.rcv == (if f.pos <= s.rcv <= f.pos + |f.g.data|
                         then s.rcv + Min(f.pos + |f.g.data| - s.rcv, RXCAP - |s.e.rx|) else s.rcv)
            && |t.sent| > |s.sent| && t.sent[|s.sent|].ackPos == t.rcv && t.sent[|s.sent|].pos >= t.una
  {
    hide SideOk, Input, Carries, InOrder, Add, Sub, Window, NextSide, NewAt, Young;
    var f, step := p.sent[i], Deliver(i, now);
    Numbers(s, p);
    Sents(s, p, step);
    Delivered(s, p, i, now);
    InputMeans(s.e, f.g, now);
    DataMeans(s, p, f, s.e);
    var t := NextSide(s, p, step);
    assert NewAt(t, |s.sent|);
    NewPlaces(t, |s.sent|);
    var n := |t.e.rx| - |s.e.rx|;
    AddAdd(p.base, s.rcv, n);
    SubAdd(p.base, s.rcv + n, s.rcv);
  }

  /** An acknowledgment that reaches no further than what is in flight is taken; one that does is not. */
  lemma Heard(s: Side, p: Side, j: nat, now: nat)
    requires SideOk(s, p) && SideOk(p, s) && Allowed(s, p, Deliver(j, now)) && s.una <= p.sent[j].ackPos <= |s.written|
    requires |s.written| <= s.una + TXCAP
    ensures NextSide(s, p, Deliver(j, now)).una == if p.sent[j].ackPos - s.una <= InFlight(s.e) then p.sent[j].ackPos else s.una
  {
    hide Input, Carries, InOrder, Add, Sub, Window, NextSide, Young, EdgesOk, SendOk, ReceiveOk;
    var f := p.sent[j];
    assert FlightOk(f, p, s);
    Numbers(s, p);
    hide SideOk;
    Delivered(s, p, j, now);
    InputMeans(s.e, f.g, now);
    SubAdd(s.base, f.ackPos, s.una);
    SubAdd(s.base, s.una, s.una);
  }

  /** The peer's stream is at most a buffer ahead of what it has heard acknowledged. */
  lemma NotFarAhead(s: Side, p: Side)
    requires SideOk(s, p) && SideOk(p, s)
    ensures s.una <= p.rcv <= |s.written| <= s.una + TXCAP
  {
  }

  /** The moments after the time is up at `a`, after the first segment sent then has reached `b`, and after the answer
      has reached `a`. */
  ghost predicate RoundTrip(l: Link, l1: Link, l2: Link, l3: Link, now: nat, now': nat, now'': nat)
    requires Valid(l)
  {
    && l1 == Next(l, AtA(Tick(now))) && Valid(l1)
    && Possible(l1, AtB(Deliver(|l.a.sent|, now'))) && l2 == Next(l1, AtB(Deliver(|l.a.sent|, now'))) && Valid(l2)
    && Possible(l2, AtA(Deliver(|l.b.sent|, now''))) && l3 == Next(l2, AtA(Deliver(|l.b.sent|, now'')))
  }

  /** Sending again gets things going: the peer takes in what it lacked of the segment, as far as it fits, and what it has
      is then known to be acknowledged, exactly if that is no more than what was sent again. An acknowledgment of more,
      which the first time around would have been good, is ignored. */
  lemma Recovers(l: Link, l1: Link, l2: Link, l3: Link, now: nat, now': nat, now'': nat)
    requires Valid(l) && RoundTrip(l, l1, l2, l3, now, now', now'')
    requires !l.a.e.failed && InFlight(l.a.e) > 0 && l.a.e.retries < MAX_RETRIES && now >= l.a.e.lastTx + Backoff(l.a.e.retries)
    ensures |l.a.sent| < |l1.a.sent| && l1.a.una == l.a.una
    ensures var n := |l1.a.sent[|l.a.sent|].g.data|;
            && n > 0 && l2.b.rcv == (if l.b.rcv <= l.a.una + n then l.b.rcv + Min(l.a.una + n - l.b.rcv, RXCAP - |l.b.e.rx|) else l.b.rcv)
    ensures l3.a.una == if l2.b.rcv - l.a.una <= InFlight(l1.a.e) then l2.b.rcv else l.a.una
    ensures |l.b.e.rx| < RXCAP || l.b.rcv > l.a.una ==> l2.b.rcv > l.a.una
  {
    hide SideOk, NextSide, Young;
    SentAgain(l.a, l.b, now);
    NotFarAhead(l.a, l.b);
    Answered(l.b, l1.a, |l.a.sent|, now');
    NotFarAhead(l1.a, l2.b);
    Heard(l1.a, l2.b, |l.b.sent|, now'');
  }

  /** Such a round trip can always be made, if the network lets it through. */
  lemma CanRecover(l: Link, now: nat, now': nat, now'': nat) returns (l1: Link, l2: Link, l3: Link)
    requires Valid(l) && !l.a.e.failed && InFlight(l.a.e) > 0 && l.a.e.retries < MAX_RETRIES
    requires now >= l.a.e.lastTx + Backoff(l.a.e.retries)
    ensures RoundTrip(l, l1, l2, l3, now, now', now'')
  {
    hide NextSide, EdgesOk;
    StepKeeps(l, AtA(Tick(now)));
    SentAgain(l.a, l.b, now);
    l1 := Next(l, AtA(Tick(now)));
    NotFarAhead(l1.a, l1.b);
    var f := l1.a.sent[|l.a.sent|];
    assert FlightOk(f, l1.a, l1.b);
    StepKeeps(l1, AtB(Deliver(|l.a.sent|, now')));
    Answered(l1.b, l1.a, |l.a.sent|, now');
    l2 := Next(l1, AtB(Deliver(|l.a.sent|, now')));
    NotFarAhead(l2.a, l2.b);
    NotFarAhead(l2.b, l2.a);
    assert FlightOk(l2.b.sent[|l.b.sent|], l2.b, l2.a);
    l3 := Next(l2, AtA(Deliver(|l.b.sent|, now'')));
  }

  /** The age bound is exact: data that is 2^32 bytes old is taken for new, and does no harm exactly when it
      happens to be the same. */
  lemma TooOld(s: Side, p: Side, f: Flight)
    requires SideOk(s, p) && SideOk(p, s) && FlightOk(f, p, s) && f.g.seqNo < M && f.pos + M == s.rcv
    requires f.g.data != [] && s.rcv + |f.g.data| <= |p.written|
    requires |f.g.data| <= RXCAP - |s.e.rx|
    ensures var r := Received(s.e, f.g.seqNo, f.g.data);
            s.delivered + r.rx <= p.written <==> f.g.data == p.written[s.rcv..s.rcv + |f.g.data|]
  {
    hide FlightOk, EdgesOk, SendOk, Received, InOrder;
    OldNumbers(s, p, f);
    AllTaken(s.e, f.g.seqNo, f.g.data);
    Onward(p.written, s.rcv, s.delivered, s.e.rx, f.g.data);
  }

  lemma AllTaken(e: Endpoint, seqNo: nat, d: seq<byte>)
    requires Sane(e) && seqNo < M && InOrder(e, seqNo, d) == d && |d| <= RXCAP - |e.rx|
    ensures Received(e, seqNo, d).rx == e.rx + d
  {
    assert d[..|d|] == d;
  }

  lemma OldNumbers(s: Side, p: Side, f: Flight)
    requires SideOk(s, p) && FlightOk(f, p, s) && f.g.seqNo < M && f.pos + M == s.rcv && f.g.data != []
    ensures InOrder(s.e, f.g.seqNo, f.g.data) == f.g.data
  {
    AddAdd(p.base, f.pos, M);
    assert Add(p.base, s.rcv) == Add(p.base, f.pos);
  }

  lemma Onward(w: seq<byte>, at: nat, got: seq<byte>, rx: seq<byte>, d: seq<byte>)
    requires at + |d| <= |w| && got + rx == w[..at]
    ensures got + (rx + d) <= w <==> d == w[at..at + |d|]
  {
    assert got + (rx + d) == (got + rx) + d;
    assert w[..at] + w[at..at + |d|] == w[..at + |d|];
    if got + (rx + d) <= w {
      assert d == (got + (rx + d))[at..] == w[..at + |d|][at..];
    }
  }
}
