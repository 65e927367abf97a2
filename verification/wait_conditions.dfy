/** What processes wait for on pipes, event counters, local connections and listeners, and the key that each
    operation signals when it makes such a condition true (kernel/src/file.rs:134-135, kernel/src/file.rs:200-215,
    kernel/src/file.rs:446-487, kernel/src/file.rs:1196-1232, kernel/src/unix.rs:97-124,
    kernel/src/unix.rs:130-234, kernel/src/unix.rs:241-298). */
module WaitConditions {
  type Key = nat

  const PIPE_CAP: nat := 0x1_0000
  const UNIX_CAP: nat := 0x1_0000
  const MSGQ: nat := 128
  const BACKLOG: nat := 16
  /** Largest value of an event counter. */
  const EVENT_MAX: nat := 0xFFFF_FFFF_FFFF_FFFE

  /** The part of each object that waiting depends on. `life` tells apart objects that used the same slot
      one after the other. */
  datatype Pipe = Pipe(len: nat, readers: nat, writers: nat)
  datatype EventFd = EventFd(life: nat, count: nat)
  datatype Queue = Queue(len: nat, messages: nat, eof: bool)
  datatype Conn = Conn(life: nat, packet: bool, q: seq<Queue>, refs: seq<nat>)
  datatype Objects = Objects(pipes: seq<Pipe>, events: seq<EventFd>, conns: seq<Conn>, backlogs: seq<nat>)

  ghost predicate WellFormed(o: Objects)
  {
    && (forall c :: 0 <= c < |o.conns| ==> |o.conns[c].q| == |o.conns[c].refs| == 2)
    && (forall i :: 0 <= i < |o.pipes| ==> o.pipes[i].len <= PIPE_CAP)
  }

  /** What a blocked operation or a poll on one of the objects waits for. */
  datatype Cond =
    | PipeReadable(i: nat)
    | PipeWritable(i: nat)
    | EventReadable(i: nat, life: nat)
    | UnixReadable(c: nat, e: nat, life: nat)
    | UnixWritable(c: nat, e: nat, life: nat)
    | UnixHungUp(c: nat, e: nat, life: nat)
    | Acceptable(i: nat)

  ghost predicate Holds(o: Objects, c: Cond)
    requires WellFormed(o)
  {
    match c
    case PipeReadable(i) => i < |o.pipes| && (o.pipes[i].len > 0 || o.pipes[i].writers == 0)
    case PipeWritable(i) => i < |o.pipes| && (o.pipes[i].len < PIPE_CAP || o.pipes[i].readers == 0)
    case EventReadable(i, life) => i < |o.events| && o.events[i].life == life && o.events[i].count > 0
    case UnixReadable(k, e, life) =>
      k < |o.conns| && e < 2 && o.conns[k].life == life
      && (o.conns[k].q[e].len > 0 || o.conns[k].refs[1 - e] == 0 || o.conns[k].q[e].eof)
    case UnixWritable(k, e, life) =>
      k < |o.conns| && e < 2 && o.conns[k].life == life && o.conns[k].refs[1 - e] > 0
      && o.conns[k].q[1 - e].len < UNIX_CAP && (o.conns[k].packet ==> o.conns[k].q[1 - e].messages < MSGQ)
    case UnixHungUp(k, e, life) => k < |o.conns| && e < 2 && o.conns[k].life == life && o.conns[k].refs[1 - e] == 0
    case Acceptable(i) => i < |o.backlogs| && o.backlogs[i] > 0
  }

  /** The object that the condition is about has existed: nobody waits for one that has not. */
  ghost predicate Known(o: Objects, c: Cond)
  {
    match c
    case EventReadable(i, life) => i < |o.events| && life <= o.events[i].life
    case UnixReadable(k, _, life) => k < |o.conns| && life <= o.conns[k].life
    case UnixWritable(k, _, life) => k < |o.conns| && life <= o.conns[k].life
    case UnixHungUp(k, _, life) => k < |o.conns| && life <= o.conns[k].life
    case _ => true
  }

  function PipeKeyR(i: nat): Key { 0x5049_5045_0000_0000 + 2 * i }
  function PipeKeyW(i: nat): Key { PipeKeyR(i) + 1 }
  function EventKey(i: nat): Key { 0x4556_0000_0000 + i }
  function UnixKey(c: nat, e: nat): Key { 0x554E_0000_0000 + 4 * c + e }
  function ListenKey(i: nat): Key { 0x554C_0000_0000 + i }

  /** The key a condition is announced on. */
  function KeyOf(c: Cond): Key
  {
    match c
    case PipeReadable(i) => PipeKeyR(i)
    case PipeWritable(i) => PipeKeyW(i)
    case EventReadable(i, _) => EventKey(i)
    case UnixReadable(k, e, _) => UnixKey(k, e)
    case UnixWritable(k, e, _) => UnixKey(k, e)
    case UnixHungUp(k, e, _) => UnixKey(k, e)
    case Acceptable(i) => ListenKey(i)
  }

  /** As far as slot numbers go, different objects have different keys, and so have the two ends of a pipe or of a
      connection. */
  lemma KeysApart(i: nat, j: nat, e: nat, f: nat)
    requires i < 0x1000_0000 && j < 0x1000_0000 && e < 2 && f < 2
    ensures PipeKeyR(i) != PipeKeyW(j) && (PipeKeyR(i) == PipeKeyR(j) || PipeKeyW(i) == PipeKeyW(j) <==> i == j)
    ensures UnixKey(i, e) == UnixKey(j, f) <==> i == j && e == f
    ensures (EventKey(i) == EventKey(j) <==> i == j) && (ListenKey(i) == ListenKey(j) <==> i == j)
    ensures |{PipeKeyR(i), PipeKeyW(i), EventKey(i), UnixKey(j, e), ListenKey(j)}| == 5
  {
    var a, b, c, d, x := PipeKeyR(i), PipeKeyW(i), EventKey(i), UnixKey(j, e), ListenKey(j);
    assert a > b - 2 && b > d > x > c;
  }

  // ---------------------------------------------------------------- operations

  datatype Op =
    | PipeNew(i: nat)
    | PipeRead(i: nat, n: nat)
    | PipeWrite(i: nat, n: nat)
    | PipeAddReader(i: nat)
    | PipeAddWriter(i: nat)
    | PipeDropReader(i: nat)
    | PipeDropWriter(i: nat)
    | EventNew(i: nat, init: nat)
    | EventRead(i: nat, v: nat)
    | EventWrite(i: nat, v: nat)
    | ConnNew(c: nat, packet: bool)
    | ConnAddRef(c: nat, e: nat)
    | ConnDropRef(c: nat, e: nat)
    | ConnRead(c: nat, e: nat, n: nat)
    | ConnWrite(c: nat, e: nat, n: nat)
    | ConnShutdown(c: nat, e: nat, how: nat)
    | Connect(i: nat)
    | Accept(i: nat)
    | ListenerFree(i: nat)

  ghost predicate Applicable(o: Objects, op: Op)
    requires WellFormed(o)
  {
    match op
    case PipeNew(i) => i < |o.pipes| && o.pipes[i] == Pipe(0, 0, 0)
    case PipeRead(i, n) => i < |o.pipes| && n <= o.pipes[i].len
    case PipeWrite(i, n) => i < |o.pipes| && o.pipes[i].readers > 0 && o.pipes[i].len + n <= PIPE_CAP
    case PipeAddReader(i) => i < |o.pipes| && o.pipes[i].readers > 0
    case PipeAddWriter(i) => i < |o.pipes| && o.pipes[i].writers > 0
    case PipeDropReader(i) => i < |o.pipes| && o.pipes[i].readers > 0
    case PipeDropWriter(i) => i < |o.pipes| && o.pipes[i].writers > 0
    case EventNew(i, init) => i < |o.events|
    case EventRead(i, v) => i < |o.events| && v <= o.events[i].count
    case EventWrite(i, v) => i < |o.events|
    case ConnNew(c, _) => c < |o.conns| && o.conns[c].refs == [0, 0]
    case ConnAddRef(c, e) => c < |o.conns| && e < 2 && o.conns[c].refs[e] > 0
    case ConnDropRef(c, e) => c < |o.conns| && e < 2 && o.conns[c].refs[e] > 0
    case ConnRead(c, e, n) => c < |o.conns| && e < 2 && n <= o.conns[c].q[e].len && (o.conns[c].packet ==> o.conns[c].q[e].messages > 0)
    case ConnWrite(c, e, n) => c < |o.conns| && e < 2 && o.conns[c].refs[1 - e] > 0
    case ConnShutdown(c, e, how) => c < |o.conns| && e < 2
    case Connect(i) => i < |o.backlogs| && o.backlogs[i] < BACKLOG
    case Accept(i) => i < |o.backlogs| && o.backlogs[i] > 0
    case ListenerFree(i) => i < |o.backlogs|
  }

  function MinOf(a: nat, b: nat): nat { if a < b then a else b }

  function OneLess(k: nat): nat { if k > 0 then k - 1 else 0 }

  function PipeAfter(p: Pipe, readers: nat, writers: nat): Pipe
  {
    if readers == 0 && writers == 0 then Pipe(0, 0, 0) else Pipe(p.len, readers, writers)
  }

  /** The connection slot after its reference counts became `refs`: freed with the last one. */
  function ConnAfter(k: Conn, refs: seq<nat>): Conn
  {
    if refs == [0, 0] then Conn(k.life, false, [Queue(0, 0, false), Queue(0, 0, false)], [0, 0]) else k.(refs := refs)
  }

  function UpdatePipe(o: Objects, i: nat, p: Pipe): Objects
    requires i < |o.pipes|
  {
    o.(pipes := o.pipes[i := p])
  }

  function UpdateConn(o: Objects, c: nat, k: Conn): Objects
    requires c < |o.conns|
  {
    o.(conns := o.conns[c := k])
  }

  function PipeStep(p: Pipe, op: Op): Pipe
  {
    match op
    case PipeNew(_) => Pipe(0, 1, 1)
    case PipeRead(_, n) => p.(len := if n <= p.len then p.len - n else 0)
    case PipeWrite(_, n) => p.(len := p.len + n)
    case PipeAddReader(_) => p.(readers := p.readers + 1)
    case PipeAddWriter(_) => p.(writers := p.writers + 1)
    case PipeDropReader(_) => PipeAfter(p, OneLess(p.readers), p.writers)
    case PipeDropWriter(_) => PipeAfter(p, p.readers, OneLess(p.writers))
    case _ => p
  }

  function NewConn(life: nat, packet: bool): Conn
  {
    Conn(life, packet, [Queue(0, 0, false), Queue(0, 0, false)], [1, 1])
  }

  /** End `e` reads `n` bytes, in packet mode one message of `n` bytes. */
  function QueueRead(q: Queue, packet: bool, n: nat): Queue
  {
    q.(len := if n <= q.len then q.len - n else 0, messages := if packet then OneLess(q.messages) else q.messages)
  }

  function QueueWritten(q: Queue, packet: bool, n: nat): Queue
  {
    q.(len := q.len + n, messages := if packet then q.messages + 1 else q.messages)
  }

  function Shut(k: Conn, e: nat, how: nat): (r: Conn)
    requires |k.q| == |k.refs| == 2 && e < 2
    ensures |r.q| == |r.refs| == 2
  {
    var q := if how != 0 then k.q[1 - e := k.q[1 - e].(eof := true)] else k.q;
    k.(q := if how != 1 then q[e := q[e].(eof := true)] else q)
  }

  /** The objects after an operation. */
  ghost function Apply(o: Objects, op: Op): (r: Objects)
    requires WellFormed(o) && Applicable(o, op)
    ensures WellFormed(r)
  {
    match op
    case EventNew(i, init) => o.(events := o.events[i := EventFd(o.events[i].life + 1, init)])
    case EventRead(i, v) => o.(events := o.events[i := o.events[i].(count := o.events[i].count - v)])
    case EventWrite(i, v) => o.(events := o.events[i := o.events[i].(count := MinOf(o.events[i].count + v, EVENT_MAX))])
    case ConnNew(c, packet) => UpdateConn(o, c, NewConn(o.conns[c].life + 1, packet))
    case ConnAddRef(c, e) => UpdateConn(o, c, o.conns[c].(refs := o.conns[c].refs[e := o.conns[c].refs[e] + 1]))
    case ConnDropRef(c, e) => UpdateConn(o, c, ConnAfter(o.conns[c], o.conns[c].refs[e := o.conns[c].refs[e] - 1]))
    case ConnRead(c, e, n) =>
      UpdateConn(o, c, o.conns[c].(q := o.conns[c].q[e := QueueRead(o.conns[c].q[e], o.conns[c].packet, n)]))
    case ConnWrite(c, e, n) =>
      UpdateConn(o, c, o.conns[c].(q := o.conns[c].q[1 - e := QueueWritten(o.conns[c].q[1 - e], o.conns[c].packet, n)]))
    case ConnShutdown(c, e, how) => UpdateConn(o, c, Shut(o.conns[c], e, how))
    case Connect(i) => o.(backlogs := o.backlogs[i := o.backlogs[i] + 1])
    case Accept(i) => o.(backlogs := o.backlogs[i := o.backlogs[i] - 1])
    case ListenerFree(i) => o.(backlogs := o.backlogs[i := 0])
    case _ => UpdatePipe(o, op.i, PipeStep(o.pipes[op.i], op))
  }

  /** The keys an operation signals, in order. */
  ghost function Signals(o: Objects, op: Op): seq<Key>
    requires WellFormed(o) && Applicable(o, op)
  {
    match op
    case PipeRead(i, _) => [PipeKeyW(i)]
    case PipeWrite(i, _) => [PipeKeyR(i)]
    case PipeDropReader(i) => [PipeKeyW(i)]
    case PipeDropWriter(i) => [PipeKeyR(i)]
    case EventRead(i, _) => [EventKey(i)]
    case EventWrite(i, _) => [EventKey(i)]
    case ConnDropRef(c, e) => if o.conns[c].refs[e] == 1 then [UnixKey(c, 1 - e), UnixKey(c, e)] else []
    case ConnRead(c, e, _) => [UnixKey(c, 1 - e)]
    case ConnWrite(c, e, _) => [UnixKey(c, 1 - e)]
    case ConnShutdown(c, e, how) => (if how != 0 then [UnixKey(c, 1 - e)] else []) + (if how != 1 then [UnixKey(c, e)] else [])
    case Connect(i) => [ListenKey(i)]
    case _ => []
  }

  // ---------------------------------------------------------------- announcements

  /** Whatever became true of an object that existed was signalled on its key. */
  ghost predicate Announced(o: Objects, o': Objects, keys: seq<Key>)
    requires WellFormed(o) && WellFormed(o')
  {
    forall c :: AnnouncedAt(o, o', keys, c)
  }

  ghost predicate AnnouncedAt(o: Objects, o': Objects, keys: seq<Key>, c: Cond)
    requires WellFormed(o) && WellFormed(o')
  {
    Known(o, c) ==> Known(o', c) && (Holds(o', c) && !Holds(o, c) ==> KeyOf(c) in keys)
  }

  /** Every operation announces every condition it makes true. */
  lemma OpAnnounces(o: Objects, op: Op)
    requires WellFormed(o) && Applicable(o, op)
    ensures Announced(o, Apply(o, op), Signals(o, op))
  {
    hide Apply, Signals, Holds, Known, Applicable, KeyOf;
    forall c ensures AnnouncedAt(o, Apply(o, op), Signals(o, op), c) {
      match op {
        case ConnNew(_, _) => ConnBirth(o, op, c);
        case ConnAddRef(_, _) => ConnMoreRefs(o, op, c);
        case ConnDropRef(_, _) => ConnFewerRefs(o, op, c);
        case ConnRead(_, _, _) => ConnTraffic(o, op, c);
        case ConnWrite(_, _, _) => ConnTraffic(o, op, c);
        case ConnShutdown(_, _, _) => ConnEnd(o, op, c);
        case _ => OtherOps(o, op, c);
      }
    }
  }

  lemma OtherOps(o: Objects, op: Op, c: Cond)
    requires WellFormed(o) && Applicable(o, op)
    requires !op.ConnNew? && !op.ConnAddRef? && !op.ConnDropRef? && !op.ConnRead? && !op.ConnWrite? && !op.ConnShutdown?
    ensures AnnouncedAt(o, Apply(o, op), Signals(o, op), c)
  {
    hide AnnouncedAt, Apply, Signals, Applicable, WellFormed;
    if op.EventNew? || op.EventRead? || op.EventWrite? {
      EventOps(o, op, c);
    } else if op.Connect? || op.Accept? || op.ListenerFree? {
      ListenerOps(o, op, c);
    } else {
      PipeOps(o, op, c);
    }
  }

  lemma EventOps(o: Objects, op: Op, c: Cond)
    requires WellFormed(o) && Applicable(o, op) && (op.EventNew? || op.EventRead? || op.EventWrite?)
    ensures AnnouncedAt(o, Apply(o, op), Signals(o, op), c)
  {
  }

  lemma ListenerOps(o: Objects, op: Op, c: Cond)
    requires WellFormed(o) && Applicable(o, op) && (op.Connect? || op.Accept? || op.ListenerFree?)
    ensures AnnouncedAt(o, Apply(o, op), Signals(o, op), c)
  {
  }

  lemma PipeOps(o: Objects, op: Op, c: Cond)
    requires WellFormed(o) && Applicable(o, op)
    requires op.PipeNew? || op.PipeRead? || op.PipeWrite? || op.PipeAddReader? || op.PipeAddWriter? || op.PipeDropReader? || op.PipeDropWriter?
    ensures AnnouncedAt(o, Apply(o, op), Signals(o, op), c)
  {
  }

  lemma ConnBirth(o: Objects, op: Op, c: Cond)
    requires WellFormed(o) && Applicable(o, op) && op.ConnNew?
    ensures AnnouncedAt(o, Apply(o, op), Signals(o, op), c)
  {
  }

  lemma ConnMoreRefs(o: Objects, op: Op, c: Cond)
    requires WellFormed(o) && Applicable(o, op) && op.ConnAddRef?
    ensures AnnouncedAt(o, Apply(o, op), Signals(o, op), c)
  {
  }

  lemma ConnFewerRefs(o: Objects, op: Op, c: Cond)
    requires WellFormed(o) && Applicable(o, op) && op.ConnDropRef?
    ensures AnnouncedAt(o, Apply(o, op), Signals(o, op), c)
  {
  }

  lemma ConnTraffic(o: Objects, op: Op, c: Cond)
    requires WellFormed(o) && Applicable(o, op) && (op.ConnRead? || op.ConnWrite?)
    ensures AnnouncedAt(o, Apply(o, op), Signals(o, op), c)
  {
  }

  lemma ConnEnd(o: Objects, op: Op, c: Cond)
    requires WellFormed(o) && Applicable(o, op) && op.ConnShutdown?
    ensures AnnouncedAt(o, Apply(o, op), Signals(o, op), c)
  {
  }

  /** A writer blocked on a connection sleeps on the key of its reader, which a read does not signal: the key
      it would need is the one that poll listens to. */
  lemma BlockedWriterUnheard(o: Objects, c: nat, e: nat, n: nat)
    requires WellFormed(o) && e < 2 && Applicable(o, ConnRead(c, 1 - e, n))
    ensures UnixKey(c, e) in Signals(o, ConnRead(c, 1 - e, n)) && UnixKey(c, 1 - e) !in Signals(o, ConnRead(c, 1 - e, n))
  {
  }

  /** One critical section: operations one after the other. */
  ghost predicate AllApplicable(o: Objects, ops: seq<Op>)
    requires WellFormed(o)
    decreases |ops|
  {
    ops == [] || (Applicable(o, ops[0]) && AllApplicable(Apply(o, ops[0]), ops[1..]))
  }

  ghost function ApplyAll(o: Objects, ops: seq<Op>): (r: Objects)
    requires WellFormed(o) && AllApplicable(o, ops)
    ensures WellFormed(r)
    decreases |ops|
  {
    if ops == [] then o else ApplyAll(Apply(o, ops[0]), ops[1..])
  }

  ghost function AllSignals(o: Objects, ops: seq<Op>): seq<Key>
    requires WellFormed(o) && AllApplicable(o, ops)
    decreases |ops|
  {
    if ops == [] then [] else Signals(o, ops[0]) + AllSignals(Apply(o, ops[0]), ops[1..])
  }

  lemma {:induction false} SectionAnnounces(o: Objects, ops: seq<Op>)
    requires WellFormed(o) && AllApplicable(o, ops)
    ensures Announced(o, ApplyAll(o, ops), AllSignals(o, ops))
    decreases |ops|
  {
    hide Apply, Signals, Holds, Applicable, Known;
    if ops != [] {
      OpAnnounces(o, ops[0]);
      SectionAnnounces(Apply(o, ops[0]), ops[1..]);
      forall c ensures AnnouncedAt(o, ApplyAll(o, ops), AllSignals(o, ops), c) {
        assert AnnouncedAt(o, Apply(o, ops[0]), Signals(o, ops[0]), c);
        assert AnnouncedAt(Apply(o, ops[0]), ApplyAll(o, ops), AllSignals(Apply(o, ops[0]), ops[1..]), c);
      }
    } else {
      forall c ensures AnnouncedAt(o, o, [], c) { }
    }
  }
}
