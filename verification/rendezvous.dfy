/** Synchronous message passing (kernel/src/process.rs:1007-1097): which process waits for which, and the
    history of every send, told by process ids, which are never used twice. */
module Rendezvous {
  import opened ProcessTable

  /** What happened to the sends of process `from`. */
  datatype Event =
    | Sent(from: nat, to: nat, m: Message)
    | Taken(from: nat, taker: nat, m: Message)
    | Replied(from: nat, taker: nat, m: Message)
    | PeerDied(from: nat, peer: nat)
    | Gone(from: nat)

  /** How far the current send of a process has come. */
  datatype Phase = Free | Sending(to: nat, m: Message) | Awaiting(taker: nat, m: Message) | Ended | Broken

  /** The rules: a message is taken as it was sent by the process it was sent to; the one who took it, and
      nobody else, ends the send, by a reply or by dying; nothing happens to the sends of the dead. */
  function Next(ph: Phase, e: Event): Phase
  {
    match e
    case Sent(_, to, m) => if ph == Free then Sending(to, m) else Broken
    case Taken(_, taker, m) => if ph == Sending(taker, m) then Awaiting(taker, m) else Broken
    case Replied(_, taker, _) => if ph.Awaiting? && ph.taker == taker then Free else Broken
    case PeerDied(_, peer) => if (ph.Awaiting? && ph.taker == peer) || (ph.Sending? && ph.to == peer) then Free else Broken
    case Gone(_) => if ph == Ended || ph == Broken then Broken else Ended
  }

  function PhaseOf(log: seq<Event>, p: nat): Phase
  {
    if log == [] then Free
    else
      var last := log[|log| - 1];
      var before := PhaseOf(log[..|log| - 1], p);
      if last.from == p then Next(before, last) else before
  }

  lemma PhaseAfter(log: seq<Event>, e: Event, p: nat)
    ensures PhaseOf(log + [e], p) == if e.from == p then Next(PhaseOf(log, p), e) else PhaseOf(log, p)
  {
    assert (log + [e])[..|log|] == log;
  }

  // ---------------------------------------------------------------- what the rules give

  ghost predicate Quiet(log: seq<Event>, p: nat, i: nat, j: nat)
  {
    forall k :: i < k < j && k < |log| ==> log[k].from != p
  }

  /** The message in transit was sent, as it is, to that process, and nothing happened since. */
  ghost predicate SentAt(log: seq<Event>, p: nat, i: nat, j: nat, to: nat, m: Message)
  {
    i < j <= |log| && log[i] == Sent(p, to, m) && Quiet(log, p, i, j)
  }

  ghost predicate TakenAt(log: seq<Event>, p: nat, i: nat, j: nat, k: nat, taker: nat, m: Message)
  {
    SentAt(log, p, i, j, taker, m) && j < k <= |log| && log[j] == Taken(p, taker, m) && Quiet(log, p, j, k)
  }

  ghost predicate Explained(log: seq<Event>, p: nat, ph: Phase)
  {
    match ph
    case Sending(to, m) => exists i :: SentAt(log, p, i, |log|, to, m)
    case Awaiting(taker, m) => exists i, j :: TakenAt(log, p, i, j, |log|, taker, m)
    case _ => true
  }

  lemma {:induction false} PhaseExplained(log: seq<Event>, p: nat)
    ensures Explained(log, p, PhaseOf(log, p))
  {
    if log != [] {
      var before := log[..|log| - 1];
      var e := log[|log| - 1];
      PhaseExplained(before, p);
      var was := PhaseOf(before, p);
      assert log == before + [e];
      if e.from != p {
        match was {
          case Sending(to, m) =>
            var i :| SentAt(before, p, i, |before|, to, m);
            assert SentAt(log, p, i, |log|, to, m);
          case Awaiting(taker, m) =>
            var i, j :| TakenAt(before, p, i, j, |before|, taker, m);
            assert TakenAt(log, p, i, j, |log|, taker, m);
          case _ =>
        }
      } else if e.Sent? {
        assert SentAt(log, p, |before|, |log|, e.to, e.m);
      } else if e.Taken? && was == Sending(e.taker, e.m) {
        var i :| SentAt(before, p, i, |before|, e.taker, e.m);
        assert TakenAt(log, p, i, |before|, |log|, e.taker, e.m);
      }
    }
  }

  lemma {:induction false} StaysBroken(log: seq<Event>, p: nat, k: nat)
    requires k <= |log| && PhaseOf(log[..k], p) == Broken
    ensures PhaseOf(log, p) == Broken
    decreases |log|
  {
    if k < |log| {
      assert log[..|log| - 1][..k] == log[..k];
      StaysBroken(log[..|log| - 1], p, k);
    } else {
      assert log[..k] == log;
    }
  }

  /** A reply always comes from the process that took the message, and what it took is what was sent to it. */
  lemma ReplyJustified(log: seq<Event>, p: nat, k: nat)
    requires PhaseOf(log, p) != Broken && k < |log| && log[k].from == p && log[k].Replied?
    ensures exists i, j, m :: TakenAt(log, p, i, j, k, log[k].taker, m)
  {
    if PhaseOf(log[..k + 1], p) == Broken { StaysBroken(log, p, k + 1); }
    assert log[..k + 1][..k] == log[..k];
    PhaseExplained(log[..k], p);
    var ph := PhaseOf(log[..k], p);
    var i, j :| TakenAt(log[..k], p, i, j, k, ph.taker, ph.m);
    assert TakenAt(log, p, i, j, k, log[k].taker, ph.m);
  }

  predicate IsResult(e: Event)
  {
    e.Replied? || e.PeerDied?
  }

  /** A send has at most one result: before the next one there is another send. */
  lemma OneResult(log: seq<Event>, p: nat, j: nat, k: nat)
    requires PhaseOf(log, p) != Broken && j < k < |log| && log[j].from == p == log[k].from
    requires IsResult(log[j]) && IsResult(log[k])
    ensures exists i :: j < i < k && log[i].Sent? && log[i].from == p
  {
    if PhaseOf(log[..k + 1], p) == Broken { StaysBroken(log, p, k + 1); }
    if PhaseOf(log[..j + 1], p) == Broken { StaysBroken(log, p, j + 1); }
    assert log[..k + 1][..k] == log[..k];
    assert log[..j + 1][..j] == log[..j];
    NoSendNoPhase(log, p, j, k);
  }

  lemma {:induction false} NoSendNoPhase(log: seq<Event>, p: nat, j: nat, k: nat)
    requires j < k <= |log| && PhaseOf(log[..j + 1], p) == Free
    ensures (exists i :: j < i < k && log[i].Sent? && log[i].from == p) || !(PhaseOf(log[..k], p).Sending? || PhaseOf(log[..k], p).Awaiting?)
    decreases k
  {
    if k > j + 1 {
      NoSendNoPhase(log, p, j, k - 1);
      assert log[..k][..k - 1] == log[..k - 1];
      assert log[..k][k - 1] == log[k - 1];
    }
  }

  // ---------------------------------------------------------------- the invariant

  /** Nobody waits for itself or for a dead process, except for `gone`, whose peers are being released; and
      nobody sits ready to receive while a sender waits for it. */
  ghost predicate Waits(ps: Table, gone: int, i: nat)
    requires i < |ps|
  {
    && (ps[i].state == SendBlocked ==>
          ps[i].sendTo < |ps| && ps[i].sendTo != i && (Live(ps[ps[i].sendTo]) || ps[i].sendTo == gone)
          && ps[ps[i].sendTo].state != RecvBlocked)
    && (ps[i].state == ReplyBlocked ==>
          ps[i].peer < |ps| && ps[i].peer != i && (Live(ps[ps[i].peer]) || ps[i].peer == gone))
  }

  /** The state of a live slot is where its history says it should be. */
  ghost predicate InPhase(ps: Table, log: seq<Event>, i: nat)
    requires i < |ps|
  {
    Live(ps[i]) ==>
      var ph := PhaseOf(log, ps[i].pid);
      match ps[i].state
      case SendBlocked => ps[i].sendTo < |ps| && ph == Sending(ps[ps[i].sendTo].pid, ps[i].inbox)
      case ReplyBlocked => ps[i].peer < |ps| && ph.Awaiting? && ph.taker == ps[ps[i].peer].pid
      case _ => ph == Free
  }

  /** pid = slot + 256 * generation, each generation of a slot once; the leader is a slot. */
  ghost predicate PidOk(ps: Table, generation: seq<nat>, i: nat)
    requires i < |ps| && i < |generation|
  {
    Live(ps[i]) ==> ps[i].pid % MAX_PROCS == i && ps[i].pid / MAX_PROCS < generation[i] && ps[i].leader < MAX_PROCS
  }

  /** No history breaks the rules, and a pid not handed out yet has none. */
  ghost predicate HistoryOk(generation: seq<nat>, log: seq<Event>, p: nat)
    requires |generation| == MAX_PROCS
  {
    var ph := PhaseOf(log, p);
    ph != Broken && (p / MAX_PROCS >= generation[p % MAX_PROCS] ==> ph == Free)
  }

  ghost predicate RendezvousOk(ps: Table, generation: seq<nat>, log: seq<Event>, gone: int)
  {
    && |ps| == |generation| == MAX_PROCS
    && (forall i: nat :: i < MAX_PROCS ==> Waits(ps, gone, i) && InPhase(ps, log, i) && PidOk(ps, generation, i))
    && (forall p: nat :: HistoryOk(generation, log, p))
  }

  // ---------------------------------------------------------------- steps

  function Plain(st: State): bool
  {
    !(st in {Unused, Zombie, SendBlocked, ReplyBlocked})
  }

  /** Slot `i` keeps what message passing depends on; it may move between other live states, or be dead
      before and after. */
  ghost predicate SameWait(p: Proc, q: Proc)
  {
    && (Live(p) <==> Live(q))
    && (Live(p) ==>
          && q.pid == p.pid && q.leader == p.leader
          && (q.state == p.state || (Plain(p.state) && Plain(q.state)))
          && (q.state == RecvBlocked ==> p.state == RecvBlocked)
          && (q.state == SendBlocked ==> q.sendTo == p.sendTo && q.inbox == p.inbox)
          && (q.state == ReplyBlocked ==> q.peer == p.peer))
  }

  lemma WaitsFrame(ps: Table, qs: Table, generation: seq<nat>, log: seq<Event>)
    requires RendezvousOk(ps, generation, log, IDLE) && |qs| == |ps|
    requires forall i: nat :: i < |ps| ==> SameWait(ps[i], qs[i])
    ensures RendezvousOk(qs, generation, log, IDLE)
  {
    hide PhaseOf;
    forall i: nat | i < MAX_PROCS ensures Waits(qs, IDLE, i) && InPhase(qs, log, i) && PidOk(qs, generation, i) {
      assert Waits(ps, IDLE, i) && InPhase(ps, log, i) && PidOk(ps, generation, i) && SameWait(ps[i], qs[i]);
      if ps[i].state == SendBlocked { assert SameWait(ps[ps[i].sendTo], qs[ps[i].sendTo]); }
      if ps[i].state == ReplyBlocked { assert SameWait(ps[ps[i].peer], qs[ps[i].peer]); }
    }
  }

  /** Different live slots have different pids. */
  lemma PidsDistinct(ps: Table, generation: seq<nat>, i: nat, j: nat)
    requires |ps| == |generation| == MAX_PROCS && i < MAX_PROCS && j < MAX_PROCS && i != j
    requires PidOk(ps, generation, i) && PidOk(ps, generation, j) && Live(ps[i]) && Live(ps[j])
    ensures ps[i].pid != ps[j].pid
  {
  }

  /** A process dies; those that wait for it are still to be released. */
  lemma Die(ps: Table, generation: seq<nat>, log: seq<Event>, s: nat, p: Proc)
    requires RendezvousOk(ps, generation, log, IDLE) && s < MAX_PROCS && Live(ps[s])
    requires !Live(p) && p.pid == ps[s].pid && p.leader == ps[s].leader
    ensures RendezvousOk(ps[s := p], generation, log + [Gone(p.pid)], s)
  {
    hide PhaseOf;
    var qs, after := ps[s := p], log + [Gone(p.pid)];
    forall q: nat ensures HistoryOk(generation, after, q) {
      PhaseAfter(log, Gone(p.pid), q);
      assert HistoryOk(generation, log, q) && PidOk(ps, generation, s) && InPhase(ps, log, s);
    }
    forall i: nat | i < MAX_PROCS ensures Waits(qs, s, i) && InPhase(qs, after, i) && PidOk(qs, generation, i) {
      assert Waits(ps, IDLE, i) && InPhase(ps, log, i) && PidOk(ps, generation, i) && PidOk(ps, generation, s);
      PhaseAfter(log, Gone(p.pid), ps[i].pid);
    }
  }

  ghost predicate WaitsFor(p: Proc, s: nat)
  {
    (p.state == ReplyBlocked && p.peer == s) || (p.state == SendBlocked && p.sendTo == s)
  }

  /** One of those who waited for the dead process is released with a failure. */
  lemma Release(ps: Table, generation: seq<nat>, log: seq<Event>, s: nat, i: nat, p: Proc)
    requires RendezvousOk(ps, generation, log, s) && s < MAX_PROCS && i < MAX_PROCS && WaitsFor(ps[i], s)
    requires p.pid == ps[i].pid && p.leader == ps[i].leader && Live(p) && Plain(p.state) && p.state != RecvBlocked
    ensures RendezvousOk(ps[i := p], generation, log + [PeerDied(p.pid, ps[s].pid)], s)
  {
    hide PhaseOf;
    var qs, e := ps[i := p], PeerDied(p.pid, ps[s].pid);
    assert InPhase(ps, log, i) && PidOk(ps, generation, i) && Waits(ps, s, i);
    forall q: nat ensures HistoryOk(generation, log + [e], q) {
      PhaseAfter(log, e, q);
      assert HistoryOk(generation, log, q);
    }
    OthersKeep(ps, qs, generation, log, e, s, s, i);
    PhaseAfter(log, e, p.pid);
  }

  /** After an event of slot `i` only, the others are where they were, if who they wait for still is. */
  lemma OthersKeep(ps: Table, qs: Table, generation: seq<nat>, log: seq<Event>, e: Event, gone: int, gone': int, i: nat)
    requires RendezvousOk(ps, generation, log, gone) && |qs| == |ps| && i < MAX_PROCS && Live(ps[i]) && e.from == ps[i].pid
    requires forall j: nat :: j < MAX_PROCS ==> qs[j].pid == ps[j].pid && qs[j].leader == ps[j].leader && (Live(qs[j]) <==> Live(ps[j]))
    requires forall j: nat :: j < MAX_PROCS && j != i ==>
               qs[j].state == ps[j].state && (Live(ps[j]) && !Plain(ps[j].state) ==> qs[j] == ps[j])
    requires qs[i].state == RecvBlocked ==> ps[i].state == RecvBlocked
    requires gone' == gone
    ensures forall j: nat :: j < MAX_PROCS && j != i ==> Waits(qs, gone', j) && InPhase(qs, log + [e], j)
    ensures forall j: nat :: j < MAX_PROCS ==> PidOk(qs, generation, j)
  {
    hide PhaseOf;
    forall j: nat | j < MAX_PROCS
      ensures PidOk(qs, generation, j) && (j != i ==> Waits(qs, gone', j) && InPhase(qs, log + [e], j))
    {
      assert Waits(ps, gone, j) && InPhase(ps, log, j) && PidOk(ps, generation, j) && PidOk(ps, generation, i);
      PhaseAfter(log, e, ps[j].pid);
      if j != i && Live(ps[j]) { PidsDistinct(ps, generation, i, j); }
    }
  }

  lemma Released(ps: Table, generation: seq<nat>, log: seq<Event>, s: nat)
    requires RendezvousOk(ps, generation, log, s) && forall i: nat :: i < MAX_PROCS ==> !WaitsFor(ps[i], s)
    ensures RendezvousOk(ps, generation, log, IDLE)
  {
    hide PhaseOf;
    forall i: nat | i < MAX_PROCS ensures Waits(ps, IDLE, i) { assert Waits(ps, s, i) && !WaitsFor(ps[i], s); }
  }

  /** A new process in a free slot gets a pid with no history. */
  lemma Born(ps: Table, generation: seq<nat>, log: seq<Event>, i: nat, p: Proc)
    requires RendezvousOk(ps, generation, log, IDLE) && i < MAX_PROCS && !Live(ps[i])
    requires p.pid == i + MAX_PROCS * generation[i] && p.state == Ready && p.leader < MAX_PROCS
    ensures RendezvousOk(ps[i := p], generation[i := generation[i] + 1], log, IDLE)
  {
    hide PhaseOf;
    var qs, g := ps[i := p], generation[i := generation[i] + 1];
    assert p.pid % MAX_PROCS == i && p.pid / MAX_PROCS == generation[i];
    assert HistoryOk(generation, log, p.pid);
    forall q: nat ensures HistoryOk(g, log, q) { assert HistoryOk(generation, log, q); }
    forall j: nat | j < MAX_PROCS ensures Waits(qs, IDLE, j) && InPhase(qs, log, j) && PidOk(qs, g, j) {
      assert Waits(ps, IDLE, j) && InPhase(ps, log, j) && PidOk(ps, generation, j);
    }
  }

  lemma HistoryStep(generation: seq<nat>, log: seq<Event>, e: Event, p: nat)
    requires |generation| == MAX_PROCS && HistoryOk(generation, log, p)
    requires e.from == p ==> p / MAX_PROCS < generation[p % MAX_PROCS] && Next(PhaseOf(log, p), e) != Broken
    ensures HistoryOk(generation, log + [e], p)
  {
    hide PhaseOf;
    PhaseAfter(log, e, p);
  }

  /** The running process `me` queues a message for `dst`, which is not receiving. */
  lemma Queue(ps: Table, generation: seq<nat>, log: seq<Event>, me: nat, dst: nat, p: Proc)
    requires RendezvousOk(ps, generation, log, IDLE) && me < MAX_PROCS && dst < MAX_PROCS && me != dst
    requires Live(ps[me]) && Plain(ps[me].state) && Live(ps[dst]) && ps[dst].state != RecvBlocked
    requires p.pid == ps[me].pid && p.leader == ps[me].leader && p.state == SendBlocked && p.sendTo == dst
    ensures RendezvousOk(ps[me := p], generation, log + [Sent(p.pid, ps[dst].pid, p.inbox)], IDLE)
  {
    hide PhaseOf;
    var qs, e := ps[me := p], Sent(p.pid, ps[dst].pid, p.inbox);
    assert InPhase(ps, log, me) && PidOk(ps, generation, me) && Waits(ps, IDLE, me);
    forall q: nat ensures HistoryOk(generation, log + [e], q) {
      assert HistoryOk(generation, log, q);
      HistoryStep(generation, log, e, q);
    }
    OthersKeep(ps, qs, generation, log, e, IDLE, IDLE, me);
    PhaseAfter(log, e, p.pid);
  }

  /** The message that `s` queued for `me` is taken: `s` waits for the reply. */
  lemma Take(ps: Table, generation: seq<nat>, log: seq<Event>, me: nat, s: nat, p: Proc, q: Proc)
    requires RendezvousOk(ps, generation, log, IDLE) && me < MAX_PROCS && s < MAX_PROCS && me != s
    requires ps[s].state == SendBlocked && ps[s].sendTo == me && Live(ps[me]) && Plain(ps[me].state)
    requires q.pid == ps[s].pid && q.leader == ps[s].leader && q.state == ReplyBlocked && q.peer == me
    requires p.pid == ps[me].pid && p.leader == ps[me].leader && p.state == ps[me].state
    ensures RendezvousOk(ps[me := p][s := q], generation, log + [Taken(q.pid, p.pid, ps[s].inbox)], IDLE)
  {
    hide PhaseOf;
    var qs, e := ps[me := p][s := q], Taken(q.pid, p.pid, ps[s].inbox);
    assert InPhase(ps, log, s) && PidOk(ps, generation, s) && Waits(ps, IDLE, s);
    forall r: nat ensures HistoryOk(generation, log + [e], r) {
      assert HistoryOk(generation, log, r);
      HistoryStep(generation, log, e, r);
    }
    OthersKeep(ps, qs, generation, log, e, IDLE, IDLE, s);
    PhaseAfter(log, e, q.pid);
  }

  /** A send to a process that is receiving is queued and taken at once. */
  lemma Hand(ps: Table, generation: seq<nat>, log: seq<Event>, me: nat, dst: nat, m: Message, p: Proc, q: Proc)
    requires RendezvousOk(ps, generation, log, IDLE) && me < MAX_PROCS && dst < MAX_PROCS && me != dst
    requires Live(ps[me]) && Plain(ps[me].state) && ps[me].state != RecvBlocked && ps[dst].state == RecvBlocked
    requires q.pid == ps[dst].pid && q.leader == ps[dst].leader && q.state == Ready
    requires p.pid == ps[me].pid && p.leader == ps[me].leader && p.state == ReplyBlocked && p.peer == dst
    ensures RendezvousOk(ps[dst := q][me := p], generation,
                         log + [Sent(p.pid, q.pid, m)] + [Taken(p.pid, q.pid, m)], IDLE)
  {
    hide PhaseOf;
    var ready := ps[dst := q];
    forall i: nat | i < |ps| ensures SameWait(ps[i], ready[i]) { }
    WaitsFrame(ps, ready, generation, log);
    var queued := ready[me].(state := SendBlocked, sendTo := dst, inbox := m);
    Queue(ready, generation, log, me, dst, queued);
    Take(ready[me := queued], generation, log + [Sent(p.pid, q.pid, m)], dst, me, q, p);
    assert ready[me := queued][dst := q][me := p] == ps[dst := q][me := p];
  }

  /** The process that took the message replies. */
  lemma Answer(ps: Table, generation: seq<nat>, log: seq<Event>, me: nat, to: nat, m: Message, q: Proc)
    requires RendezvousOk(ps, generation, log, IDLE) && me < MAX_PROCS && to < MAX_PROCS
    requires ps[to].state == ReplyBlocked && ps[to].peer == me
    requires q.pid == ps[to].pid && q.leader == ps[to].leader && q.state == Ready
    ensures RendezvousOk(ps[to := q], generation, log + [Replied(q.pid, ps[me].pid, m)], IDLE)
  {
    hide PhaseOf;
    var qs, e := ps[to := q], Replied(q.pid, ps[me].pid, m);
    assert InPhase(ps, log, to) && PidOk(ps, generation, to) && Waits(ps, IDLE, to);
    forall r: nat ensures HistoryOk(generation, log + [e], r) {
      assert HistoryOk(generation, log, r);
      HistoryStep(generation, log, e, r);
    }
    OthersKeep(ps, qs, generation, log, e, IDLE, IDLE, to);
    PhaseAfter(log, e, q.pid);
  }

  /** With no sender waiting for it, a process may start to receive. */
  lemma Await(ps: Table, generation: seq<nat>, log: seq<Event>, me: nat, p: Proc)
    requires RendezvousOk(ps, generation, log, IDLE) && me < MAX_PROCS && Live(ps[me]) && Plain(ps[me].state)
    requires forall i: nat :: i < MAX_PROCS && ps[i].state == SendBlocked ==> ps[i].sendTo != me
    requires p.pid == ps[me].pid && p.leader == ps[me].leader && p.state == RecvBlocked
    ensures RendezvousOk(ps[me := p], generation, log, IDLE)
  {
    hide PhaseOf;
    var qs := ps[me := p];
    forall j: nat | j < MAX_PROCS ensures Waits(qs, IDLE, j) && InPhase(qs, log, j) && PidOk(qs, generation, j) {
      assert Waits(ps, IDLE, j) && InPhase(ps, log, j) && PidOk(ps, generation, j);
    }
  }
}
