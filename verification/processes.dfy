/** The process table as the kernel runs it: creation, threads, fork and vfork, exec, exit, kill, the
    scheduler and IPC (kernel/src/process.rs). Every operation holds the scheduler's lock throughout, so
    each is one step. */
module Processes {
  import opened Basics
  import opened ProcessTable
  import opened Rendezvous
  import opened Dispatching

  /** States a timer, a signal or an event may end. */
  function Wakeable(st: State): bool
  {
    st in {RecvBlocked, Sleeping, FutexWait, WaitChild, VforkWait, IoWait, SigWait}
  }

  /** `q` is `p`, or `p` after its wait ended. */
  ghost predicate WokenSlot(p: Proc, q: Proc)
  {
    q == p || (Wakeable(p.state) && q == p.(state := Ready, wakeAt := q.wakeAt, ret := q.ret))
  }

  ghost predicate Woken(ps: Table, qs: Table)
  {
    |qs| == |ps| && forall i: nat :: i < |ps| ==> WokenSlot(ps[i], qs[i])
  }

  lemma WokenKeeps(ps: Table, x: set<nat>, generation: seq<nat>, log: seq<Event>, current: seq<int>, qs: Table)
    requires SpacesOk(ps, x) && RendezvousOk(ps, generation, log, IDLE) && CpusOk(ps, current) && Woken(ps, qs)
    ensures SpacesOk(qs, x) && RendezvousOk(qs, generation, log, IDLE) && CpusOk(qs, current)
    ensures OpenRoots(qs, x) == OpenRoots(ps, x)
  {
    NoZombies(ps, x);
    hide SpacesOk, RendezvousOk, OpenRoots, CpusOk;
    forall i: nat | i < |ps|
      ensures SameSlot(ps, x, qs, x, i) && SameWait(ps[i], qs[i]) && (qs[i].state == Running <==> ps[i].state == Running)
    {
      assert WokenSlot(ps[i], qs[i]);
    }
    SpacesFrame(ps, x, qs, x);
    WaitsFrame(ps, qs, generation, log);
    CpusFrame(ps, qs, current);
  }

  lemma NoZombies(ps: Table, x: set<nat>)
    requires SpacesOk(ps, x)
    ensures |ps| == MAX_PROCS && forall i :: i in x ==> i < MAX_PROCS && ps[i].state != Zombie
  {
    forall i | i in x ensures ps[i].state != Zombie { assert SlotOk(ps, x, i); }
  }

  /** What wake_sleepers does to one slot. */
  function Awake(p: Proc, now: nat): (q: Proc)
    ensures WokenSlot(p, q)
  {
    if p.state == Sleeping && p.wakeAt <= now then p.(state := Ready, ret := 0)
    else if p.state == FutexWait && p.wakeAt != 0 && p.wakeAt <= now then
      p.(state := Ready, wakeAt := 0, ret := if p.linux then -110 else -2)
    else if p.state == IoWait && p.wakeAt != 0 && p.wakeAt <= now then p.(state := Ready, wakeAt := 0)
    else if p.state == RecvBlocked && p.wakeAt != 0 && p.wakeAt <= now then p.(state := Ready, wakeAt := 0, ret := -1)
    else p
  }

  /** The waits that a timer ends: those program_timer looks at. */
  predicate Timed(p: Proc)
  {
    p.state == Sleeping || (p.state in {RecvBlocked, FutexWait, IoWait} && p.wakeAt != 0)
  }

  /** A wait ends exactly when it is a timed one whose time has come, and with this result; nothing else changes. */
  lemma AwakeMeans(p: Proc, now: nat)
    ensures var q := Awake(p, now);
            && (q.state != p.state <==> Timed(p) && p.wakeAt <= now) && (q.state == p.state ==> q == p)
            && q == p.(state := q.state, wakeAt := q.wakeAt, ret := q.ret)
            && (q.state != p.state ==>
                  q.state == Ready && !Timed(q)
                  && q.ret == match p.state
                              case Sleeping => 0
                              case FutexWait => (if p.linux then -110 else -2)
                              case IoWait => p.ret
                              case _ => -1)
  {
  }

  /** The interrupt comes no later than the end of any timed wait, or at once. */
  ghost predicate InTime(ps: Table, now: nat, deadline: nat)
  {
    forall i :: 0 <= i < |ps| && Timed(ps[i]) ==> deadline <= ps[i].wakeAt || deadline == now + 1
  }

  /** The interrupt comes when the wait ends, or at once when it has ended already. */
  ghost predicate Ends(p: Proc, now: nat, deadline: nat)
  {
    deadline == p.wakeAt || (p.wakeAt <= now && deadline == now + 1)
  }

  /** Between a dispatch and the interrupt programmed then no wait comes to its end. */
  lemma NothingDueBefore(ps: Table, qs: Table, now: nat, deadline: nat, t: nat, i: nat)
    requires Dispatched(ps, qs, now) && InTime(qs, now, deadline) && t < deadline && i < |qs|
    ensures Awake(qs[i], t) == qs[i]
  {
    assert DispatchedSlot(ps[i], qs[i], now);
    AwakeMeans(ps[i], now);
    AwakeMeans(qs[i], t);
  }

  function Dead(p: Proc): Proc
  {
    p.(state := Unused, killed := false)
  }

  /** A send whose partner died. */
  function Failed(p: Proc): Proc
  {
    p.(state := Ready, ret := -1)
  }

  function OneLess(k: nat): nat { if k > 0 then k - 1 else 0 }

  function Empty(): Message { Message(0, [0, 0, 0, 0, 0, 0]) }

  /** A message written through the process's pointer, if it gave one. */
  function Written(p: Proc, m: Message): Proc
  {
    if p.msgPtr != 0 then p.(buf := m) else p
  }

  // ---------------------------------------------------------------- what a death may change

  ghost predicate AllDead(ps: Table, x: set<nat>)
  {
    forall i :: i in x ==> i < |ps| && !Live(ps[i])
  }

  /** The slot is as live as before, in the same space, running or not as before. */
  ghost predicate CalmSlot(p: Proc, q: Proc)
  {
    && (Live(p) <==> Live(q))
    && (Live(p) ==> q.pid == p.pid && q.leader == p.leader && q.mm == p.mm && q.root == p.root && q.killed == p.killed
                    && (q.state == Running <==> p.state == Running) && Told(p, q, false))
  }

  /** Slot `j` is suspended until its vfork child in slot `s` has its own space or is gone. */
  predicate Suspended(ps: Table, s: nat, j: nat)
    requires s < |ps| && j < |ps|
  {
    ps[s].vforkParent == j && ps[j].state == VforkWait
  }

  /** Whom the process waits for to take its message or to answer it. */
  function Partner(p: Proc): Option<nat>
  {
    if p.state == SendBlocked then Some(p.sendTo) else if p.state == ReplyBlocked then Some(p.peer) else None
  }

  /** The partner of slot `j` has died. */
  ghost predicate Lost(ps: Table, qs: Table, j: nat)
    requires j < |ps| == |qs|
  {
    var t := Partner(ps[j]);
    t.Some? && t.value < |ps| && Live(ps[t.value]) && !Live(qs[t.value])
  }

  /** What became of the wait of a process that lives on. One that lost its partner is ready with -1; everybody
      else goes on as before, but that an event or a timer may end other waits. Its buffer is untouched. */
  ghost predicate Told(p: Proc, q: Proc, lost: bool)
  {
    && q.buf == p.buf
    && if lost then q.state == Ready && q.ret == -1
       else !Wakeable(p.state) ==> q.state == p.state && q.ret == p.ret && Partner(q) == Partner(p)
  }

  /** The same once a CPU may have picked it up. */
  ghost predicate ToldLater(p: Proc, q: Proc, lost: bool)
  {
    && q.buf == p.buf
    && if lost then q.state in {Ready, Running} && q.ret == -1
       else Partner(p).Some? ==> q.state == p.state && q.ret == p.ret && Partner(q) == Partner(p)
  }

  ghost predicate Calm(ps: Table, qs: Table)
  {
    |ps| == |qs| && forall j: nat :: j < |ps| ==> CalmSlot(ps[j], qs[j])
  }

  /** What a dispatch leaves of a slot: timed waits may have ended and one ready slot runs. */
  ghost predicate DispatchedSlot(p: Proc, q: Proc, now: nat)
  {
    q == Awake(p, now) || (Awake(p, now).state == Ready && q == Awake(p, now).(state := Running))
  }

  ghost predicate Dispatched(ps: Table, qs: Table, now: nat)
  {
    |ps| == |qs| && forall j: nat :: j < |ps| ==> DispatchedSlot(ps[j], qs[j], now)
  }

  /** Slot `j` when slot `s` has ended: as in `Survives`, whatever ran since. */
  ghost predicate Outlives(ps: Table, qs: Table, s: nat, j: nat)
    requires j < |ps| == |qs| && s < |ps|
  {
    var member := ps[s].leader == s && ps[j].leader == s;
    && (!Live(ps[j]) ==> !Live(qs[j]))
    && (Live(qs[j]) ==> j != s && qs[j].pid == ps[j].pid && qs[j].leader == ps[j].leader && qs[j].mm == ps[j].mm && qs[j].root == ps[j].root)
    && (Live(ps[j]) && j != s && !member ==> Live(qs[j]))
    && (member && Live(qs[j]) ==> qs[j].killed)
    && (ps[j].killed && Live(qs[j]) ==> qs[j].killed)
    && (Live(qs[j]) ==> ToldLater(ps[j], qs[j], Lost(ps, qs, j)) && (Suspended(ps, s, j) ==> qs[j].state in {Ready, Running}))
  }

  /** Slot `s` is dead, its group is dead or told so, and everybody else lives on in the same space; whoever waited
      for one of the dead has -1, whoever waits for somebody else still does, and the parent that vfork suspended goes
      on. */
  ghost predicate Finished(ps: Table, qs: Table, s: nat)
  {
    s < |ps| == |qs| && forall j: nat :: j < |ps| ==> Outlives(ps, qs, s, j)
  }

  lemma FallenEnded(ps: Table, qs: Table, rs: Table, s: nat, now: nat)
    requires Fallen(ps, qs, s) && Dispatched(qs, rs, now)
    ensures Finished(ps, rs, s) && !Live(rs[s])
  {
    forall j: nat | j < |ps| ensures Outlives(ps, rs, s, j) {
      assert Survives(ps, qs, s, MAX_PROCS, j) && DispatchedSlot(qs[j], rs[j], now);
      var t := Partner(ps[j]);
      if t.Some? && t.value < |ps| { assert DispatchedSlot(qs[t.value], rs[t.value], now); }
    }
    assert Outlives(ps, rs, s, s);
  }

  lemma FallenFinished(ps: Table, qs: Table, s: nat)
    requires Fallen(ps, qs, s)
    ensures Finished(ps, qs, s) && !Live(qs[s])
  {
    forall j: nat | j < |ps| ensures Outlives(ps, qs, s, j) { assert Survives(ps, qs, s, MAX_PROCS, j); }
    assert Outlives(ps, qs, s, s);
  }

  /** Slot `j` when slot `s` dies, and with it the members below `k` of the group it leads: a dead slot stays
      dead; whoever is not concerned lives on in its space; a member is dead or about to notice that it is. */
  ghost predicate Survives(ps: Table, qs: Table, s: nat, k: nat, j: nat)
    requires j < |ps| == |qs| && s < |ps|
  {
    var member := ps[s].leader == s && ps[j].leader == s && j < k;
    && (!Live(ps[j]) ==> !Live(qs[j]))
    && (Live(qs[j]) ==> j != s && qs[j].pid == ps[j].pid && qs[j].leader == ps[j].leader && qs[j].mm == ps[j].mm
                        && qs[j].root == ps[j].root && (qs[j].state == Running <==> ps[j].state == Running))
    && (Live(ps[j]) && j != s && !member ==> Live(qs[j]))
    && (member && Live(qs[j]) ==> qs[j].state == Running && qs[j].killed)
    && (ps[j].killed && Live(qs[j]) ==> qs[j].killed)
    && (Live(qs[j]) ==> Told(ps[j], qs[j], Lost(ps, qs, j)) && (Suspended(ps, s, j) ==> qs[j].state == Ready))
  }

  ghost predicate FallenBelow(ps: Table, qs: Table, s: nat, k: nat)
  {
    |ps| == |qs| && s < |ps| && forall j: nat :: j < |ps| ==> Survives(ps, qs, s, k, j)
  }

  /** Slot `s` died, and its group if it led one. */
  ghost predicate Fallen(ps: Table, qs: Table, s: nat)
  {
    |ps| == MAX_PROCS && FallenBelow(ps, qs, s, MAX_PROCS)
  }

  lemma FallenDead(ps: Table, qs: Table, s: nat)
    requires Fallen(ps, qs, s)
    ensures s < |ps| == |qs| == MAX_PROCS && !Live(qs[s])
  {
    assert Survives(ps, qs, s, MAX_PROCS, s);
  }

  lemma FallenStart(ps: Table, dead: Table, alone: Table, qs: Table, s: nat)
    requires s < |ps| == MAX_PROCS && dead == ps[s := Dead(ps[s])] && Bereaved(dead, alone, s) && Calm(alone, qs) && Live(ps[s])
    requires Resumed(alone, qs, s)
    ensures FallenBelow(ps, qs, s, 0)
  {
    forall j: nat | j < |ps| ensures Survives(ps, qs, s, 0, j) {
      assert BereavedSlot(dead[j], alone[j], s) && CalmSlot(alone[j], qs[j]);
      var t := Partner(ps[j]);
      if t.Some? && t.value < |ps| { assert BereavedSlot(dead[t.value], alone[t.value], s) && CalmSlot(alone[t.value], qs[t.value]); }
    }
  }

  /** The parent that slot `s` had suspended goes on. */
  ghost predicate Resumed(ps: Table, qs: Table, s: nat)
  {
    s < |ps| == |qs| && forall j: nat :: j < |ps| && j != s && Suspended(ps, s, j) ==> qs[j].state == Ready
  }

  /** Whoever waited for the dead `s`, and nobody else, is ready with the result -1; its buffer is untouched. */
  ghost predicate BereavedSlot(p: Proc, q: Proc, s: nat)
  {
    if WaitsFor(p, s) then q == p.(state := Ready, ret := -1) else q == p
  }

  ghost predicate Bereaved(ps: Table, qs: Table, s: nat)
  {
    |ps| == |qs| && forall j: nat :: j < |ps| ==> BereavedSlot(ps[j], qs[j], s)
  }

  lemma FallenEnd(ps: Table, qs: Table, s: nat)
    requires |ps| == MAX_PROCS && s < MAX_PROCS && FallenBelow(ps, qs, s, if ps[s].leader == s then MAX_PROCS else 0)
    ensures Fallen(ps, qs, s)
  {
    forall j: nat | j < |ps| ensures Survives(ps, qs, s, MAX_PROCS, j) {
      assert Survives(ps, qs, s, if ps[s].leader == s then MAX_PROCS else 0, j);
    }
  }

  lemma FallenThen(ps: Table, qs: Table, rs: Table, s: nat)
    requires Fallen(ps, qs, s) && Calm(qs, rs)
    ensures Fallen(ps, rs, s)
  {
    forall j: nat | j < |ps| ensures Survives(ps, rs, s, MAX_PROCS, j) {
      assert Survives(ps, qs, s, MAX_PROCS, j) && CalmSlot(qs[j], rs[j]);
      var t := Partner(ps[j]);
      if t.Some? && t.value < |ps| { assert CalmSlot(qs[t.value], rs[t.value]); }
    }
  }

  lemma SkipMember(ps: Table, qs: Table, s: nat, i: nat)
    requires FallenBelow(ps, qs, s, i) && i < |ps| && (i == s || qs[i].leader != s || !Live(qs[i]))
    ensures FallenBelow(ps, qs, s, i + 1)
  {
    var k := i + 1;
    forall j: nat | j < |ps| ensures Survives(ps, qs, s, k, j) { assert Survives(ps, qs, s, i, j); }
  }

  lemma MarkMember(ps: Table, qs: Table, rs: Table, s: nat, i: nat)
    requires FallenBelow(ps, qs, s, i) && i < |ps| && i != s && qs[i].state == Running && rs == qs[i := qs[i].(killed := true)]
    ensures FallenBelow(ps, rs, s, i + 1)
  {
    var k := i + 1;
    forall j: nat | j < |ps| ensures Survives(ps, rs, s, k, j) { assert Survives(ps, qs, s, i, j); }
  }

  /** A member that led no group itself fell: nobody else did. */
  lemma FallMember(ps: Table, qs: Table, rs: Table, s: nat, i: nat)
    requires FallenBelow(ps, qs, s, i) && i < |ps| && i != s && qs[i].leader == s && ps[s].leader == s && Live(qs[i])
    requires Fallen(qs, rs, i)
    ensures FallenBelow(ps, rs, s, i + 1)
  {
    var k := i + 1;
    forall j: nat | j < |ps| ensures Survives(ps, rs, s, k, j) {
      assert Survives(ps, qs, s, i, j) && Survives(qs, rs, i, MAX_PROCS, j);
      var t := Partner(ps[j]);
      if t.Some? && t.value < |ps| {
        assert Survives(ps, qs, s, i, t.value) && Survives(qs, rs, i, MAX_PROCS, t.value);
      }
    }
  }

  class Kernel {
    var procs: Table
    var generation: seq<nat>
    /** The slot each CPU runs. */
    var current: seq<int>
    /** Where the next search for a ready slot starts. */
    var next: nat
    /** Page tables handed to the process table, and those it gave back, in number. */
    ghost var granted: multiset<nat>
    ghost var freed: multiset<nat>
    /** The history of all sends. */
    ghost var log: seq<Event>

    /** Every page table handed in has been freed or belongs to a space in use, once. */
    ghost predicate Ledger(x: set<nat>)
      reads this
    {
      granted == freed + OpenRoots(procs, x)
    }

    ghost predicate Ok(x: set<nat>)
      reads this
    {
      && SpacesOk(procs, x) && RendezvousOk(procs, generation, log, IDLE) && Ledger(x) && next < MAX_PROCS
      && AllDead(procs, x)
    }

    ghost predicate Valid()
      reads this
    {
      Ok({}) && CpusOk(procs, current)
    }

    /** Boot: no process, every CPU idle. */
    constructor (cpus: nat)
      ensures Valid() && |current| == cpus && granted == multiset{} && log == []
      ensures forall i :: 0 <= i < MAX_PROCS ==> procs[i].state == Unused
    {
      procs := seq(MAX_PROCS, _ => Proc(0, Unused, 0, 0, 0, 0, IDLE, Empty(), 0, Empty(), 0, 0, 0, 0, false, false));
      generation := seq(MAX_PROCS, _ => 0);
      current := seq(cpus, _ => IDLE);
      next, granted, freed, log := 0, multiset{}, multiset{}, [];
      new;
      NothingOpen(procs, MAX_PROCS);
    }

    // -------------------------------------------------------------- scheduler

    method WakeSleepers(now: nat)
      modifies this`procs
      ensures |procs| == |old(procs)| && forall i :: 0 <= i < |procs| ==> procs[i] == Awake(old(procs)[i], now)
    {
      for i := 0 to |procs|
        invariant |procs| == |old(procs)|
        invariant forall j :: 0 <= j < |procs| ==> procs[j] == if j < i then Awake(old(procs)[j], now) else old(procs)[j]
      {
        procs := procs[i := Awake(procs[i], now)];
      }
    }

    /** The nearest ready slot from the round-robin position. */
    method Choose() returns (chosen: int)
      requires |procs| == MAX_PROCS && next < MAX_PROCS
      modifies this`next
      ensures next < MAX_PROCS && RoundRobin(procs, old(next), chosen, next)
    {
      for k := 0 to MAX_PROCS
        invariant next == old(next)
        invariant forall j: nat :: j < MAX_PROCS && procs[j].state == Ready ==> k <= Distance(next, j)
      {
        var i := SlotAt(next, k);
        if procs[i].state == Ready {
          chosen, next := i, SlotAt(i, 1);
          return;
        }
      }
      chosen := IDLE;
    }

    /** dispatch on CPU `c`, whose process has been saved and no longer runs. */
    method Dispatch(c: nat, now: nat)
      requires Ok({}) && c < |current| && CpusOk(procs, current[c := IDLE])
      modifies this`procs, this`current, this`next
      ensures Valid() && |current| == |old(current)| && |procs| == |old(procs)|
      ensures forall d :: 0 <= d < |current| && d != c ==> current[d] == old(current)[d]
      ensures Dispatched(old(procs), procs, now)
      ensures exists table: Table :: |table| == MAX_PROCS
                && (forall i :: 0 <= i < MAX_PROCS ==> table[i] == Awake(old(procs)[i], now))
                && RoundRobin(table, old(next), current[c], next)
                && procs == if current[c] == IDLE then table else table[current[c] := table[current[c]].(state := Running)]
    {
      hide SpacesOk, RendezvousOk, CpusOk, OpenRoots, RoundRobin, Awake;
      NoZombies(procs, {});
      WakeSleepers(now);
      ghost var table := procs;
      WokenKeeps(old(procs), {}, generation, log, current[c := IDLE], table);
      var chosen := Choose();
      current := current[c := chosen];
      if chosen != IDLE {
        PickUp(table, generation, log, old(current), c, chosen, old(next), next);
        procs := procs[chosen := procs[chosen].(state := Running)];
      }
    }

    /** program_timer, at the end of every dispatch: the next interrupt comes when the time slice is over, or when
        the first timed wait is. */
    method ProgramTimer(now: nat, quantum: nat) returns (deadline: nat)
      requires quantum > 0
      ensures now < deadline <= now + quantum && InTime(procs, now, deadline)
      ensures deadline < now + quantum ==> exists i :: 0 <= i < |procs| && Timed(procs[i]) && Ends(procs[i], now, deadline)
    {
      deadline := now + quantum;
      for i := 0 to |procs|
        invariant now < deadline <= now + quantum && InTime(procs[..i], now, deadline)
        invariant deadline < now + quantum ==> exists j :: 0 <= j < i && Timed(procs[j]) && Ends(procs[j], now, deadline)
      {
        var p := procs[i];
        if Timed(p) && p.wakeAt < deadline { deadline := if p.wakeAt < now + 1 then now + 1 else p.wakeAt; }
      }
      assert procs[..|procs|] == procs;
    }

    /** schedule: the current process gives way. */
    method Schedule(c: nat, now: nat)
      requires Valid() && c < |current|
      modifies this`procs, this`current, this`next
      ensures Valid() && |current| == |old(current)|
      ensures var s := old(current[c]);
              if s == IDLE then Dispatched(old(procs), procs, now)
              else 0 <= s < |old(procs)| && Dispatched(old(procs)[s := old(procs)[s].(state := Ready)], procs, now)
    {
      hide SpacesOk, RendezvousOk, CpusOk, OpenRoots, Dispatched, RoundRobin;
      if current[c] != IDLE {
        CurrentRuns(procs, current, c);
        var s := current[c];
        Pause(s, c, Ready);
        procs := procs[s := procs[s].(state := Ready)];
      } else {
        assert current[c := IDLE] == current;
      }
      Dispatch(c, now);
    }

    /** What a change of state of the running slot keeps. */
    lemma Pause(s: nat, c: nat, st: State)
      requires Valid() && c < |current| && current[c] == s && s < |procs| && procs[s].state == Running
      requires Plain(st) && st != Running && st != RecvBlocked
      ensures var qs := procs[s := procs[s].(state := st)];
              SpacesOk(qs, {}) && RendezvousOk(qs, generation, log, IDLE) && CpusOk(qs, current[c := IDLE])
              && OpenRoots(qs, {}) == OpenRoots(procs, {})
    {
      var p := procs[s].(state := st);
      Vacate(procs, current, c, p);
      NoZombies(procs, {});
      hide SpacesOk, RendezvousOk, CpusOk, OpenRoots;
      var qs := procs[s := p];
      forall i: nat | i < |procs| ensures SameSlot(procs, {}, qs, {}, i) && SameWait(procs[i], qs[i]) { }
      SpacesFrame(procs, {}, qs, {});
      WaitsFrame(procs, qs, generation, log);
    }

    /** Any wait other than IPC: sleep, futex, wait for a child, for input or output, for a signal. */
    method Wait(c: nat, st: State, wakeAt: nat, now: nat)
      requires Valid() && c < |current| && current[c] != IDLE && st in {Sleeping, FutexWait, WaitChild, IoWait, SigWait}
      modifies this`procs, this`current, this`next
      ensures Valid() && |current| == |old(current)|
      ensures var s := old(current[c]);
              && 0 <= s < |old(procs)|
              && Dispatched(old(procs)[s := old(procs)[s].(state := st, wakeAt := wakeAt)], procs, now)
    {
      hide SpacesOk, RendezvousOk, CpusOk, OpenRoots, Dispatched, RoundRobin;
      CurrentRuns(procs, current, c);
      var s := current[c];
      ghost var qs := procs[s := procs[s].(state := st)];
      Pause(s, c, st);
      procs := procs[s := procs[s].(state := st, wakeAt := wakeAt)];
      Harmless(qs, {}, procs, generation, log, current[c := IDLE]);
      Dispatch(c, now);
    }

    /** Events, signals and exits of children end waits of any number of slots. */
    method WakeSome(wanted: set<nat>)
      requires |procs| == MAX_PROCS
      modifies this`procs
      ensures Woken(old(procs), procs)
    {
      for i := 0 to MAX_PROCS
        invariant Woken(old(procs), procs) && forall j :: i <= j < MAX_PROCS ==> procs[j] == old(procs)[j]
      {
        if i in wanted && procs[i].state in {Sleeping, FutexWait, WaitChild, IoWait, SigWait} {
          procs := procs[i := procs[i].(state := Ready, wakeAt := 0)];
        }
      }
    }

    /** io_wake, futex_wake, post_signal. */
    method Wake(wanted: set<nat>)
      requires Valid()
      modifies this`procs
      ensures Valid() && Woken(old(procs), procs)
    {
      hide SpacesOk, RendezvousOk, CpusOk, OpenRoots, Woken;
      NoZombies(procs, {});
      WakeSome(wanted);
      WokenKeeps(old(procs), {}, generation, log, current, procs);
    }

    // -------------------------------------------------------------- death

    /** drop_mm: slot `s` leaves its space, which goes with its last user. True: `s` must stay as a zombie. */
    method DropMm(s: nat, ghost x: set<nat>) returns (busy: bool)
      requires SpacesOk(procs, x) && Ledger(x) && s < MAX_PROCS && Uses(procs, x, s)
      modifies this`procs, this`freed
      ensures Dropped(old(procs), procs, s, busy) && freed == old(freed) + Freed(old(procs), s)
      ensures var qs := procs[s := procs[s].(state := if busy then Zombie else Unused)];
              SpacesOk(qs, x - {s}) && granted == freed + OpenRoots(qs, x - {s})
    {
      hide SpacesOk, OpenRoots, Left, Dropped, Owner;
      UserFacts(procs, x, s);
      var m := procs[s].mm;
      procs := procs[m := procs[m].(members := OneLess(procs[m].members))];
      busy := false;
      if m == s {
        if procs[s].members > 0 { busy := true; } else { FreeMm(s); }
      } else {
        procs := procs[s := procs[s].(root := 0, mm := s)];
        if procs[m].state == Zombie && procs[m].members == 0 {
          FreeMm(m);
          procs := procs[m := procs[m].(state := Unused)];
        }
      }
      DroppedHere(old(procs), procs, s, busy);
      DroppedLeft(old(procs), x, procs, s, busy);
      ghost var qs := procs[s := procs[s].(state := if busy then Zombie else Unused)];
      Leave(old(procs), x, qs, s);
      LedgerMoves(granted, old(freed), OpenRoots(qs, x - {s}), Freed(old(procs), s), OpenRoots(old(procs), x));
    }

    /** free_mm: the page tables of space `m` go back. */
    method FreeMm(m: nat)
      requires m < |procs|
      modifies this`procs, this`freed
      ensures procs == old(procs)[m := old(procs)[m].(root := 0)] && freed == old(freed) + multiset{old(procs)[m].root}
    {
      freed := freed + multiset{procs[m].root};
      procs := procs[m := procs[m].(root := 0)];
    }

    /** release: the slot of a dead process leaves its space and is free again, or a zombie. */
    method Release(s: nat, ghost x: set<nat>)
      requires Ok(x) && s < MAX_PROCS && s in x && CpusOk(procs, current)
      modifies this`procs, this`freed
      ensures Ok(x - {s}) && CpusOk(procs, current) && Calm(old(procs), procs)
    {
      hide SpacesOk, RendezvousOk, OpenRoots, Left, Users, CpusOk;
      NoZombies(procs, x);
      var busy := DropMm(s, x);
      ghost var qs := procs;
      procs := procs[s := procs[s].(state := if busy then Zombie else Unused)];
      forall i: nat | i < |procs| ensures SameWait(old(procs)[i], procs[i]) && CalmSlot(old(procs)[i], procs[i]) {
        if i != s { DroppedCalm(old(procs), qs, s, busy, i); }
      }
      WaitsFrame(old(procs), procs, generation, log);
      CpusFrame(old(procs), procs, current);
    }

    /** The scan of reap: whoever waits for the dead `s` fails with -1. */
    method ReleasePeers(s: nat, ghost x: set<nat>)
      requires s < MAX_PROCS && CpusOk(procs, current) && next < MAX_PROCS && AllDead(procs, x) && s in x
      requires SpacesOk(procs, x) && RendezvousOk(procs, generation, log, s) && Ledger(x)
      modifies this`procs, this`log
      ensures Ok(x) && CpusOk(procs, current) && Bereaved(old(procs), procs, s)
    {
      hide SpacesOk, RendezvousOk, OpenRoots, CpusOk;
      NoZombies(procs, x);
      for i := 0 to MAX_PROCS
        invariant |procs| == MAX_PROCS && RendezvousOk(procs, generation, log, s)
        invariant forall j: nat :: j < MAX_PROCS ==>
                    procs[j] == if j < i && WaitsFor(old(procs)[j], s) then Failed(old(procs)[j]) else old(procs)[j]
      {
        var p := procs[i];
        if (p.state == ReplyBlocked && p.peer == s) || (p.state == SendBlocked && p.sendTo == s) {
          Rendezvous.Release(procs, generation, log, s, i, Failed(p));
          log := log + [PeerDied(p.pid, procs[s].pid)];
          procs := procs[i := Failed(p)];
        }
      }
      Released(procs, generation, log, s);
      forall i: nat | i < |procs|
        ensures SameSlot(old(procs), x, procs, x, i) && (procs[i].state == Running <==> old(procs)[i].state == Running) { }
      SpacesFrame(old(procs), x, procs, x);
      CpusFrame(old(procs), procs, current);
    }

    /** wake_vfork_parent: whoever is suspended on account of `s` goes on. */
    method WakeVforkParent(s: nat)
      requires s < |procs|
      modifies this`procs
      ensures |procs| == |old(procs)| && Resumed(old(procs), procs, s)
      ensures exists qs: Table :: |qs| == |procs| && Woken(old(procs), qs) && procs == qs[s := qs[s].(vforkParent := IDLE)]
    {
      var p := procs[s].vforkParent;
      ghost var qs := procs;
      assert Woken(old(procs), qs);
      procs := procs[s := procs[s].(vforkParent := IDLE)];
      if 0 <= p < |procs| && procs[p].state == VforkWait {
        qs := qs[p := qs[p].(state := Ready)];
        procs := procs[p := procs[p].(state := Ready)];
        assert Woken(old(procs), qs);
        assert procs == qs[s := qs[s].(vforkParent := IDLE)];
      }
    }

    /** Wakes the parent suspended by vfork and, when a leader dies, whoever waits for the exit or for what
        its descriptors held. */
    method WakeFamily(s: nat, ghost x: set<nat>)
      requires Ok(x) && s in x && CpusOk(procs, current)
      modifies this`procs
      ensures Ok(x) && CpusOk(procs, current) && Calm(old(procs), procs) && |procs| == MAX_PROCS && Resumed(old(procs), procs, s)
    {
      hide SpacesOk, RendezvousOk, OpenRoots, CpusOk, Woken;
      NoZombies(procs, x);
      WakeVforkParent(s);
      VforkKeeps(old(procs), x, generation, log, current, procs, s);
      if procs[s].leader == s {
        ghost var before := procs;
        var wanted: set<nat> := *;
        WakeSome(wanted);
        WokenKeeps(before, x, generation, log, current, procs);
        WokenCalm(before, procs);
        CalmResumes(old(procs), before, procs, s);
      }
    }

    /** reap: slot `s`, which runs nowhere, is finished, and with a leader its group; threads that run
        elsewhere are told to finish themselves. */
    method Reap(s: nat, ghost x: set<nat>)
      requires Ok(x) && s < MAX_PROCS && |procs| == MAX_PROCS && Live(procs[s]) && CpusOk(procs[s := Dead(procs[s])], current)
      modifies this`procs, this`log, this`freed
      ensures Ok(x) && CpusOk(procs, current) && Fallen(old(procs), procs, s)
      decreases if procs[s].leader == s then 1 else 0, 0
    {
      hide SpacesOk, RendezvousOk, OpenRoots, CpusOk, Fallen, FallenBelow, CalmSlot;
      var l := procs[s].leader;
      DieKeeps(procs, x, generation, log, s);
      log := log + [Gone(procs[s].pid)];
      procs := procs[s := Dead(procs[s])];
      ghost var dead := procs;
      ReleasePeers(s, x + {s});
      ghost var alone := procs;
      WakeFamily(s, x + {s});
      FallenStart(old(procs), dead, alone, procs, s);
      if l == s {
        for i := 0 to MAX_PROCS
          invariant Ok(x + {s}) && CpusOk(procs, current) && FallenBelow(old(procs), procs, s, i)
        {
          ReapMember(old(procs), s, i, x);
        }
      }
      FallenEnd(old(procs), procs, s);
      ghost var before := procs;
      Release(s, x + {s});
      assert x + {s} - {s} == x;
      FallenThen(old(procs), before, procs, s);
    }

    /** One turn of the loop over the group of a dead leader. */
    method ReapMember(ghost ps: Table, s: nat, i: nat, ghost x: set<nat>)
      requires Ok(x + {s}) && CpusOk(procs, current) && FallenBelow(ps, procs, s, i) && i < MAX_PROCS && s < MAX_PROCS
      requires |ps| == MAX_PROCS && ps[s].leader == s && s !in x
      modifies this`procs, this`log, this`freed
      ensures Ok(x + {s}) && CpusOk(procs, current) && FallenBelow(ps, procs, s, i + 1)
      decreases 0, 1
    {
      hide SpacesOk, RendezvousOk, OpenRoots, CpusOk, Fallen, FallenBelow, CalmSlot;
      NoZombies(procs, x + {s});
      if i == s || procs[i].leader != s || !Live(procs[i]) {
        SkipMember(ps, procs, s, i);
        return;
      }
      ghost var before := procs;
      if procs[i].state == Running {
        procs := procs[i := procs[i].(killed := true)];
        Harmless(before, x + {s}, procs, generation, log, current);
        MarkMember(ps, before, procs, s, i);
      } else {
        StillPlaced(procs, current, i);
        Reap(i, x + {s});
        FallMember(ps, before, procs, s, i);
      }
    }

    /** exit_locked: the calling process on CPU `c` ends. */
    method ExitLocked(c: nat, now: nat)
      requires Valid() && c < |current| && current[c] != IDLE
      modifies this`procs, this`current, this`next, this`log, this`freed
      ensures Valid() && |current| == |old(current)|
      ensures 0 <= old(current[c]) && Finished(old(procs), procs, old(current[c])) && !Live(procs[old(current[c])])
    {
      hide SpacesOk, RendezvousOk, OpenRoots, CpusOk, Fallen, Dispatched, Finished, RoundRobin;
      NoZombies(procs, {});
      CurrentRuns(procs, current, c);
      var s := current[c];
      Vacate(procs, current, c, Dead(procs[s]));
      current := current[c := IDLE];
      Reap(s, {});
      assert current[c := IDLE] == current;
      ghost var qs := procs;
      Dispatch(c, now);
      FallenEnded(old(procs), qs, procs, s, now);
    }

    /** exit_if_killed, at every entry to the kernel. */
    method ExitIfKilled(c: nat, now: nat) returns (gone: bool)
      requires Valid() && c < |current|
      modifies this`procs, this`current, this`next, this`log, this`freed
      ensures Valid() && |current| == |old(current)|
      ensures !gone ==> procs == old(procs) && current == old(current)
      ensures gone <==> old(current[c]) != IDLE && 0 <= old(current[c]) < |old(procs)| && old(procs)[old(current[c])].killed
      ensures gone ==> 0 <= old(current[c]) && Finished(old(procs), procs, old(current[c])) && !Live(procs[old(current[c])])
    {
      hide SpacesOk, RendezvousOk, OpenRoots, CpusOk, Finished;
      if current[c] == IDLE { return false; }
      CurrentRuns(procs, current, c);
      gone := procs[current[c]].killed;
      if gone { ExitLocked(c, now); }
    }

    /** exit_group: the whole group ends; if its leader runs elsewhere, the leader is told and takes the rest
        with it. */
    method ExitGroup(c: nat, now: nat)
      requires Valid() && c < |current| && current[c] != IDLE
      modifies this`procs, this`current, this`next, this`log, this`freed
      ensures Valid() && |current| == |old(current)| && 0 <= old(current[c]) < MAX_PROCS == |procs| == |old(procs)|
      ensures !Live(procs[old(current[c])]) && old(procs)[old(current[c])].leader < MAX_PROCS
      ensures var l := old(procs)[old(current[c])].leader;
              if old(procs)[l].state == Running && l != old(current[c]) then Live(procs[l]) ==> procs[l].killed
              else Live(old(procs)[l]) && old(procs)[l].leader == l ==>
                     forall j :: 0 <= j < MAX_PROCS && Live(procs[j]) && procs[j].leader == l ==> procs[j].killed
    {
      hide SpacesOk, RendezvousOk, OpenRoots, CpusOk, Fallen, Finished, CalmSlot;
      NoZombies(procs, {});
      CurrentRuns(procs, current, c);
      var s := current[c];
      var l := procs[s].leader;
      LeaderOk(procs, generation, log, s);
      if l != s && Live(procs[l]) {
        if procs[l].state == Running {
          ghost var qs := procs;
          procs := procs[l := procs[l].(killed := true)];
          Harmless(qs, {}, procs, generation, log, current);
        } else {
          StillPlaced(procs, current, l);
          Reap(l, {});
          FallenMember(old(procs), procs, l, s);
        }
      }
      NoZombies(procs, {});
      ghost var before := procs;
      ExitLocked(c, now);
      NoZombies(procs, {});
      GroupEnded(old(procs), before, procs, l, s);
    }

    /** slot_of: the live slot of a pid. */
    method SlotOf(pid: nat) returns (r: Option<nat>)
      requires Valid()
      ensures r.Some? ==> r.value < MAX_PROCS == |procs| && Live(procs[r.value]) && procs[r.value].pid == pid
      ensures r.None? ==> |procs| == MAX_PROCS && forall i :: 0 <= i < MAX_PROCS && Live(procs[i]) ==> procs[i].pid != pid
    {
      forall i: nat | i < MAX_PROCS && Live(procs[i]) ensures procs[i].pid % MAX_PROCS == i { assert PidOk(procs, generation, i); }
      var s := pid % MAX_PROCS;
      r := if Live(procs[s]) && procs[s].pid == pid then Some(s) else None;
    }

    /** kill: ends the process, or tells the CPU that runs it to. */
    method Kill(c: nat, pid: nat, now: nat) returns (found: bool)
      requires Valid() && c < |current|
      modifies this`procs, this`current, this`next, this`log, this`freed
      ensures Valid() && |current| == |old(current)| && |procs| == |old(procs)| == MAX_PROCS
      ensures found <==> exists s :: 0 <= s < MAX_PROCS && Live(old(procs)[s]) && old(procs)[s].pid == pid
      ensures !found ==> procs == old(procs) && log == old(log)
      ensures forall s :: 0 <= s < MAX_PROCS && Live(old(procs)[s]) && old(procs)[s].pid == pid ==>
                (!Live(procs[s]) && Finished(old(procs), procs, s))
                || (old(procs)[s].state == Running && procs == old(procs)[s := old(procs)[s].(killed := true)])
    {
      hide SpacesOk, RendezvousOk, OpenRoots, CpusOk, Finished;
      var target := SlotOf(pid);
      if target.None? { return false; }
      var s := target.value;
      OnlyOne(procs, generation, log, s);
      if s == current[c] {
        ExitLocked(c, now);
        NoZombies(procs, {});
      } else if procs[s].state == Running {
        procs := procs[s := procs[s].(killed := true)];
        Harmless(old(procs), {}, procs, generation, log, current);
      } else {
        StillPlaced(procs, current, s);
        Reap(s, {});
        FallenFinished(old(procs), procs, s);
        FallenDead(old(procs), procs, s);
      }
      found := true;
    }

    // -------------------------------------------------------------- creation

    /** The first free slot. */
    method FirstFree() returns (i: int)
      requires |procs| == MAX_PROCS
      ensures i == IDLE ==> forall j :: 0 <= j < MAX_PROCS ==> procs[j].state != Unused
      ensures i != IDLE ==> 0 <= i < MAX_PROCS && procs[i].state == Unused
    {
      for k := 0 to MAX_PROCS
        invariant forall j :: 0 <= j < k ==> procs[j].state != Unused
      {
        if procs[k].state == Unused { return k; }
      }
      i := IDLE;
    }

    /** Puts a new ready process into a free slot, with a space of its own or as one more user of another's. */
    method Install(i: nat, p: Proc)
      requires Valid() && i < MAX_PROCS == |procs| == |generation| && procs[i].state == Unused
      requires p.pid == i + MAX_PROCS * generation[i] && p.state == Ready && p.leader < MAX_PROCS
      requires if p.mm == i then p.members == 1 else Owner(procs, {}, p.mm) && p.root == procs[p.mm].root
      modifies this`procs, this`generation, this`granted
      ensures Valid() && procs == Spawned(old(procs), i, p)
      ensures generation == old(generation)[i := old(generation)[i] + 1]
      ensures granted == old(granted) + if p.mm == i then multiset{p.root} else multiset{}
    {
      hide SpacesOk, RendezvousOk, OpenRoots, CpusOk, Owner, PhaseOf;
      NoZombies(procs, {});
      InstallKeeps(procs, generation, log, current, i, p);
      if p.mm == i { granted := granted + multiset{p.root}; }
      procs := Spawned(procs, i, p);
      generation := generation[i := generation[i] + 1];
    }

    /** create: a process with a space of its own. */
    method Create(root: nat, linux: bool) returns (r: Option<nat>)
      requires Valid()
      modifies this`procs, this`generation, this`granted
      ensures Valid() && |procs| == |old(procs)| == MAX_PROCS
      ensures r.None? <==> forall j :: 0 <= j < MAX_PROCS ==> old(procs)[j].state != Unused
      ensures r.None? ==> procs == old(procs) && granted == old(granted)
      ensures r.Some? ==> granted == old(granted) + multiset{root}
      ensures r.Some? ==> exists i: nat :: Newborn(old(procs), procs, i, r.value, i, i, root, linux) && procs == old(procs)[i := procs[i]]
    {
      hide SpacesOk, RendezvousOk, OpenRoots, CpusOk;
      NoZombies(procs, {});
      Generations(procs, generation, log);
      var i := FirstFree();
      if i == IDLE { return None; }
      var p := Fresh(i + MAX_PROCS * generation[i], i, i, 1, root, linux);
      Install(i, p);
      assert Newborn(old(procs), procs, i, p.pid, i, i, root, linux);
      r := Some(p.pid);
    }

    /** thread_create and clone_thread: a process in the caller's group and space. */
    method ThreadCreate(c: nat) returns (r: Option<nat>)
      requires Valid() && c < |current|
      modifies this`procs, this`generation, this`granted
      ensures Valid() && |procs| == |old(procs)| == MAX_PROCS && granted == old(granted)
      ensures r.None? <==> current[c] == IDLE || forall j :: 0 <= j < MAX_PROCS ==> old(procs)[j].state != Unused
      ensures r.None? ==> procs == old(procs)
      ensures r.Some? ==> 0 <= current[c] < MAX_PROCS
      ensures r.Some? ==> var p := old(procs)[current[c]];
                p.leader < MAX_PROCS && exists i: nat :: Newborn(old(procs), procs, i, r.value, p.leader, p.mm, p.root, old(procs)[p.leader].linux)
                                                        && OneMoreMember(old(procs), procs, i, p.mm)
    {
      hide SpacesOk, RendezvousOk, OpenRoots, CpusOk, Owner;
      NoZombies(procs, {});
      Generations(procs, generation, log);
      if current[c] == IDLE { return None; }
      CurrentRuns(procs, current, c);
      var s := current[c];
      LeaderOk(procs, generation, log, s);
      UserFacts(procs, {}, s);
      var l, m := procs[s].leader, procs[s].mm;
      var i := FirstFree();
      if i == IDLE { return None; }
      NoUsers(procs, {}, i);
      var t := Fresh(i + MAX_PROCS * generation[i], l, m, 0, procs[m].root, procs[l].linux);
      Install(i, t);
      assert Newborn(old(procs), procs, i, t.pid, l, m, procs[m].root, old(procs)[l].linux) && OneMoreMember(old(procs), procs, i, m);
      r := Some(t.pid);
    }

    /** fork with a copied space, or vfork: the child borrows the caller's and the caller is suspended. */
    method Fork(c: nat, newRoot: Option<nat>, now: nat) returns (r: Option<nat>)
      requires Valid() && c < |current|
      modifies this`procs, this`generation, this`granted, this`current, this`next
      ensures Valid() && |current| == |old(current)| && |procs| == |old(procs)| == MAX_PROCS
      ensures r.None? <==> old(current[c]) == IDLE || forall j :: 0 <= j < MAX_PROCS ==> old(procs)[j].state != Unused
      ensures r.None? ==> procs == old(procs) && granted == old(granted)
      ensures r.Some? ==> granted == old(granted) + if newRoot.Some? then multiset{newRoot.value} else multiset{}
      ensures r.Some? ==> 0 <= old(current[c]) < MAX_PROCS
      ensures r.Some? && newRoot.Some? ==>
                exists i: nat :: Newborn(old(procs), procs, i, r.value, i, i, newRoot.value, old(procs)[old(current[c])].linux)
                                 && procs == old(procs)[i := procs[i]]
      ensures r.Some? && newRoot.None? ==>
                exists i: nat :: Borrower(old(procs), procs, i, r.value, old(current[c]), now)
    {
      hide SpacesOk, RendezvousOk, OpenRoots, CpusOk, Owner;
      NoZombies(procs, {});
      Generations(procs, generation, log);
      if current[c] == IDLE { return None; }
      CurrentRuns(procs, current, c);
      var s := current[c];
      UserFacts(procs, {}, s);
      var m := procs[s].mm;
      var i := FirstFree();
      if i == IDLE { return None; }
      NoUsers(procs, {}, i);
      var pid := i + MAX_PROCS * generation[i];
      if newRoot.Some? {
        Install(i, Fresh(pid, i, i, 1, newRoot.value, procs[s].linux));
        assert Newborn(old(procs), procs, i, pid, i, i, newRoot.value, old(procs)[s].linux);
        return Some(pid);
      }
      Vfork(c, i, Fresh(pid, i, m, 0, procs[m].root, procs[s].linux).(vforkParent := s), now);
      assert Borrower(old(procs), procs, i, pid, s, now);
      r := Some(pid);
    }

    /** vfork: the child joins the caller's space and the caller waits for it. */
    method Vfork(c: nat, i: nat, p: Proc, now: nat)
      requires Valid() && c < |current| && current[c] != IDLE && i < MAX_PROCS == |procs| == |generation| && procs[i].state == Unused
      requires 0 <= current[c] < MAX_PROCS && procs[current[c]].state == Running
      requires p.pid == i + MAX_PROCS * generation[i] && p.state == Ready && p.leader == i && p.mm != i && p.vforkParent == current[c]
      requires p.mm == procs[current[c]].mm && Owner(procs, {}, p.mm) && p.root == procs[p.mm].root
      modifies this`procs, this`generation, this`granted, this`current, this`next
      ensures Valid() && |current| == |old(current)| && |procs| == |old(procs)| && granted == old(granted)
      ensures procs[i].pid == p.pid && procs[i].leader == i && procs[i].mm == p.mm && procs[i].root == p.root
      ensures procs[i].vforkParent == p.vforkParent && Live(procs[i]) && procs[old(current[c])].state == VforkWait
      ensures procs[i].linux == p.linux && OthersDispatched(old(procs), procs, {i, old(current[c]), p.mm}, now)
    {
      hide SpacesOk, RendezvousOk, OpenRoots, CpusOk, Dispatched, Owner, Awake;
      Install(i, p);
      ghost var s, qs := current[c], procs;
      Suspend(c, now);
      assert DispatchedSlot(qs[i], procs[i], now) by { DispatchedAt(qs[s := qs[s].(state := VforkWait)], procs, i, now); }
      DispatchedAt(qs[s := qs[s].(state := VforkWait)], procs, s, now);
      AwakeMeans(qs[s].(state := VforkWait), now);
      AwakeMeans(qs[i], now);
      forall j: nat | j < |procs| && j !in {i, s, p.mm} ensures DispatchedSlot(old(procs)[j], procs[j], now) {
        DispatchedAt(qs[s := qs[s].(state := VforkWait)], procs, j, now);
      }
    }

    method Suspend(c: nat, now: nat)
      requires Valid() && c < |current| && 0 <= current[c] < |procs| && procs[current[c]].state == Running
      modifies this`procs, this`current, this`next
      ensures Valid() && |current| == |old(current)| && |procs| == |old(procs)|
      ensures var s := old(current[c]); Dispatched(old(procs)[s := old(procs)[s].(state := VforkWait)], procs, now)
    {
      hide SpacesOk, RendezvousOk, OpenRoots, CpusOk, RoundRobin, Dispatched;
      var s := current[c];
      Pause(s, c, VforkWait);
      procs := procs[s := procs[s].(state := VforkWait)];
      Dispatch(c, now);
    }

    /** exec_replace: the caller, a leader, gets the space `root` for the one it leaves. It fails when it is no
        leader, or when somebody else still uses the space it owns. */
    method ExecReplace(c: nat, root: nat) returns (ok: bool)
      requires Valid() && c < |current|
      modifies this`procs, this`granted, this`freed, this`log
      ensures Valid() && |procs| == MAX_PROCS && current == old(current)
      ensures current[c] == IDLE ==> !ok
      ensures current[c] != IDLE ==>
                && 0 <= current[c] < MAX_PROCS == |old(procs)|
                && var s := current[c];
                && procs[s].state == Running && procs[s].pid == old(procs)[s].pid
                && (ok ==> procs[s].root == root && procs[s].mm == s && Users(procs, {}, s) == {s})
                && (ok ==> granted == old(granted) + multiset{root})
                && (!ok ==> procs[s].mm == old(procs)[s].mm && procs[s].root == old(procs)[s].root && granted == old(granted))
                && (!ok ==> old(procs)[s].leader != s || exists j :: 0 <= j < MAX_PROCS && j != s && Live(procs[j]) && procs[j].mm == s)
                && (old(procs)[s].leader == s ==>
                      forall j :: 0 <= j < MAX_PROCS && j != s && Live(procs[j]) && procs[j].leader == s ==> procs[j].killed)
    {
      hide SpacesOk, RendezvousOk, OpenRoots, CpusOk, Users, Fallen, Left, Owner;
      NoZombies(procs, {});
      if current[c] == IDLE { return false; }
      CurrentRuns(procs, current, c);
      var s := current[c];
      if procs[s].leader != s { return false; }
      EndSiblings(s);
      CurrentRuns(procs, current, c);
      if procs[s].mm == s && procs[s].members > 1 {
        OtherUser(procs, s);
        return false;
      }
      Replace(s, root);
      ok := true;
    }

    /** exec, first part: the other threads of the group of `s` end, or are told to. */
    method EndSiblings(s: nat)
      requires Valid() && s < |procs| && procs[s].state == Running && procs[s].leader == s
      modifies this`procs, this`freed, this`log
      ensures Valid() && |procs| == |old(procs)| && SiblingsDown(old(procs), procs, s, MAX_PROCS)
    {
      hide SpacesOk, RendezvousOk, OpenRoots, CpusOk, Fallen;
      NoZombies(procs, {});
      for i := 0 to MAX_PROCS
        invariant Valid() && |procs| == |old(procs)| == MAX_PROCS && SiblingsDown(old(procs), procs, s, i)
      {
        ghost var before := procs;
        if i != s && procs[i].leader == s && Live(procs[i]) {
          if procs[i].state == Running {
            procs := procs[i := procs[i].(killed := true)];
            Harmless(before, {}, procs, generation, log, current);
          } else {
            StillPlaced(procs, current, i);
            Reap(i, {});
            OneDown(old(procs), before, procs, s, i);
          }
        }
      }
    }

    /** exec, last part: the parent suspended by vfork goes on, and `s` gets a space of its own. */
    method Replace(s: nat, root: nat)
      requires Valid() && s < |procs| && procs[s].state == Running && !(procs[s].mm == s && procs[s].members > 1)
      modifies this`procs, this`granted, this`freed
      ensures Valid() && |procs| == |old(procs)| == MAX_PROCS && granted == old(granted) + multiset{root}
      ensures procs[s].state == Running && procs[s].pid == old(procs)[s].pid && procs[s].leader == old(procs)[s].leader
      ensures procs[s].root == root && procs[s].mm == s && Users(procs, {}, s) == {s}
      ensures forall j: nat :: j < MAX_PROCS && j != s ==> CalmSlot(old(procs)[j], procs[j])
    {
      hide SpacesOk, RendezvousOk, OpenRoots, CpusOk, Users, Owner, Woken, Calm, CalmSlot;
      NoZombies(procs, {});
      WakeVforkParent(s);
      VforkKeeps(old(procs), {}, generation, log, current, procs, s);
      CalmRunner(old(procs), procs, s);
      ghost var before := procs;
      Move(s, root);
      CalmTwice(old(procs), before, procs, s);
    }

    /** `s` leaves its space and moves into the new one. */
    method Move(s: nat, root: nat)
      requires Valid() && s < |procs| && procs[s].state == Running && !(procs[s].mm == s && procs[s].members > 1)
      modifies this`procs, this`granted, this`freed
      ensures Valid() && |procs| == |old(procs)| == MAX_PROCS && granted == old(granted) + multiset{root}
      ensures procs[s] == old(procs)[s].(root := root, mm := s, members := 1) && Users(procs, {}, s) == {s}
      ensures forall j: nat :: j < MAX_PROCS && j != s ==> CalmSlot(old(procs)[j], procs[j])
    {
      hide SpacesOk, RendezvousOk, OpenRoots, CpusOk, Users, Owner, Dropped, SlotOk, Freed, CalmSlot, Left;
      NoZombies(procs, {});
      ghost var before := procs;
      var busy := DropMm(s, {});
      DroppedSelf(before, procs, s, busy);
      ghost var dropped := procs;
      ghost var qs := procs[s := procs[s].(state := if busy then Zombie else Unused)];
      assert {} - {s} == {};
      procs := procs[s := procs[s].(root := root, mm := s, members := 1)];
      granted := granted + multiset{root};
      Readopted(before, qs, procs, s, busy);
      Reseated(before, dropped, procs, s, busy, generation, log, current);
    }

    // -------------------------------------------------------------- IPC

    /** find_sender: the first slot after `me` that waits to send to it. */
    method FindSender(me: nat) returns (r: Option<nat>)
      requires |procs| == MAX_PROCS && me < MAX_PROCS
      ensures r.None? ==> forall i :: 0 <= i < MAX_PROCS && procs[i].state == SendBlocked ==> procs[i].sendTo != me
      ensures r.Some? ==> r.value < MAX_PROCS && procs[r.value].state == SendBlocked && procs[r.value].sendTo == me
      ensures r.Some? ==> forall i: nat :: i < MAX_PROCS && procs[i].state == SendBlocked && procs[i].sendTo == me ==>
                            Distance(SlotAt(me, 1), r.value) <= Distance(SlotAt(me, 1), i)
    {
      for k := 0 to MAX_PROCS
        invariant forall i: nat :: i < MAX_PROCS && procs[i].state == SendBlocked && procs[i].sendTo == me ==>
                    k <= Distance(SlotAt(me, 1), i)
      {
        var i := SlotAt(SlotAt(me, 1), k);
        if procs[i].state == SendBlocked && procs[i].sendTo == me { return Some(i); }
      }
      r := None;
    }

    /** ipc_send: hands `m` to a process that is receiving, or queues it; the caller waits for the reply. It
        fails for the dead and for the caller itself. */
    method IpcSend(c: nat, dstPid: nat, m: Message, msgPtr: nat, now: nat) returns (ok: bool)
      requires Valid() && c < |current| && current[c] != IDLE
      modifies this`procs, this`current, this`next, this`log
      ensures Valid() && |current| == |old(current)| && |procs| == |old(procs)| == MAX_PROCS && 0 <= old(current[c]) < MAX_PROCS
      ensures !ok ==> procs == old(procs) && log == old(log) && current == old(current)
      ensures !ok ==> forall d :: 0 <= d < MAX_PROCS && d != old(current[c]) && Live(procs[d]) ==> procs[d].pid != dstPid
      ensures ok ==> exists d: nat :: SendDone(old(procs), procs, old(log), log, old(current[c]), d, m) && old(procs)[d].pid == dstPid
                                        && OthersDispatched(old(procs), procs, {old(current[c]), d}, now)
    {
      hide SpacesOk, RendezvousOk, OpenRoots, CpusOk, Dispatched, RoundRobin, SendDone;
      NoZombies(procs, {});
      CurrentRuns(procs, current, c);
      var me := current[c];
      var target := SlotOf(dstPid);
      if target.None? { return false; }
      var dst := target.value;
      OnlyOne(procs, generation, log, dst);
      if dst == me { return false; }
      ghost var before := procs;
      procs := procs[me := procs[me].(msgPtr := msgPtr)];
      Harmless(before, {}, procs, generation, log, current);
      Deliver(c, me, dst, m, before);
      ghost var qs := procs;
      Dispatch(c, now);
      SendDispatched(before, qs, procs, old(log), log, me, dst, m, now);
      forall j: nat | j < |procs| && j !in {me, dst} ensures DispatchedSlot(before[j], procs[j], now) { DispatchedAt(qs, procs, j, now); }
      assert OthersDispatched(before, procs, {me, dst}, now);
      ok := true;
    }

    method Deliver(c: nat, me: nat, dst: nat, m: Message, ghost before: Table)
      requires Valid() && c < |current| && current[c] == me && me < |procs| == MAX_PROCS && procs[me].state == Running
      requires dst < MAX_PROCS && dst != me && Live(procs[dst])
      requires |before| == MAX_PROCS && procs[dst] == before[dst] && procs[me].pid == before[me].pid
      modifies this`procs, this`log
      ensures Ok({}) && CpusOk(procs, current[c := IDLE]) && |procs| == |old(procs)|
      ensures SendDone(before, procs, old(log), log, me, dst, m)
      ensures forall j: nat :: j < MAX_PROCS && j != me && j != dst ==> procs[j] == old(procs)[j]
    {
      hide SpacesOk, RendezvousOk, OpenRoots, CpusOk;
      if procs[dst].state == RecvBlocked {
        HandOver(c, me, dst, m);
      } else {
        QueueUp(c, me, dst, m);
      }
    }

    /** The receiver is there: it gets the message and the sender waits for its reply. */
    method HandOver(c: nat, me: nat, dst: nat, m: Message)
      requires Valid() && c < |current| && current[c] == me && me < |procs| == MAX_PROCS && procs[me].state == Running
      requires dst < MAX_PROCS && dst != me && procs[dst].state == RecvBlocked
      modifies this`procs, this`log
      ensures Ok({}) && CpusOk(procs, current[c := IDLE]) && |procs| == |old(procs)|
      ensures procs == old(procs)[dst := Handed(old(procs)[dst], m, me, old(procs)[me].pid)]
                                 [me := old(procs)[me].(state := ReplyBlocked, peer := dst)]
      ensures log == old(log) + [Sent(procs[me].pid, procs[dst].pid, m)] + [Taken(procs[me].pid, procs[dst].pid, m)]
    {
      hide SpacesOk, RendezvousOk, OpenRoots, CpusOk;
      var q := Handed(procs[dst], m, me, procs[me].pid);
      var p := procs[me].(state := ReplyBlocked, peer := dst);
      Vacate(procs, current, c, p);
      Hand(procs, generation, log, me, dst, m, p, q);
      log := log + [Sent(p.pid, q.pid, m)] + [Taken(p.pid, q.pid, m)];
      procs := procs[dst := q][me := p];
      SameSpacesTwo(old(procs), procs, me, dst);
      CpusFrame(old(procs)[me := p], procs, current[c := IDLE]);
    }

    /** The receiver is busy: the sender waits with the message. */
    method QueueUp(c: nat, me: nat, dst: nat, m: Message)
      requires Valid() && c < |current| && current[c] == me && me < |procs| == MAX_PROCS && procs[me].state == Running
      requires dst < MAX_PROCS && dst != me && Live(procs[dst]) && procs[dst].state != RecvBlocked
      modifies this`procs, this`log
      ensures Ok({}) && CpusOk(procs, current[c := IDLE]) && |procs| == |old(procs)|
      ensures procs == old(procs)[me := old(procs)[me].(state := SendBlocked, sendTo := dst, inbox := m)]
      ensures log == old(log) + [Sent(procs[me].pid, procs[dst].pid, m)]
    {
      hide SpacesOk, RendezvousOk, OpenRoots, CpusOk;
      var p := procs[me].(state := SendBlocked, sendTo := dst, inbox := m);
      Vacate(procs, current, c, p);
      Queue(procs, generation, log, me, dst, p);
      log := log + [Sent(p.pid, procs[dst].pid, m)];
      procs := procs[me := p];
      SameSpacesTwo(old(procs), procs, me, me);
    }

    /** accept_from: the current process `me` takes the message that `s` queued for it. */
    method AcceptFrom(me: nat, s: nat, msgPtr: nat)
      requires Valid() && me < |procs| == MAX_PROCS && procs[me].state == Running
      requires s < MAX_PROCS && procs[s].state == SendBlocked && procs[s].sendTo == me
      modifies this`procs, this`log
      ensures Valid() && |procs| == |old(procs)| && s != me
      ensures procs[me] == old(procs)[me].(inbox := old(procs)[s].inbox, ret := old(procs)[s].pid, peer := s,
                                           buf := if msgPtr != 0 then old(procs)[s].inbox else old(procs)[me].buf)
      ensures procs[s] == old(procs)[s].(state := ReplyBlocked, peer := me)
      ensures forall j :: 0 <= j < MAX_PROCS && j != me && j != s ==> procs[j] == old(procs)[j]
      ensures log == old(log) + [Taken(procs[s].pid, procs[me].pid, old(procs)[s].inbox)]
    {
      hide SpacesOk, RendezvousOk, OpenRoots, CpusOk;
      var p := procs[me].(inbox := procs[s].inbox, peer := s, ret := procs[s].pid,
                          buf := if msgPtr != 0 then procs[s].inbox else procs[me].buf);
      var q := procs[s].(state := ReplyBlocked, peer := me);
      Take(procs, generation, log, me, s, p, q);
      log := log + [Taken(q.pid, p.pid, procs[s].inbox)];
      procs := procs[me := p][s := q];
      SameSpacesTwo(old(procs), procs, me, s);
      CpusFrame(old(procs), procs, current);
    }

    /** ipc_recv: takes a queued message at once, or waits for one, until `deadline` if that is not 0. */
    method IpcRecv(c: nat, msgPtr: nat, deadline: nat, now: nat) returns (got: bool)
      requires Valid() && c < |current| && current[c] != IDLE
      modifies this`procs, this`current, this`next, this`log
      ensures Valid() && |current| == |old(current)| && |procs| == |old(procs)| == MAX_PROCS && 0 <= old(current[c]) < MAX_PROCS
      ensures got <==> exists s :: 0 <= s < MAX_PROCS && old(procs)[s].state == SendBlocked && old(procs)[s].sendTo == old(current[c])
      ensures got ==> current == old(current) && ReceivedOne(old(procs), procs, old(log), log, old(current[c]), msgPtr)
      ensures !got ==> log == old(log)
      ensures !got ==> var p := old(procs)[old(current[c])].(state := RecvBlocked, msgPtr := msgPtr, wakeAt := deadline);
                       Dispatched(old(procs)[old(current[c]) := p], procs, now)
    {
      hide SpacesOk, RendezvousOk, OpenRoots, CpusOk, Dispatched, RoundRobin;
      NoZombies(procs, {});
      CurrentRuns(procs, current, c);
      var me := current[c];
      var sender := FindSender(me);
      if sender.Some? {
        AcceptFrom(me, sender.value, msgPtr);
        assert ReceivedFrom(old(procs), procs, old(log), log, me, msgPtr, sender.value);
        return true;
      }
      var p := procs[me].(state := RecvBlocked, msgPtr := msgPtr, wakeAt := deadline);
      Vacate(procs, current, c, p);
      Await(procs, generation, log, me, p);
      procs := procs[me := p];
      SameSpacesTwo(old(procs), procs, me, me);
      Dispatch(c, now);
      got := false;
    }

    /** ipc_try_recv: takes a queued message, or returns -1. */
    method IpcTryRecv(c: nat, msgPtr: nat) returns (got: bool)
      requires Valid() && c < |current| && current[c] != IDLE
      modifies this`procs, this`log
      ensures Valid() && |procs| == |old(procs)| == MAX_PROCS && 0 <= current[c] < MAX_PROCS
      ensures got <==> exists s :: 0 <= s < MAX_PROCS && old(procs)[s].state == SendBlocked && old(procs)[s].sendTo == current[c]
      ensures got ==> ReceivedOne(old(procs), procs, old(log), log, current[c], msgPtr)
      ensures !got ==> procs == old(procs)[current[c] := old(procs)[current[c]].(ret := -1)] && log == old(log)
    {
      hide SpacesOk, RendezvousOk, OpenRoots, CpusOk;
      NoZombies(procs, {});
      CurrentRuns(procs, current, c);
      var me := current[c];
      var sender := FindSender(me);
      if sender.Some? {
        AcceptFrom(me, sender.value, msgPtr);
        assert ReceivedFrom(old(procs), procs, old(log), log, me, msgPtr, sender.value);
        return true;
      }
      procs := procs[me := procs[me].(ret := -1)];
      Harmless(old(procs), {}, procs, generation, log, current);
      got := false;
    }

    /** ipc_reply: ends the send of `toPid`, if it is the caller's to answer; otherwise nothing happens. */
    method IpcReply(c: nat, toPid: nat, m: Message)
      requires Valid() && c < |current| && current[c] != IDLE
      modifies this`procs, this`log
      ensures Valid() && |procs| == |old(procs)| == MAX_PROCS && 0 <= current[c] < MAX_PROCS
      ensures var me := current[c];
              (forall s :: 0 <= s < MAX_PROCS && old(procs)[s].state == ReplyBlocked && old(procs)[s].pid == toPid && old(procs)[s].peer == me ==>
                 procs == old(procs)[s := old(procs)[s].(ret := 0, state := Ready, buf := if old(procs)[s].msgPtr != 0 then m else old(procs)[s].buf)]
                 && log == old(log) + [Replied(toPid, procs[me].pid, m)])
              && ((forall s :: 0 <= s < MAX_PROCS && old(procs)[s].state == ReplyBlocked && old(procs)[s].pid == toPid ==>
                     old(procs)[s].peer != me) ==> procs == old(procs) && log == old(log))
    {
      hide SpacesOk, RendezvousOk, OpenRoots, CpusOk;
      NoZombies(procs, {});
      CurrentRuns(procs, current, c);
      var me := current[c];
      var target := SlotOf(toPid);
      if target.None? { return; }
      var to := target.value;
      OnlyOne(procs, generation, log, to);
      if procs[to].state == ReplyBlocked && procs[to].peer == me {
        var q := Written(procs[to], m).(ret := 0, state := Ready);
        Answer(procs, generation, log, me, to, m, q);
        log := log + [Replied(q.pid, procs[me].pid, m)];
        procs := procs[to := q];
        SameSpacesTwo(old(procs), procs, to, to);
        CpusFrame(old(procs), procs, current);
      }
    }
  }

  lemma {:induction false} NothingOpen(ps: Table, k: nat)
    requires k <= |ps| && forall i :: 0 <= i < |ps| ==> ps[i].state == Unused
    ensures Roots(ps, {}, k) == multiset{}
  {
    if k > 0 { NothingOpen(ps, k - 1); }
  }

  /** What drop_mm leaves: `s` on its own, one member less, and a zombie that lost its last guest free. */
  ghost predicate Dropped(ps: Table, qs: Table, s: nat, busy: bool)
  {
    && |ps| == |qs| && s < |ps| && ps[s].mm < |ps|
    && var m := ps[s].mm;
    && (forall j: nat :: j < |ps| && j != s && j != m ==> qs[j] == ps[j])
    && qs[s] == ps[s].(mm := s, members := qs[s].members, root := qs[s].root)
    && (busy <==> m == s && ps[s].members > 1)
    && qs[m].members == OneLess(ps[m].members)
    && var last := ps[m].members <= 1 && (m == s || ps[m].state == Zombie);
    && (m == s ==> qs[s].root == if last then 0 else ps[s].root)
    && (m != s ==> qs[s].root == 0
                   && qs[m] == if last then ps[m].(members := 0, root := 0, state := Unused)
                               else ps[m].(members := OneLess(ps[m].members)))
  }

  lemma DroppedHere(ps: Table, qs: Table, s: nat, busy: bool)
    requires s < |ps| && ps[s].mm < |ps|
    requires var m := ps[s].mm;
             var one := ps[m := ps[m].(members := OneLess(ps[m].members))];
             if m == s then
               (busy <==> one[s].members > 0) && qs == if busy then one else one[s := one[s].(root := 0)]
             else
               var two := one[s := one[s].(root := 0, mm := s)];
               !busy && qs == if two[m].state == Zombie && two[m].members == 0 then
                                two[m := two[m].(root := 0)][m := two[m].(root := 0, state := Unused)] else two
    ensures Dropped(ps, qs, s, busy)
  {
  }

  lemma DroppedLeft(ps: Table, x: set<nat>, qs: Table, s: nat, busy: bool)
    requires SpacesOk(ps, x) && s < MAX_PROCS && Uses(ps, x, s) && Dropped(ps, qs, s, busy)
    ensures Left(ps, x, qs[s := qs[s].(state := if busy then Zombie else Unused)], s)
  {
    UserFacts(ps, x, s);
    hide SpacesOk;
  }

  /** For the others, a departure changes nothing that concerns them. */
  lemma DroppedCalm(ps: Table, qs: Table, s: nat, busy: bool, j: nat)
    requires Dropped(ps, qs, s, busy) && j < |ps| && j != s
    ensures CalmSlot(ps[j], qs[j]) && SameWait(ps[j], qs[j]) && (Live(ps[j]) ==> qs[j].state == ps[j].state)
  {
  }

  /** What a user of a space may rely on. */
  lemma UserFacts(ps: Table, x: set<nat>, s: nat)
    requires SpacesOk(ps, x) && s < MAX_PROCS && Uses(ps, x, s)
    ensures |ps| == MAX_PROCS && ps[s].mm < MAX_PROCS && ps[s].root == ps[ps[s].mm].root && ps[ps[s].mm].mm == ps[s].mm
    ensures Owner(ps, x, ps[s].mm) && ps[ps[s].mm].members >= 1
    ensures ps[s].mm != s && ps[ps[s].mm].members <= 1 ==> ps[ps[s].mm].state == Zombie
  {
    var m := ps[s].mm;
    assert SlotOk(ps, x, s);
    assert SlotOk(ps, x, m);
    UsesIn(ps, x, s);
    if ps[m].members <= 1 { LastUser(ps, x, s); }
  }

  lemma LedgerMoves(granted: multiset<nat>, freed: multiset<nat>, after: multiset<nat>, gone: multiset<nat>, before: multiset<nat>)
    requires granted == freed + before && after + gone == before
    ensures granted == freed + gone + after
  {
  }

  lemma DieKeeps(ps: Table, x: set<nat>, generation: seq<nat>, log: seq<Event>, s: nat)
    requires SpacesOk(ps, x) && RendezvousOk(ps, generation, log, IDLE) && s < |ps| && Live(ps[s]) && AllDead(ps, x)
    ensures var qs := ps[s := Dead(ps[s])];
            && |ps| == MAX_PROCS && s !in x && SpacesOk(qs, x + {s}) && OpenRoots(qs, x + {s}) == OpenRoots(ps, x)
            && RendezvousOk(qs, generation, log + [Gone(ps[s].pid)], s) && AllDead(qs, x + {s})
  {
    NoZombies(ps, x);
    hide SpacesOk, RendezvousOk, OpenRoots;
    var qs := ps[s := Dead(ps[s])];
    forall i: nat | i < |ps| ensures SameSlot(ps, x, qs, x + {s}, i) { }
    SpacesFrame(ps, x, qs, x + {s});
    Die(ps, generation, log, s, Dead(ps[s]));
  }

  lemma WokenCalm(ps: Table, qs: Table)
    requires Woken(ps, qs)
    ensures Calm(ps, qs)
  {
    forall j: nat | j < |ps| ensures CalmSlot(ps[j], qs[j]) { assert WokenSlot(ps[j], qs[j]); }
  }

  /** Waking the parent suspended by vfork disturbs nothing. */
  lemma VforkKeeps(ps: Table, x: set<nat>, generation: seq<nat>, log: seq<Event>, current: seq<int>, qs: Table, s: nat)
    requires SpacesOk(ps, x) && RendezvousOk(ps, generation, log, IDLE) && CpusOk(ps, current) && s < |ps| == |qs|
    requires exists rs: Table :: |rs| == |ps| && Woken(ps, rs) && qs == rs[s := rs[s].(vforkParent := IDLE)]
    ensures SpacesOk(qs, x) && RendezvousOk(qs, generation, log, IDLE) && CpusOk(qs, current)
    ensures OpenRoots(qs, x) == OpenRoots(ps, x) && Calm(ps, qs)
    ensures forall j: nat :: j < |ps| ==> qs[j].members == ps[j].members
  {
    hide SpacesOk, RendezvousOk, CpusOk, OpenRoots, Woken;
    var rs: Table :| |rs| == |ps| && Woken(ps, rs) && qs == rs[s := rs[s].(vforkParent := IDLE)];
    WokenKeeps(ps, x, generation, log, current, rs);
    WokenCalm(ps, rs);
    Harmless(rs, x, qs, generation, log, current);
    forall j: nat | j < |ps| ensures CalmSlot(ps[j], qs[j]) && qs[j].members == ps[j].members {
      assert CalmSlot(ps[j], rs[j]);
      WokenAt(ps, rs, j);
    }
  }

  lemma CalmResumes(ps: Table, qs: Table, rs: Table, s: nat)
    requires Calm(ps, qs) && Calm(qs, rs) && Resumed(ps, qs, s)
    ensures Calm(ps, rs) && Resumed(ps, rs, s)
  {
    forall j: nat | j < |ps| ensures CalmSlot(ps[j], rs[j]) { assert CalmSlot(ps[j], qs[j]) && CalmSlot(qs[j], rs[j]); }
    forall j: nat | j < |ps| && j != s && Suspended(ps, s, j) ensures rs[j].state == Ready { assert CalmSlot(qs[j], rs[j]); }
  }

  lemma WokenAt(ps: Table, qs: Table, j: nat)
    requires Woken(ps, qs) && j < |ps|
    ensures |qs| == |ps| && qs[j].members == ps[j].members
  {
    assert WokenSlot(ps[j], qs[j]);
  }

  lemma StillPlaced(ps: Table, current: seq<int>, i: nat)
    requires CpusOk(ps, current) && i < |ps| && ps[i].state != Running
    ensures CpusOk(ps[i := Dead(ps[i])], current)
  {
    CpusFrame(ps, ps[i := Dead(ps[i])], current);
  }

  /** A running member of a fallen group is told so and runs on. */
  lemma FallenMember(ps: Table, qs: Table, l: nat, s: nat)
    requires Fallen(ps, qs, l) && s < |ps| && s != l && ps[s].state == Running && l < |ps|
    ensures forall j :: 0 <= j < |ps| == |qs| && ps[l].leader == l && Live(qs[j]) && qs[j].leader == l ==> qs[j].killed
  {
    forall j | 0 <= j < |ps| == |qs| && ps[l].leader == l && Live(qs[j]) && qs[j].leader == l ensures qs[j].killed {
      assert Survives(ps, qs, l, MAX_PROCS, j);
    }
  }

  lemma GroupEnded(ps: Table, qs: Table, rs: Table, l: nat, s: nat)
    requires |ps| == |qs| == MAX_PROCS && l < MAX_PROCS && s < MAX_PROCS && Finished(qs, rs, s)
    requires l == s ==> qs == ps
    requires l != s && ps[l].state == Running ==> qs == ps[l := ps[l].(killed := true)]
    requires l != s && Live(ps[l]) && ps[l].state != Running ==> Fallen(ps, qs, l)
    ensures if ps[l].state == Running && l != s then Live(rs[l]) ==> rs[l].killed
            else Live(ps[l]) && ps[l].leader == l ==>
                   forall j :: 0 <= j < MAX_PROCS && Live(rs[j]) && rs[j].leader == l ==> rs[j].killed
  {
    assert Outlives(qs, rs, s, l);
    forall j: nat | j < MAX_PROCS && Live(rs[j]) && rs[j].leader == l && Live(ps[l]) && ps[l].leader == l
                    && !(ps[l].state == Running && l != s)
      ensures rs[j].killed
    {
      assert Outlives(qs, rs, s, j);
      if l != s { assert Survives(ps, qs, l, MAX_PROCS, j); }
    }
  }

  lemma LeaderOk(ps: Table, generation: seq<nat>, log: seq<Event>, s: nat)
    requires RendezvousOk(ps, generation, log, IDLE) && s < |ps| && Live(ps[s])
    ensures |ps| == MAX_PROCS && ps[s].leader < MAX_PROCS
  {
    assert PidOk(ps, generation, s);
  }

  lemma OnlyOne(ps: Table, generation: seq<nat>, log: seq<Event>, s: nat)
    requires RendezvousOk(ps, generation, log, IDLE) && s < MAX_PROCS && Live(ps[s])
    ensures forall i :: 0 <= i < MAX_PROCS && Live(ps[i]) && ps[i].pid == ps[s].pid ==> i == s
  {
    forall i: nat | i < MAX_PROCS && Live(ps[i]) ensures ps[i].pid % MAX_PROCS == i { assert PidOk(ps, generation, i); }
  }

  /** Slot `i`, free before, holds a ready process with this pid, leader and space. */
  ghost predicate Newborn(ps: Table, qs: Table, i: nat, pid: nat, leader: nat, mm: nat, root: nat, linux: bool)
  {
    && i < |ps| == |qs| && ps[i].state == Unused && qs[i].state == Ready
    && qs[i].pid == pid && qs[i].leader == leader && qs[i].mm == mm && qs[i].root == root
    && (mm == i ==> qs[i].members == 1) && qs[i].linux == linux && !qs[i].killed && qs[i].vforkParent == IDLE
  }

  /** Besides slot `i`, only the count of space `m` changed, by one. */
  ghost predicate OneMoreMember(ps: Table, qs: Table, i: nat, m: nat)
  {
    |ps| == |qs| && forall j: nat :: j < |ps| && j != i ==>
      qs[j] == if j == m then ps[j].(members := ps[j].members + 1) else ps[j]
  }

  /** All slots but these are as before, or as a dispatch leaves them. */
  ghost predicate OthersDispatched(ps: Table, qs: Table, those: set<int>, now: nat)
  {
    |ps| == |qs| && forall j: nat :: j < |ps| && j !in those ==> DispatchedSlot(ps[j], qs[j], now)
  }

  /** Slot `i` is a vfork child that borrows the space of slot `s`, which waits; the owner of the space has one more
      member. */
  ghost predicate Borrower(ps: Table, qs: Table, i: nat, pid: nat, s: int, now: nat)
  {
    && i < |ps| == |qs| && 0 <= s < |ps| && ps[i].state == Unused && Live(qs[i]) && qs[i].pid == pid && qs[i].leader == i
    && qs[i].mm == ps[s].mm && qs[i].root == ps[s].root && qs[i].vforkParent == s && qs[s].state == VforkWait
    && qs[i].linux == ps[s].linux && OthersDispatched(ps, qs, {i, s, ps[s].mm}, now)
  }

  /** The table with a new process in slot `i`. */
  function Spawned(ps: Table, i: nat, p: Proc): Table
    requires i < |ps|
  {
    if p.mm < |ps| && p.mm != i then ps[i := p][p.mm := ps[p.mm].(members := ps[p.mm].members + 1)] else ps[i := p]
  }

  function Fresh(pid: nat, leader: nat, mm: nat, members: nat, root: nat, linux: bool): Proc
  {
    Proc(pid, Ready, leader, mm, members, root, IDLE, Empty(), 0, Empty(), 0, 0, 0, 0, false, linux)
  }

  lemma InstallKeeps(ps: Table, generation: seq<nat>, log: seq<Event>, current: seq<int>, i: nat, p: Proc)
    requires SpacesOk(ps, {}) && RendezvousOk(ps, generation, log, IDLE) && CpusOk(ps, current)
    requires i < |ps| == |generation| == MAX_PROCS && ps[i].state == Unused
    requires p.pid == i + MAX_PROCS * generation[i] && p.state == Ready && p.leader < MAX_PROCS
    requires if p.mm == i then p.members == 1 else Owner(ps, {}, p.mm) && p.root == ps[p.mm].root
    ensures var qs := Spawned(ps, i, p);
            SpacesOk(qs, {}) && RendezvousOk(qs, generation[i := generation[i] + 1], log, IDLE) && CpusOk(qs, current)
            && OpenRoots(qs, {}) == OpenRoots(ps, {}) + if p.mm == i then multiset{p.root} else multiset{}
  {
    var qs, m := Spawned(ps, i, p), p.mm;
    NoUsers(ps, {}, i);
    assert Joined(ps, {}, qs, i, m);
    hide SpacesOk, RendezvousOk, CpusOk, OpenRoots, Joined, Users;
    Join(ps, {}, qs, i, m);
    Born(ps, generation, log, i, p);
    forall j: nat | j < |qs| ensures SameWait(ps[i := p][j], qs[j]) { }
    WaitsFrame(ps[i := p], qs, generation[i := generation[i] + 1], log);
    CpusFrame(ps, qs, current);
  }

  lemma Generations(ps: Table, generation: seq<nat>, log: seq<Event>)
    requires RendezvousOk(ps, generation, log, IDLE)
    ensures |generation| == MAX_PROCS
  {
  }

  /** The threads of `s` below `k` are dead or told so, and `s` itself runs on. */
  ghost predicate SiblingsDown(ps: Table, qs: Table, s: nat, k: nat)
  {
    && s < |ps| == |qs| && qs[s].state == Running && qs[s].pid == ps[s].pid && qs[s].leader == ps[s].leader
    && qs[s].mm == ps[s].mm && qs[s].root == ps[s].root
    && forall j: nat :: j < k && j < |qs| && j != s && Live(qs[j]) && qs[j].leader == s ==> qs[j].killed
  }

  lemma OneDown(ps: Table, qs: Table, rs: Table, s: nat, i: nat)
    requires SiblingsDown(ps, qs, s, i) && Fallen(qs, rs, i) && i < |qs| && qs[i].leader == s && i != s
    ensures SiblingsDown(ps, rs, s, i + 1)
  {
    assert Survives(qs, rs, i, MAX_PROCS, s) && Survives(qs, rs, i, MAX_PROCS, i);
    forall j: nat | j < i + 1 && j < |rs| && j != s && Live(rs[j]) && rs[j].leader == s ensures rs[j].killed {
      assert Survives(qs, rs, i, MAX_PROCS, j);
    }
  }

  lemma CalmRunner(ps: Table, qs: Table, s: nat)
    requires Calm(ps, qs) && s < |ps| && ps[s].state == Running
    ensures |qs| == |ps| && qs[s].state == Running && CalmSlot(ps[s], qs[s])
    ensures qs[s].pid == ps[s].pid && qs[s].leader == ps[s].leader && qs[s].mm == ps[s].mm
  {
    assert CalmSlot(ps[s], qs[s]);
  }

  /** More users than the owner: there is another one. */
  lemma OtherUser(ps: Table, s: nat)
    requires SpacesOk(ps, {}) && s < |ps| && Live(ps[s]) && ps[s].mm == s && ps[s].members > 1
    ensures exists j :: 0 <= j < |ps| && j != s && Live(ps[j]) && ps[j].mm == s
  {
    assert SlotOk(ps, {}, s);
    if Users(ps, {}, s) <= {s} { Subset(Users(ps, {}, s), {s}); }
    var j :| j in Users(ps, {}, s) && j != s;
  }

  lemma DispatchedAt(ps: Table, qs: Table, j: nat, now: nat)
    requires Dispatched(ps, qs, now) && j < |ps|
    ensures |qs| == |ps| && DispatchedSlot(ps[j], qs[j], now)
  {
  }

  /** A change of space of the running slot `s` disturbs neither IPC nor the scheduler nor anybody else. */
  lemma Reseated(before: Table, dropped: Table, rs: Table, s: nat, busy: bool, generation: seq<nat>, log: seq<Event>,
                 current: seq<int>)
    requires RendezvousOk(before, generation, log, IDLE) && CpusOk(before, current)
    requires s < |before| == |dropped| == |rs| == MAX_PROCS
    requires Dropped(before, dropped, s, busy) && before[s].state == Running
    requires rs == dropped[s := dropped[s].(root := rs[s].root, mm := rs[s].mm, members := rs[s].members)]
    ensures RendezvousOk(rs, generation, log, IDLE) && CpusOk(rs, current)
    ensures forall j: nat :: j < |rs| && j != s ==> CalmSlot(before[j], rs[j])
  {
    hide RendezvousOk, CpusOk, Dropped;
    DroppedSelf(before, dropped, s, busy);
    forall j: nat | j < |rs|
      ensures SameWait(before[j], rs[j]) && (rs[j].state == Running <==> before[j].state == Running)
      ensures j != s ==> CalmSlot(before[j], rs[j])
    {
      if j != s { DroppedCalm(before, dropped, s, busy, j); }
    }
    WaitsFrame(before, rs, generation, log);
    CpusFrame(before, rs, current);
  }

  lemma CalmTwice(ps: Table, qs: Table, rs: Table, s: nat)
    requires Calm(ps, qs) && |rs| == |qs| && s < |ps|
    requires forall j: nat :: j < |qs| && j != s ==> CalmSlot(qs[j], rs[j])
    ensures |ps| == |rs| && forall j: nat :: j < |ps| && j != s ==> CalmSlot(ps[j], rs[j])
    ensures CalmSlot(ps[s], qs[s])
  {
    forall j: nat | j < |ps| ensures CalmSlot(ps[j], qs[j]) { }
  }

  lemma DroppedSelf(ps: Table, qs: Table, s: nat, busy: bool)
    requires Dropped(ps, qs, s, busy)
    ensures |qs| == |ps| && s < |ps|
    ensures qs[s] == ps[s].(mm := s, members := qs[s].members, root := qs[s].root)
    ensures busy <==> ps[s].mm == s && ps[s].members > 1
  {
  }

  lemma Readopted(ps: Table, qs: Table, rs: Table, s: nat, busy: bool)
    requires SpacesOk(qs, {}) && s < |ps| == |qs| == |rs| && qs[s].state == Unused && Live(rs[s])
    requires rs == qs[s := rs[s]] && rs[s].mm == s && rs[s].members == 1
    ensures SpacesOk(rs, {}) && OpenRoots(rs, {}) == OpenRoots(qs, {}) + multiset{rs[s].root}
    ensures Users(rs, {}, s) == {s}
  {
    assert Joined(qs, {}, rs, s, s);
    Join(qs, {}, rs, s, s);
    assert SlotOk(rs, {}, s);
    LastUser(rs, {}, s);
  }

  /** The receiver after a message was handed to it. */
  function Handed(p: Proc, m: Message, sender: nat, senderPid: nat): Proc
  {
    Written(p.(wakeAt := 0, inbox := m, peer := sender), m).(ret := senderPid, state := Ready)
  }

  /** The send of `me` is under way: handed to `dst`, exactly as it is, or queued for it. */
  ghost predicate SendDone(ps: Table, qs: Table, log: seq<Event>, log': seq<Event>, me: int, dst: nat, m: Message)
  {
    && 0 <= me < |ps| == |qs| && dst < |ps| && dst != me && Live(ps[dst])
    && qs[me].pid == ps[me].pid
    && if ps[dst].state == RecvBlocked then
         && qs[me].state == ReplyBlocked && qs[me].peer == dst
         && qs[dst].state in {Ready, Running} && qs[dst].inbox == m && qs[dst].ret == ps[me].pid
         && qs[dst].buf == (if ps[dst].msgPtr != 0 then m else ps[dst].buf) && qs[dst].peer == me && qs[dst].wakeAt == 0
         && log' == log + [Sent(ps[me].pid, ps[dst].pid, m)] + [Taken(ps[me].pid, ps[dst].pid, m)]
       else
         && qs[me].state == SendBlocked && qs[me].sendTo == dst && qs[me].inbox == m
         && log' == log + [Sent(ps[me].pid, ps[dst].pid, m)]
  }

  lemma SendDispatched(ps: Table, qs: Table, rs: Table, log: seq<Event>, log': seq<Event>, me: nat, dst: nat, m: Message, now: nat)
    requires SendDone(ps, qs, log, log', me, dst, m) && Dispatched(qs, rs, now)
    ensures SendDone(ps, rs, log, log', me, dst, m)
  {
    assert DispatchedSlot(qs[me], rs[me], now) && DispatchedSlot(qs[dst], rs[dst], now);
  }

  /** `me` took the message that `s` queued for it: exactly that message, and only once. */
  ghost predicate ReceivedFrom(ps: Table, qs: Table, log: seq<Event>, log': seq<Event>, me: nat, msgPtr: nat, s: nat)
  {
    && me < |ps| == |qs| && s < |ps| && s != me && ps[s].state == SendBlocked && ps[s].sendTo == me
    && qs[s] == ps[s].(state := ReplyBlocked, peer := me)
    && qs[me] == ps[me].(inbox := ps[s].inbox, ret := ps[s].pid, peer := s, buf := if msgPtr != 0 then ps[s].inbox else ps[me].buf)
    && log' == log + [Taken(ps[s].pid, qs[me].pid, ps[s].inbox)]
    && forall j :: 0 <= j < |ps| && j != me && j != s ==> qs[j] == ps[j]
  }

  ghost predicate ReceivedOne(ps: Table, qs: Table, log: seq<Event>, log': seq<Event>, me: int, msgPtr: nat)
  {
    me >= 0 && exists s: nat :: ReceivedFrom(ps, qs, log, log', me, msgPtr, s)
  }

  /** Two live slots changed, but not in what concerns their spaces. */
  lemma SameSpacesTwo(ps: Table, qs: Table, a: nat, b: nat)
    requires SpacesOk(ps, {}) && |ps| == |qs| && a < |ps| && b < |ps|
    requires forall i: nat :: i < |ps| && i != a && i != b ==> qs[i] == ps[i]
    requires forall i: nat :: i in {a, b} ==> i < |ps| && Live(ps[i]) && Live(qs[i]) && qs[i].mm == ps[i].mm
                                              && qs[i].members == ps[i].members && qs[i].root == ps[i].root
    ensures SpacesOk(qs, {}) && OpenRoots(qs, {}) == OpenRoots(ps, {})
  {
    forall i: nat | i < |ps| ensures SameSlot(ps, {}, qs, {}, i) {
      if i == a || i == b { assert i in {a, b}; }
    }
    hide SpacesOk, OpenRoots;
    SpacesFrame(ps, {}, qs, {});
  }

  lemma CurrentRuns(ps: Table, current: seq<int>, c: nat)
    requires CpusOk(ps, current) && c < |current| && current[c] != IDLE
    ensures 0 <= current[c] < |ps| && ps[current[c]].state == Running
    ensures forall d :: 0 <= d < |current| && d != c ==> current[d] != current[c]
  {
    assert CpuOk(ps, current[c]);
  }

  /** Changes to fields that no invariant looks at. */
  lemma Harmless(ps: Table, x: set<nat>, qs: Table, generation: seq<nat>, log: seq<Event>, current: seq<int>)
    requires SpacesOk(ps, x) && RendezvousOk(ps, generation, log, IDLE) && CpusOk(ps, current) && |ps| == |qs|
    requires forall i :: 0 <= i < |ps| ==> qs[i] == ps[i].(wakeAt := qs[i].wakeAt, ret := qs[i].ret, buf := qs[i].buf,
                                                           msgPtr := qs[i].msgPtr, vforkParent := qs[i].vforkParent, killed := qs[i].killed)
    ensures SpacesOk(qs, x) && RendezvousOk(qs, generation, log, IDLE) && CpusOk(qs, current)
    ensures OpenRoots(qs, x) == OpenRoots(ps, x)
  {
    NoZombies(ps, x);
    hide SpacesOk, RendezvousOk, CpusOk, OpenRoots;
    forall i: nat | i < |ps| ensures SameSlot(ps, x, qs, x, i) && SameWait(ps[i], qs[i]) { }
    SpacesFrame(ps, x, qs, x);
    WaitsFrame(ps, qs, generation, log);
    CpusFrame(ps, qs, current);
  }

  /** The chosen slot starts to run. */
  lemma PickUp(ps: Table, generation: seq<nat>, log: seq<Event>, current: seq<int>, c: nat, chosen: int, from: nat, to: nat)
    requires c < |current| && SpacesOk(ps, {}) && RendezvousOk(ps, generation, log, IDLE) && CpusOk(ps, current[c := IDLE])
    requires |ps| == MAX_PROCS && from < MAX_PROCS && chosen != IDLE && RoundRobin(ps, from, chosen, to)
    ensures 0 <= chosen < MAX_PROCS
    ensures var qs := ps[chosen := ps[chosen].(state := Running)];
            SpacesOk(qs, {}) && RendezvousOk(qs, generation, log, IDLE) && CpusOk(qs, current[c := chosen])
            && OpenRoots(qs, {}) == OpenRoots(ps, {})
  {
    var p := ps[chosen].(state := Running);
    var qs := ps[chosen := p];
    Occupy(ps, current[c := IDLE], c, chosen, p);
    assert current[c := IDLE][c := chosen] == current[c := chosen];
    hide SpacesOk, RendezvousOk, CpusOk, OpenRoots;
    forall i: nat | i < |ps| ensures SameSlot(ps, {}, qs, {}, i) && SameWait(ps[i], qs[i]) { }
    SpacesFrame(ps, {}, qs, {});
    WaitsFrame(ps, qs, generation, log);
  }
}
