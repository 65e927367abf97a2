/** Which process runs where, and how long a ready one may wait (kernel/src/process.rs:520-561). */
module Dispatching {
  import opened ProcessTable

  /** Each running slot is current on exactly one CPU and each busy CPU runs its current slot. */
  ghost predicate CpusOk(ps: Table, current: seq<int>)
  {
    && (forall c :: 0 <= c < |current| ==> CpuOk(ps, current[c]))
    && (forall c, d :: 0 <= c < d < |current| && current[c] == current[d] ==> current[c] == IDLE)
    && (forall i: nat :: i < |ps| && ps[i].state == Running ==> OnSomeCpu(current, i))
  }

  ghost predicate CpuOk(ps: Table, s: int)
  {
    s == IDLE || (0 <= s < |ps| && ps[s].state == Running)
  }

  ghost predicate OnSomeCpu(current: seq<int>, i: nat)
  {
    exists c :: 0 <= c < |current| && current[c] == i
  }

  lemma RunsOnce(ps: Table, current: seq<int>, i: nat)
    requires CpusOk(ps, current) && i < |ps|
    ensures ps[i].state == Running <==> exists c :: 0 <= c < |current| && current[c] == i
    ensures forall c, d :: 0 <= c < |current| && 0 <= d < |current| && current[c] == current[d] == i ==> c == d
  {
    forall c | 0 <= c < |current| && current[c] == i ensures ps[i].state == Running { assert CpuOk(ps, current[c]); }
    assert ps[i].state == Running ==> OnSomeCpu(current, i);
  }

  /** CPU `c` puts down what it was running. */
  lemma Vacate(ps: Table, current: seq<int>, c: nat, p: Proc)
    requires CpusOk(ps, current) && c < |current| && current[c] != IDLE && p.state != Running
    ensures 0 <= current[c] < |ps| && CpusOk(ps[current[c] := p], current[c := IDLE])
  {
    assert CpuOk(ps, current[c]);
    var s := current[c];
    var qs, after := ps[s := p], current[c := IDLE];
    forall i: nat | i < |qs| && qs[i].state == Running ensures OnSomeCpu(after, i) {
      assert OnSomeCpu(current, i);
      var d :| 0 <= d < |current| && current[d] == i;
      assert after[d] == i;
    }
    forall d | 0 <= d < |after| ensures CpuOk(qs, after[d]) { assert CpuOk(ps, current[d]); }
  }

  /** The idle CPU `c` picks up slot `i`, which no CPU runs. */
  lemma Occupy(ps: Table, current: seq<int>, c: nat, i: nat, p: Proc)
    requires CpusOk(ps, current) && c < |current| && current[c] == IDLE && i < |ps| && ps[i].state != Running
    requires p.state == Running
    ensures CpusOk(ps[i := p], current[c := i])
  {
    var qs, after := ps[i := p], current[c := i];
    forall d | 0 <= d < |current| ensures current[d] != i && CpuOk(qs, after[d]) { assert CpuOk(ps, current[d]); }
    forall j: nat | j < |qs| && qs[j].state == Running ensures OnSomeCpu(after, j) {
      if j == i {
        assert after[c] == i;
      } else {
        assert OnSomeCpu(current, j);
        var d :| 0 <= d < |current| && current[d] == j;
        assert after[d] == j;
      }
    }
  }

  /** Slots that do not run may change as they like, as long as they do not run after. */
  lemma CpusFrame(ps: Table, qs: Table, current: seq<int>)
    requires CpusOk(ps, current) && |qs| == |ps|
    requires forall i: nat :: i < |ps| ==> (qs[i].state == Running <==> ps[i].state == Running)
    ensures CpusOk(qs, current)
  {
    forall c | 0 <= c < |current| ensures CpuOk(qs, current[c]) { assert CpuOk(ps, current[c]); }
  }

  // ---------------------------------------------------------------- round robin

  /** Slots between the round-robin position and slot `i`. */
  function Distance(next: nat, i: nat): nat
    requires next < MAX_PROCS && i < MAX_PROCS
  {
    if i >= next then i - next else i + MAX_PROCS - next
  }

  function SlotAt(next: nat, k: nat): (i: nat)
    requires next < MAX_PROCS
    ensures i < MAX_PROCS
    ensures k < MAX_PROCS ==> Distance(next, i) == k
  {
    (next + k) % MAX_PROCS
  }

  /** The nearest ready slot is chosen and the position moves past it; with none ready, nothing moves. */
  ghost predicate RoundRobin(ps: Table, next: nat, chosen: int, next': nat)
    requires |ps| == MAX_PROCS && next < MAX_PROCS
  {
    if chosen == IDLE then next' == next && forall i: nat :: i < MAX_PROCS ==> ps[i].state != Ready
    else
      && 0 <= chosen < MAX_PROCS && ps[chosen].state == Ready && next' == SlotAt(chosen, 1)
      && forall i: nat :: i < MAX_PROCS && ps[i].state == Ready ==> Distance(next, chosen) <= Distance(next, i)
  }

  /** Every dispatch brings a slot that stays ready strictly closer to its turn. */
  lemma Closer(ps: Table, next: nat, chosen: int, next': nat, i: nat)
    requires |ps| == MAX_PROCS && next < MAX_PROCS && i < MAX_PROCS && RoundRobin(ps, next, chosen, next')
    requires ps[i].state == Ready && chosen != i
    ensures next' < MAX_PROCS && Distance(next', i) < Distance(next, i)
  {
  }

  /** One scheduling decision: the table when the choice is made, the position, and the choice. */
  datatype Decision = Decision(ps: Table, next: nat, chosen: int)

  /** A history of decisions by whichever CPUs; between them anything may happen but to the position. */
  ghost predicate History(h: seq<Decision>)
  {
    && (forall k :: 0 <= k < |h| ==> |h[k].ps| == MAX_PROCS && h[k].next < MAX_PROCS)
    && (forall k :: 0 <= k < |h| - 1 ==> RoundRobin(h[k].ps, h[k].next, h[k].chosen, h[k + 1].next))
  }

  lemma {:induction false} DistanceFalls(h: seq<Decision>, i: nat, k: nat)
    requires History(h) && i < MAX_PROCS && k < |h|
    requires forall j :: 0 <= j < k ==> h[j].ps[i].state == Ready && h[j].chosen != i
    ensures Distance(h[k].next, i) + k <= Distance(h[0].next, i)
  {
    if k > 0 {
      DistanceFalls(h, i, k - 1);
      assert RoundRobin(h[k - 1].ps, h[k - 1].next, h[k - 1].chosen, h[k].next);
      Closer(h[k - 1].ps, h[k - 1].next, h[k - 1].chosen, h[k].next, i);
    }
  }

  /** A slot that stays ready is chosen within MAX_PROCS decisions. */
  lemma BoundedWait(h: seq<Decision>, i: nat)
    requires History(h) && i < MAX_PROCS && |h| > MAX_PROCS
    requires forall k :: 0 <= k < MAX_PROCS ==> h[k].ps[i].state == Ready
    ensures exists k :: 0 <= k < MAX_PROCS && h[k].chosen == i
  {
    if forall k :: 0 <= k < MAX_PROCS ==> h[k].chosen != i {
      DistanceFalls(h, i, MAX_PROCS);
    }
  }

  /** The bound is reached: with every slot ready, the one just passed waits for all the others. */
  lemma BoundReached(h: seq<Decision>, i: nat)
    requires History(h) && i < MAX_PROCS && |h| > MAX_PROCS && h[0].next == SlotAt(i, 1)
    requires forall k, j: nat :: 0 <= k < |h| && j < MAX_PROCS ==> h[k].ps[j].state == Ready
    ensures forall k :: 0 <= k < MAX_PROCS - 1 ==> h[k].chosen != i
  {
    forall k | 0 <= k < MAX_PROCS - 1 ensures h[k].chosen != i { EachInTurn(h, i, k); }
  }

  lemma {:induction false} EachInTurn(h: seq<Decision>, i: nat, k: nat)
    requires History(h) && i < MAX_PROCS && |h| > MAX_PROCS && h[0].next == SlotAt(i, 1) && k < MAX_PROCS
    requires forall k, j: nat :: 0 <= k < |h| && j < MAX_PROCS ==> h[k].ps[j].state == Ready
    ensures h[k].next == SlotAt(i, k + 1) && h[k].chosen == h[k].next
  {
    if k > 0 {
      EachInTurn(h, i, k - 1);
      assert RoundRobin(h[k - 1].ps, h[k - 1].next, h[k - 1].chosen, h[k].next);
    }
    assert RoundRobin(h[k].ps, h[k].next, h[k].chosen, h[k + 1].next);
    assert h[k].ps[h[k].next].state == Ready && Distance(h[k].next, h[k].next) == 0;
  }
}
