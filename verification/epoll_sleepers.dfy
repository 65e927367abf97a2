/** Sleeping on an epoll set, which other threads may change meanwhile (kernel/src/file.rs:1788-1875): what a scan
    listens to, and which changes of the set lose a wakeup. */
module EpollSleepers {
  import opened Basics
  import opened WaitConditions
  import opened Wakeups

  const EPOLL_MAX: nat := 256
  const ENOENT: nat := 2
  const EEXIST: nat := 17
  const ENOSPC: nat := 28

  /** One descriptor of the set: its number, what it refers to, the conditions that its event mask reports, whether it
      is to be reported once, and whether it has been and is switched off. */
  datatype Item = Item(num: nat, fd: Watched, wants: set<Cond>, once: bool, off: bool)

  type Items = seq<Item>

  ghost predicate ItemOk(o: Objects, it: Item)
  {
    forall c :: c in it.wants ==> Readies(it.fd, c) && Known(o, c)
  }

  ghost predicate ItemsOk(o: Objects, items: Items)
  {
    forall k :: 0 <= k < |items| ==> ItemOk(o, items[k])
  }

  ghost predicate Ready(o: Objects, it: Item)
    requires WellFormed(o)
  {
    exists c :: c in it.wants && Holds(o, c)
  }

  /** What a process that waits on the set waits for. */
  function Armed(items: Items): set<Cond>
  {
    if items == [] then {} else (if items[0].off then {} else items[0].wants) + Armed(items[1..])
  }

  /** The buckets a scan listens to when it finds nothing ready. */
  function ScanMask(items: Items): set<nat>
  {
    if items == [] then {} else (if items[0].off then {} else WaitKeys(items[0].fd)) + ScanMask(items[1..])
  }

  lemma {:induction false} ArmedItem(items: Items, c: Cond)
    ensures c in Armed(items) <==> exists k :: 0 <= k < |items| && !items[k].off && c in items[k].wants
  {
    if items != [] {
      ArmedItem(items[1..], c);
      if k :| 0 <= k < |items| && !items[k].off && c in items[k].wants {
        if k > 0 { assert items[1..][k - 1] == items[k]; }
      }
      if k :| 0 <= k < |items[1..]| && !items[1..][k].off && c in items[1..][k].wants {
        assert items[k + 1] == items[1..][k];
      }
    }
  }

  /** Whatever can make a descriptor ready is announced in one of its buckets. */
  lemma KeysHeard(f: Watched, c: Cond, mask: set<nat>)
    requires Readies(f, c) && WaitKeys(f) <= mask
    ensures Hears(OnMask(mask), KeyOf(c))
  {
    hide Bucket;
  }

  /** The mask of a scan hears everything that the armed items wait for. */
  lemma {:induction false} ScanHears(o: Objects, items: Items, c: Cond)
    requires ItemsOk(o, items) && c in Armed(items)
    ensures Hears(OnMask(ScanMask(items)), KeyOf(c)) && Known(o, c)
  {
    hide Bucket, Readies, Hears, WaitKeys, KeyOf, Known;
    assert ItemOk(o, items[0]);
    if !items[0].off && c in items[0].wants {
      KeysHeard(items[0].fd, c, ScanMask(items));
    } else {
      assert forall k :: 0 <= k < |items[1..]| ==> items[1..][k] == items[k + 1];
      ScanHears(o, items[1..], c);
      WiderHears(ScanMask(items[1..]), ScanMask(items), KeyOf(c));
    }
  }

  lemma WiderHears(a: set<nat>, b: set<nat>, k: Key)
    requires a <= b && Hears(OnMask(a), k)
    ensures Hears(OnMask(b), k)
  {
  }

  /** And it hears nothing else: each of its buckets is one that some armed item may be announced in. */
  lemma {:induction false} ScanMaskItem(items: Items, b: nat)
    ensures b in ScanMask(items) <==> exists k :: 0 <= k < |items| && !items[k].off && b in WaitKeys(items[k].fd)
  {
    hide WaitKeys;
    if items != [] {
      ScanMaskItem(items[1..], b);
      if k :| 0 <= k < |items| && !items[k].off && b in WaitKeys(items[k].fd) {
        if k > 0 { assert items[1..][k - 1] == items[k]; }
      }
      if k :| 0 <= k < |items[1..]| && !items[1..][k].off && b in WaitKeys(items[1..][k].fd) {
        assert items[k + 1] == items[1..][k];
      }
    }
  }

  /** The items below `k` that are ready and switched on, in order. */
  ghost predicate HitsBelow(items: Items, ready: seq<bool>, hits: seq<nat>, k: nat)
    requires |ready| == |items| && k <= |items|
  {
    && (forall j :: 0 <= j < |hits| ==> hits[j] < k && ready[hits[j]] && !items[hits[j]].off)
    && (forall i, j :: 0 <= i < j < |hits| ==> hits[i] < hits[j])
    && (forall j: nat :: j < k && ready[j] && !items[j].off ==> j in hits)
  }

  /** The one-shot items among those reported are switched off, and nothing else changes. */
  ghost predicate SwitchedOff(items: Items, after: Items, hits: seq<nat>)
  {
    && |after| == |items|
    && forall k: nat :: k < |items| ==> after[k] == if k in hits && items[k].once then items[k].(off := true) else items[k]
  }

  lemma NextHit(items: Items, ready: seq<bool>, after: Items, hits: seq<nat>, k: nat)
    requires |ready| == |items| && k < |items| && HitsBelow(items, ready, hits, k) && SwitchedOff(items, after, hits)
    requires ready[k] && !items[k].off
    ensures HitsBelow(items, ready, hits + [k], k + 1)
    ensures SwitchedOff(items, if items[k].once then after[k := items[k].(off := true)] else after, hits + [k])
  {
    assert forall j :: j in hits + [k] <==> j in hits || j == k;
  }

  /** epoll_scan (kernel/src/file.rs:1838-1875): reports the ready items that are switched on, in order, the first `max`
      of them, and switches off those of them that are to be reported once; with none to report, it says which buckets
      to listen to. */
  method EpollScan(items: Items, ready: seq<bool>, max: nat) returns (hits: seq<nat>, mask: set<nat>, after: Items)
    requires |ready| == |items| && max > 0
    ensures |hits| <= max && exists k :: 0 <= k <= |items| && HitsBelow(items, ready, hits, k) && (|hits| < max ==> k == |items|)
    ensures SwitchedOff(items, after, hits)
    ensures hits == [] ==> mask == ScanMask(items) && after == items
  {
    hide WaitKeys, HitsBelow, SwitchedOff;
    hits, mask, after := [], {}, items;
    NoHits(items, ready);
    assert items[0..] == items;
    for k := 0 to |items|
      invariant |hits| <= max && |after| == |items| && HitsBelow(items, ready, hits, k) && SwitchedOff(items, after, hits)
      invariant hits == [] ==> mask + ScanMask(items[k..]) == ScanMask(items) && after == items
    {
      if |hits| >= max { return; }
      assert items[k..][0] == items[k] && items[k..][1..] == items[k + 1..];
      if items[k].off || !ready[k] {
        NoHit(items, ready, hits, k);
        if !items[k].off && hits == [] { mask := mask + WaitKeys(items[k].fd); }
        continue;
      }
      NextHit(items, ready, after, hits, k);
      if items[k].once { after := after[k := items[k].(off := true)]; }
      hits := hits + [k];
    }
    assert items[|items|..] == [];
  }

  lemma NoHits(items: Items, ready: seq<bool>)
    requires |ready| == |items|
    ensures HitsBelow(items, ready, [], 0) && SwitchedOff(items, items, [])
  {
  }

  lemma NoHit(items: Items, ready: seq<bool>, hits: seq<nat>, k: nat)
    requires |ready| == |items| && k < |items| && HitsBelow(items, ready, hits, k) && (items[k].off || !ready[k])
    ensures HitsBelow(items, ready, hits, k + 1)
  {
  }

  // ---------------------------------------------------------------- epoll_ctl

  datatype CtlOp = Add | Del | Mod

  /** Position of a descriptor in the set. */
  function Position(items: Items, num: nat): (k: nat)
    ensures k <= |items| && (k < |items| ==> items[k].num == num)
    ensures forall j :: 0 <= j < k ==> items[j].num != num
  {
    if items == [] || items[0].num == num then 0 else 1 + Position(items[1..], num)
  }

  /** epoll_ctl (kernel/src/file.rs:1811-1833) */
  method EpollCtl(items: Items, op: CtlOp, it: Item) returns (r: Result<Items, nat>)
    requires !it.off
    ensures var k, n := Position(items, it.num), |items|;
            match op
            case Add => r == if k < n then Err(EEXIST) else if n == EPOLL_MAX then Err(ENOSPC) else Ok(items + [it])
            case Del => r == if k == n then Err(ENOENT) else Ok(items[k := items[n - 1]][..n - 1])
            case Mod => r == if k == n then Err(ENOENT) else Ok(items[k := it])
  {
    var k := 0;
    while k < |items| && items[k].num != it.num
      invariant k <= |items| && Position(items, it.num) == k + Position(items[k..], it.num)
    {
      assert items[k..][1..] == items[k + 1..] && items[k..][0] == items[k];
      k := k + 1;
    }
    assert k < |items| ==> items[k..][0] == items[k];
    match op {
      case Add => return if k < |items| then Err(EEXIST) else if |items| == EPOLL_MAX then Err(ENOSPC) else Ok(items + [it]);
      case Del => return if k == |items| then Err(ENOENT) else Ok(items[k := items[|items| - 1]][..|items| - 1]);
      case Mod => return if k == |items| then Err(ENOENT) else Ok(items[k := it]);
    }
  }

  /** The set changed by one item, which is new or armed again. */
  ghost predicate Gained(before: Items, after: Items, it: Item)
  {
    it.wants <= Armed(after) && Armed(after) <= Armed(before) + it.wants
  }

  lemma AddGains(items: Items, it: Item)
    requires !it.off
    ensures Gained(items, items + [it], it)
  {
    var after := items + [it];
    forall c ensures c in Armed(after) <==> c in Armed(items) || c in it.wants {
      ArmedItem(items, c);
      ArmedItem(after, c);
      assert forall k :: 0 <= k < |items| ==> after[k] == items[k];
      assert after[|items|] == it;
    }
  }

  lemma ModGains(items: Items, k: nat, it: Item)
    requires k < |items| && !it.off
    ensures Gained(items, items[k := it], it)
  {
    var after := items[k := it];
    forall c ensures (c in it.wants ==> c in Armed(after)) && (c in Armed(after) ==> c in Armed(items) || c in it.wants) {
      ArmedItem(items, c);
      ArmedItem(after, c);
      assert after[k] == it;
    }
  }

  /** Items switched off or removed leave nothing new to wait for. */
  lemma DelLoses(items: Items, k: nat)
    requires k < |items|
    ensures Armed(items[k := items[|items| - 1]][..|items| - 1]) <= Armed(items)
  {
    var after := items[k := items[|items| - 1]][..|items| - 1];
    forall c | c in Armed(after) ensures c in Armed(items) {
      ArmedItem(items, c);
      ArmedItem(after, c);
      var j :| 0 <= j < |after| && !after[j].off && c in after[j].wants;
      assert after[j] == items[if j == k then |items| - 1 else j];
    }
  }

  lemma OffLoses(items: Items, after: Items)
    requires |after| == |items| && forall k :: 0 <= k < |items| ==> after[k] == items[k] || after[k] == items[k].(off := true)
    ensures Armed(after) <= Armed(items)
  {
    forall c | c in Armed(after) ensures c in Armed(items) {
      ArmedItem(items, c);
      ArmedItem(after, c);
      var j :| 0 <= j < |after| && !after[j].off && c in after[j].wants;
      assert after[j] == items[j];
    }
  }

  // ---------------------------------------------------------------- processes that wait on a set

  /** `on` says on which set a process waits, if on any. */
  datatype Epolls = Epolls(sys: System, sets: seq<Items>, on: seq<Option<nat>>)

  predicate WaitsOn(s: Epolls, p: nat, e: nat)
    requires |s.on| == |s.sys.procs|
  {
    p < |s.on| && s.on[p] == Some(e) && !s.sys.procs[p].Awake?
  }

  function Conds(ph: Phase): set<Cond>
  {
    if ph.Awake? then {} else ph.conds
  }

  /** Who waits on a set waits for what is armed in it. */
  ghost predicate Matched(s: Epolls)
  {
    && |s.on| == |s.sys.procs|
    && forall p: nat, e: nat :: WaitsOn(s, p, e) ==> e < |s.sets| && Conds(s.sys.procs[p]) == Armed(s.sets[e])
  }

  /** And no wakeup is lost. */
  ghost predicate Kept(s: Epolls)
  {
    NoLostWakeup(s.sys) && Matched(s)
  }

  /** A step of some process or CPU; a scan that found nothing ready; a change of a set. */
  datatype EpollStep = Plain(step: Step) | Wait(p: nat, e: nat) | Change(e: nat, items: Items)

  ghost predicate CanStep(s: Epolls, step: EpollStep)
    requires Kept(s)
  {
    match step
    case Plain(st) => Possible(s.sys, st)
    case Wait(p, e) =>
      && p < |s.on| && e < |s.sets| && s.sys.procs[p].Awake? && ItemsOk(s.sys.o, s.sets[e])
      && forall k :: 0 <= k < |s.sets[e]| && !s.sets[e][k].off ==> !Ready(s.sys.o, s.sets[e][k])
    case Change(e, items) => e < |s.sets|
  }

  /** Who waits on set `e` waits for `conds` now; what it listens to stays. */
  function Retargeted(s: Epolls, e: nat, conds: set<Cond>): (r: seq<Phase>)
    requires |s.on| == |s.sys.procs|
    ensures |r| == |s.sys.procs|
    ensures forall p :: 0 <= p < |r| ==> r[p] == if WaitsOn(s, p, e) then s.sys.procs[p].(conds := conds) else s.sys.procs[p]
  {
    seq(|s.on|, p requires 0 <= p < |s.on| => if WaitsOn(s, p, e) then s.sys.procs[p].(conds := conds) else s.sys.procs[p])
  }

  ghost function After(s: Epolls, step: EpollStep): Epolls
    requires Kept(s) && CanStep(s, step)
  {
    match step
    case Plain(st) => s.(sys := Next(s.sys, st), on := if st.Decide? then s.on[st.p := None] else s.on)
    case Wait(p, e) =>
      s.(sys := s.sys.(procs := s.sys.procs[p := Waiting(s.sys, s.sets[e])]), on := s.on[p := Some(e)])
    case Change(e, items) => s.(sys := s.sys.(procs := Retargeted(s, e, Armed(items))), sets := s.sets[e := items])
  }

  function Waiting(s: System, items: Items): Phase
    requires |s.io| == BUCKETS
  {
    var w := OnMask(ScanMask(items));
    Deciding(Armed(items), w, Count(s.io, w))
  }

  lemma ChangeMatches(s: Epolls, e: nat, items: Items)
    requires Kept(s) && CanStep(s, Change(e, items))
    ensures Matched(After(s, Change(e, items)))
  {
    hide Armed, NoLostWakeup;
    var t := After(s, Change(e, items));
    forall p: nat, f: nat | WaitsOn(t, p, f) ensures f < |t.sets| && Conds(t.sys.procs[p]) == Armed(t.sets[f]) {
      assert WaitsOn(s, p, f);
    }
  }

  // ---------------------------------------------------------------- which changes are harmless

  /** The waiting process hears of the condition, and is not behind: if it holds already, either the signal is still
      to come or the process will notice before it sleeps. */
  ghost predicate Covered(s: System, ph: Phase, c: Cond)
    requires WellFormed(s.o) && |s.io| == BUCKETS
  {
    match ph
    case Awake => true
    case Deciding(_, w, seen) => Hears(w, KeyOf(c)) && (Holds(s.o, c) ==> Count(s.io, w) != seen)
    case Asleep(_, w) => Hears(w, KeyOf(c)) && (Holds(s.o, c) ==> Due(s, KeyOf(c)))
  }

  /** Everybody who waits on set `e` is covered for what the item wants. */
  ghost predicate Harmless(s: Epolls, e: nat, it: Item)
    requires WellFormed(s.sys.o) && |s.sys.io| == BUCKETS && |s.on| == |s.sys.procs|
  {
    forall p: nat, c: Cond :: WaitsOn(s, p, e) && c in it.wants ==> Covered(s.sys, s.sys.procs[p], c)
  }

  /** A condition is covered for all a process waits for exactly when the process is all right. */
  lemma PhaseCovered(s: System, ph: Phase)
    requires WellFormed(s.o) && |s.io| == BUCKETS
    requires ph.Deciding? ==> ph.seen <= Count(s.io, ph.w)
    ensures PhaseOk(s, ph) <==> forall c :: c in Conds(ph) ==> Known(s.o, c) && Covered(s, ph, c)
  {
    hide Holds, Known, KeyOf, Hears, Count, Due;
  }

  /** Adding an item, or arming one again, loses no wakeup exactly when everybody who waits on the set is covered for
      what the item wants. */
  lemma GainExactly(s: Epolls, e: nat, items: Items, it: Item)
    requires Kept(s) && CanStep(s, Change(e, items)) && Gained(s.sets[e], items, it) && ItemOk(s.sys.o, it)
    ensures Kept(After(s, Change(e, items))) <==> Harmless(s, e, it)
  {
    hide PhaseOk, Covered, Armed, Holds, Known, KeyOf, Readies;
    var t := After(s, Change(e, items));
    ChangeMatches(s, e, items);
    forall p | 0 <= p < |s.sys.procs|
      ensures WaitsOn(s, p, e) ==> (PhaseOk(t.sys, t.sys.procs[p]) <==> forall c :: c in it.wants ==> Covered(s.sys, s.sys.procs[p], c))
      ensures !WaitsOn(s, p, e) ==> PhaseOk(t.sys, t.sys.procs[p])
    {
      assert PhaseOk(s.sys, s.sys.procs[p]);
      SamePhase(s.sys, t.sys, s.sys.procs[p]);
      if WaitsOn(s, p, e) { GainOne(s, t, p, e, items, it); }
    }
    if Harmless(s, e, it) {
      forall p | 0 <= p < |t.sys.procs| ensures PhaseOk(t.sys, t.sys.procs[p]) {}
    }
    if Kept(t) {
      forall p: nat, c: Cond | WaitsOn(s, p, e) && c in it.wants ensures Covered(s.sys, s.sys.procs[p], c) {
        assert PhaseOk(t.sys, t.sys.procs[p]);
      }
    }
  }

  /** Only the objects, the counters and the queues matter to one process. */
  lemma SamePhase(s: System, t: System, ph: Phase)
    requires WellFormed(s.o) && |s.io| == BUCKETS && t.o == s.o && t.io == s.io && t.pending == s.pending && t.taken == s.taken
    ensures PhaseOk(t, ph) <==> PhaseOk(s, ph)
    ensures forall c :: Covered(t, ph, c) <==> Covered(s, ph, c)
  {
    hide Holds, Known, KeyOf, Hears, Count;
    forall k ensures Due(t, k) <==> Due(s, k) {}
  }

  lemma GainOne(s: Epolls, t: Epolls, p: nat, e: nat, items: Items, it: Item)
    requires Kept(s) && CanStep(s, Change(e, items)) && Gained(s.sets[e], items, it) && ItemOk(s.sys.o, it)
    requires t == After(s, Change(e, items)) && WaitsOn(s, p, e)
    ensures PhaseOk(t.sys, t.sys.procs[p]) <==> forall c :: c in it.wants ==> Covered(s.sys, s.sys.procs[p], c)
  {
    hide PhaseOk, Armed, Holds, Known, KeyOf, Readies, Hears, Count, Due;
    var ph, qh := s.sys.procs[p], t.sys.procs[p];
    assert PhaseOk(s.sys, ph);
    SeenBelow(s.sys, ph);
    PhaseCovered(s.sys, ph);
    SamePhase(s.sys, t.sys, qh);
    PhaseCovered(s.sys, qh);
    assert forall c :: Covered(s.sys, qh, c) <==> Covered(s.sys, ph, c);
  }

  lemma SeenBelow(s: System, ph: Phase)
    requires WellFormed(s.o) && |s.io| == BUCKETS && PhaseOk(s, ph)
    ensures ph.Deciding? ==> ph.seen <= Count(s.io, ph.w)
  {
    hide Count;
  }

  /** A change that arms nothing new is harmless. */
  lemma LossKeeps(s: Epolls, e: nat, items: Items)
    requires Kept(s) && CanStep(s, Change(e, items)) && Armed(items) <= Armed(s.sets[e])
    ensures Kept(After(s, Change(e, items)))
  {
    hide PhaseOk, Covered, Armed, Holds, Known, KeyOf;
    var t := After(s, Change(e, items));
    ChangeMatches(s, e, items);
    forall p | 0 <= p < |s.sys.procs| ensures PhaseOk(t.sys, t.sys.procs[p]) {
      var ph, qh := s.sys.procs[p], t.sys.procs[p];
      assert PhaseOk(s.sys, ph);
      SamePhase(s.sys, t.sys, qh);
      SeenBelow(s.sys, ph);
      PhaseCovered(s.sys, ph);
      PhaseCovered(s.sys, qh);
      if WaitsOn(s, p, e) { SameCover(s.sys, ph, Armed(items)); }
    }
  }

  /** What covers a process does not depend on what it waits for. */
  lemma SameCover(s: System, ph: Phase, conds: set<Cond>)
    requires WellFormed(s.o) && |s.io| == BUCKETS && !ph.Awake?
    ensures forall c :: Covered(s, ph.(conds := conds), c) <==> Covered(s, ph, c)
  {
    hide Holds, KeyOf, Hears, Count, Due;
  }

  /** A scan that found nothing ready leaves the process to wait for exactly what is armed. */
  lemma WaitKeeps(s: Epolls, p: nat, e: nat)
    requires Kept(s) && CanStep(s, Wait(p, e))
    ensures Kept(After(s, Wait(p, e)))
  {
    hide PhaseOk, Armed, ScanMask, Holds, Known, KeyOf, Hears, Count, Ready;
    var t, items := After(s, Wait(p, e)), s.sets[e];
    WaitingOk(s.sys, items);
    forall q: nat, f: nat | WaitsOn(t, q, f) ensures f < |t.sets| && Conds(t.sys.procs[q]) == Armed(t.sets[f]) {
      if q != p { assert WaitsOn(s, q, f); }
    }
    forall q | 0 <= q < |t.sys.procs| ensures PhaseOk(t.sys, t.sys.procs[q]) {
      assert PhaseOk(s.sys, s.sys.procs[q]);
      SamePhase(s.sys, t.sys, t.sys.procs[q]);
    }
  }

  lemma WaitingOk(s: System, items: Items)
    requires WellFormed(s.o) && |s.io| == BUCKETS && ItemsOk(s.o, items)
    requires forall k :: 0 <= k < |items| && !items[k].off ==> !Ready(s.o, items[k])
    ensures PhaseOk(s, Waiting(s, items))
  {
    hide Armed, ScanMask, Holds, Known, KeyOf, Hears, Count;
    forall c | c in Armed(items) ensures Known(s.o, c) && Hears(OnMask(ScanMask(items)), KeyOf(c)) && !Holds(s.o, c) {
      ScanHears(s.o, items, c);
      ArmedItem(items, c);
      var k :| 0 <= k < |items| && !items[k].off && c in items[k].wants;
      assert !Ready(s.o, items[k]);
    }
  }

  /** Every other step of a process or CPU leaves the sets and who waits on them alone. */
  lemma PlainKeeps(s: Epolls, st: Step)
    requires Kept(s) && CanStep(s, Plain(st))
    ensures Kept(After(s, Plain(st)))
  {
    hide PhaseOk, Armed, PushAll, AllSignals, Listens, Count, Holds, AllApplicable;
    StepKeeps(s.sys, st);
    SameWaiters(s.sys, st);
    var t := After(s, Plain(st));
    forall p: nat, f: nat | WaitsOn(t, p, f) ensures f < |t.sets| && Conds(t.sys.procs[p]) == Armed(t.sets[f]) {
      assert WaitsOn(s, p, f);
    }
  }

  /** A step changes nobody's conditions, except the decider's own. */
  lemma SameWaiters(s: System, st: Step)
    requires NoLostWakeup(s) && Possible(s, st)
    ensures var t := Next(s, st);
            |t.procs| == |s.procs|
            && forall p :: 0 <= p < |s.procs| && !(st.Decide? && st.p == p) ==>
                 t.procs[p].Awake? || (!s.procs[p].Awake? && Conds(t.procs[p]) == Conds(s.procs[p]))
  {
    hide PhaseOk, Bump, Hears, Count, Holds, AllSignals, Apply, ApplyAll, Listens, AllApplicable;
    if st.Section? { PushAllKeeps(s.(o := ApplyAll(s.o, st.ops)), AllSignals(s.o, st.ops)) by { FitsSame(s, s.(o := ApplyAll(s.o, st.ops)), AllSignals(s.o, st.ops)); } }
  }

  /** A change of a set is safe when it takes something away, or adds or arms an item that everybody is covered for. */
  ghost predicate SafeChange(s: Epolls, e: nat, items: Items)
    requires Kept(s) && e < |s.sets|
  {
    || Armed(items) <= Armed(s.sets[e])
    || exists it :: Gained(s.sets[e], items, it) && ItemOk(s.sys.o, it) && Harmless(s, e, it)
  }

  ghost predicate EpollRun(ss: seq<Epolls>, steps: seq<EpollStep>, k: nat)
    requires k < |steps| < |ss|
  {
    Kept(ss[k]) ==>
      CanStep(ss[k], steps[k]) && ss[k + 1] == After(ss[k], steps[k])
      && (steps[k].Change? ==> SafeChange(ss[k], steps[k].e, steps[k].items))
  }

  /** In every interleaving that never fills the queue and changes sets safely, no wakeup is ever lost. */
  lemma {:induction false} EpollRunKeeps(ss: seq<Epolls>, steps: seq<EpollStep>, k: nat)
    requires |ss| == |steps| + 1 && Kept(ss[0]) && k < |ss|
    requires forall i :: 0 <= i < |steps| ==> EpollRun(ss, steps, i)
    ensures Kept(ss[k])
  {
    hide After, Gained, Harmless, NoLostWakeup, Armed, Possible, ItemsOk, Ready;
    if k > 0 {
      EpollRunKeeps(ss, steps, k - 1);
      assert EpollRun(ss, steps, k - 1);
      StepSafe(ss[k - 1], steps[k - 1]);
    }
  }

  lemma StepSafe(s: Epolls, step: EpollStep)
    requires Kept(s) && CanStep(s, step) && (step.Change? ==> step.e < |s.sets| && SafeChange(s, step.e, step.items))
    ensures Kept(After(s, step))
  {
    hide Gained, Harmless, Armed, Possible, ItemOk, Ready, ItemsOk, PhaseOk;
    match step {
      case Plain(st) => PlainKeeps(s, st);
      case Wait(p, e) => WaitKeeps(s, p, e);
      case Change(e, items) =>
        if Armed(items) <= Armed(s.sets[e]) {
          LossKeeps(s, e, items);
        } else {
          var it :| Gained(s.sets[e], items, it) && ItemOk(s.sys.o, it) && Harmless(s, e, it);
          GainExactly(s, e, items, it);
        }
    }
  }

  // ---------------------------------------------------------------- what callers can check

  /** With no signal on its way and nobody about to sleep, adding an item or arming it again is harmless exactly when
      it is not ready and everybody who waits on the set listens to what it wants. */
  lemma QuietGain(s: Epolls, e: nat, items: Items, it: Item)
    requires Kept(s) && CanStep(s, Change(e, items)) && Gained(s.sets[e], items, it) && ItemOk(s.sys.o, it)
    requires forall k :: !Due(s.sys, k)
    requires forall p: nat :: WaitsOn(s, p, e) ==> s.sys.procs[p].Asleep?
    requires exists p: nat :: WaitsOn(s, p, e)
    ensures Kept(After(s, Change(e, items))) <==>
            && !Ready(s.sys.o, it)
            && forall p: nat, c: Cond :: WaitsOn(s, p, e) && c in it.wants ==> Hears(s.sys.procs[p].w, KeyOf(c))
  {
    hide PhaseOk, Armed, Holds, Known, KeyOf, Readies, Hears, Gained;
    GainExactly(s, e, items, it);
    var p: nat :| WaitsOn(s, p, e);
    if Harmless(s, e, it) {
      forall c | c in it.wants ensures !Holds(s.sys.o, c) { assert Covered(s.sys, s.sys.procs[p], c); }
      forall q: nat, c: Cond | WaitsOn(s, q, e) && c in it.wants ensures Hears(s.sys.procs[q].w, KeyOf(c)) {
        assert Covered(s.sys, s.sys.procs[q], c);
      }
    }
  }

  /** Enough for that: the buckets of the descriptor are in the masks already. */
  lemma MaskedGain(s: Epolls, e: nat, items: Items, it: Item, p: nat, mask: set<nat>, c: Cond)
    requires |s.on| == |s.sys.procs| && WaitsOn(s, p, e) && s.sys.procs[p].w == OnMask(mask) && WaitKeys(it.fd) <= mask
    requires ItemOk(s.sys.o, it) && c in it.wants
    ensures Hears(s.sys.procs[p].w, KeyOf(c))
  {
    hide Hears, WaitKeys, Readies, Known;
    KeysHeard(it.fd, c, mask);
  }

  /** It does happen: a thread sleeps on a set whose only item, a pipe, was reported once and is switched off. Another
      thread arms it again while there is data: nothing is signalled, and the sleeper waits for what is there. */
  lemma RearmLost(o: Objects)
    requires WellFormed(o) && |o.pipes| > 0 && o.pipes[0].len > 0
    ensures var c := PipeReadable(0);
            var off := Item(3, ReadEnd(0), {c}, true, true);
            var s := Epolls(System(o, seq(BUCKETS, _ => 0), [], false, [], [Asleep({}, OnMask({}))]), [[off]], [Some(0)]);
            var step := Change(0, [off.(off := false)]);
            && Kept(s) && CanStep(s, step) && !Kept(After(s, step))
            && var t := After(s, step);
            t.sys.procs[0] == Asleep({c}, OnMask({})) && Holds(t.sys.o, c) && !Due(t.sys, KeyOf(c))
  {
    var c := PipeReadable(0);
    var off := Item(3, ReadEnd(0), {c}, true, true);
    var s := Epolls(System(o, seq(BUCKETS, _ => 0), [], false, [], [Asleep({}, OnMask({}))]), [[off]], [Some(0)]);
    assert PhaseOk(s.sys, s.sys.procs[0]);
    assert Armed([off]) == {} by { assert [off][1..] == []; }
    var on := off.(off := false);
    assert Armed([on]) == {c} by { assert [on][1..] == []; }
    var t := After(s, Change(0, [on]));
    assert t.sys.procs[0] == Asleep({c}, OnMask({}));
    assert !PhaseOk(t.sys, t.sys.procs[0]);
  }

  /** And if the data comes after that, its signal goes to a bucket outside the sleeper's mask: once it has been fired,
      nothing is due and the thread sleeps on. */
  lemma RearmUnheard(o: Objects)
    requires WellFormed(o) && |o.pipes| > 0 && o.pipes[0] == Pipe(0, 1, 1)
    ensures var c := PipeReadable(0);
            var s := System(o, seq(BUCKETS, _ => 0), [], false, [], [Asleep({c}, OnMask({}))]);
            && Applicable(o, PipeWrite(0, 1)) && Signals(o, PipeWrite(0, 1)) == [PipeKeyR(0)]
            && var t := Push(s.(o := Apply(o, PipeWrite(0, 1))), PipeKeyR(0));
            t.pending == [PipeKeyR(0)] && Woken(t.procs, PipeKeyR(0)) == t.procs && Holds(t.o, c)
  {
    hide Bump;
    assert Signals(o, PipeWrite(0, 1)) == [PipeKeyR(0)];
  }
}
