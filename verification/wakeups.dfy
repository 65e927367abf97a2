/** Sleeping and waking across two locks (kernel/src/file.rs:137-179, kernel/src/file.rs:403-420,
    kernel/src/file.rs:1698-1785, kernel/src/process.rs:1316-1409). A process decides to wait in a section
    under the FS lock and goes to sleep in a later section under SCHED; a signal is queued under FS and
    fired later under SCHED. Between the two sections anything may happen on other CPUs. */
module Wakeups {
  import opened Basics
  import opened WaitConditions

  const BUCKETS: nat := 64
  const PENDING_MAX: nat := 64
  const POLL_KEY: Key := 0x504F_4C4C

  /** key_bucket: the top six bits of a 64-bit product. */
  function Bucket(k: Key): (b: nat)
    ensures b < BUCKETS
  {
    (k * 0x9E37_79B9_7F4A_7C15) % 0x1_0000_0000_0000_0000 / 0x400_0000_0000_0000
  }

  /** What a sleeper listens to: one key, or every key of some buckets. */
  datatype Filter = OnKey(key: Key) | OnMask(mask: set<nat>)

  predicate Hears(w: Filter, k: Key)
  {
    match w
    case OnKey(key) => key == k
    case OnMask(mask) => Bucket(k) in mask
  }

  /** A process with regard to waiting: `conds` is what it waits for, `seen` the counter it read when it found
      none of that true. */
  datatype Phase =
    | Awake
    | Deciding(conds: set<Cond>, w: Filter, seen: nat)
    | Asleep(conds: set<Cond>, w: Filter)

  datatype System = System(o: Objects, io: seq<nat>, pending: seq<Key>, any: bool, taken: seq<seq<Key>>, procs: seq<Phase>)

  // ---------------------------------------------------------------- event counters

  /** Sum of the counters of the buckets in `mask` below `b`. */
  function SumBelow(io: seq<nat>, mask: set<nat>, b: nat): nat
    requires b <= |io|
  {
    if b == 0 then 0 else SumBelow(io, mask, b - 1) + if b - 1 in mask then io[b - 1] else 0
  }

  /** io_seq and io_seq_mask. */
  function Count(io: seq<nat>, w: Filter): nat
    requires |io| == BUCKETS
  {
    match w
    case OnKey(key) => io[Bucket(key)]
    case OnMask(mask) => SumBelow(io, mask, BUCKETS)
  }

  /** bump_io_seq */
  function Bump(io: seq<nat>, k: Key): (r: seq<nat>)
    requires |io| == BUCKETS
    ensures |r| == BUCKETS && forall b :: 0 <= b < BUCKETS ==> r[b] >= io[b]
    ensures r[Bucket(k)] > io[Bucket(k)]
  {
    var once := io[Bucket(k) := io[Bucket(k)] + 1];
    once[Bucket(POLL_KEY) := once[Bucket(POLL_KEY)] + 1]
  }

  lemma {:induction false} SumGrows(io: seq<nat>, io': seq<nat>, mask: set<nat>, b: nat)
    requires b <= |io| == |io'| && forall i :: 0 <= i < |io| ==> io'[i] >= io[i]
    ensures SumBelow(io', mask, b) >= SumBelow(io, mask, b)
    ensures forall i :: 0 <= i < b && i in mask && io'[i] > io[i] ==> SumBelow(io', mask, b) > SumBelow(io, mask, b)
  {
    if b > 0 { SumGrows(io, io', mask, b - 1); }
  }

  /** One counter more makes the sum as much more, if it is one of the mask, and leaves it alone otherwise. */
  lemma {:induction false} SumExact(io: seq<nat>, mask: set<nat>, b: nat, i: nat, n: nat)
    requires b <= |io| && i < |io|
    ensures SumBelow(io[i := io[i] + n], mask, b) == SumBelow(io, mask, b) + if i < b && i in mask then n else 0
  {
    if b > 0 { SumExact(io, mask, b - 1, i, n); }
  }

  lemma {:induction false} SumZero(io: seq<nat>, mask: set<nat>, b: nat)
    requires b <= |io| && forall i :: 0 <= i < |io| ==> io[i] == 0
    ensures SumBelow(io, mask, b) == 0
  {
    if b > 0 { SumZero(io, mask, b - 1); }
  }

  /** A signal counts in two buckets only, that of its key and that of all polls. */
  lemma BumpOnly(io: seq<nat>, k: Key, b: nat)
    requires |io| == BUCKETS && b < BUCKETS
    ensures Bump(io, k)[b] == io[b] + (if b == Bucket(k) then 1 else 0) + (if b == Bucket(POLL_KEY) then 1 else 0)
  {
    hide Bucket;
  }

  /** A signal that a filter hears changes the count the filter looks at; no signal takes it back. */
  lemma BumpCounts(io: seq<nat>, k: Key, w: Filter)
    requires |io| == BUCKETS
    ensures Count(Bump(io, k), w) >= Count(io, w)
    ensures Hears(w, k) ==> Count(Bump(io, k), w) > Count(io, w)
  {
    hide Bucket, Bump;
    if w.OnMask? { SumGrows(io, Bump(io, k), w.mask, BUCKETS); }
  }

  // ---------------------------------------------------------------- the queue of signals

  /** push_wake: bumps the counters and queues the key, unless it is there already or the queue is full. */
  function Push(s: System, k: Key): System
    requires |s.io| == BUCKETS
  {
    var pending := if k in s.pending || |s.pending| >= PENDING_MAX then s.pending else s.pending + [k];
    s.(io := Bump(s.io, k), any := true, pending := pending)
  }

  function PushAll(s: System, keys: seq<Key>): (r: System)
    requires |s.io| == BUCKETS
    ensures |r.io| == BUCKETS
    decreases |keys|
  {
    if keys == [] then s else PushAll(Push(s, keys[0]), keys[1..])
  }

  /** None of the keys is turned away. */
  predicate Fits(s: System, keys: seq<Key>)
    requires |s.io| == BUCKETS
    decreases |keys|
  {
    keys == [] || ((keys[0] in s.pending || |s.pending| < PENDING_MAX) && Fits(Push(s, keys[0]), keys[1..]))
  }

  /** The key is queued, or some CPU took it and has still to fire it. */
  ghost predicate Due(s: System, k: Key)
  {
    k in s.pending || exists c :: 0 <= c < |s.taken| && k in s.taken[c]
  }

  lemma {:induction false} PushAllKeeps(s: System, keys: seq<Key>)
    requires |s.io| == BUCKETS && Fits(s, keys)
    ensures var r := PushAll(s, keys);
            && r.o == s.o && r.taken == s.taken && r.procs == s.procs
            && (forall k :: k in keys || k in s.pending ==> k in r.pending)
            && (keys != [] ==> r.any) && (s.any ==> r.any) && (keys == [] ==> r == s)
    decreases |keys|
  {
    hide Bump;
    if keys != [] {
      PushAllKeeps(Push(s, keys[0]), keys[1..]);
      forall k | k in keys ensures k in PushAll(s, keys).pending {
        if k != keys[0] { assert k in keys[1..]; }
      }
    }
  }

  lemma {:induction false} PushAllCounts(s: System, keys: seq<Key>, w: Filter)
    requires |s.io| == BUCKETS
    ensures Count(PushAll(s, keys).io, w) >= Count(s.io, w)
    ensures (exists k :: k in keys && Hears(w, k)) ==> Count(PushAll(s, keys).io, w) > Count(s.io, w)
    decreases |keys|
  {
    hide Bump, Count, Hears;
    if keys != [] {
      BumpCounts(s.io, keys[0], w);
      PushAllCounts(Push(s, keys[0]), keys[1..], w);
      if k :| k in keys && Hears(w, k) {
        if k != keys[0] { assert k in keys[1..]; }
      }
    }
  }

  // ---------------------------------------------------------------- the invariant

  /** A process listens to whatever announces what it waits for. */
  ghost predicate Listens(o: Objects, conds: set<Cond>, w: Filter)
  {
    forall c :: c in conds ==> Known(o, c) && Hears(w, KeyOf(c))
  }

  ghost predicate PhaseOk(s: System, ph: Phase)
    requires WellFormed(s.o) && |s.io| == BUCKETS
  {
    match ph
    case Awake => true
    case Deciding(conds, w, seen) =>
      && Listens(s.o, conds, w) && seen <= Count(s.io, w)
      && (seen == Count(s.io, w) ==> forall c :: c in conds ==> !Holds(s.o, c))
    case Asleep(conds, w) =>
      && Listens(s.o, conds, w)
      && forall c :: c in conds && Holds(s.o, c) ==> Due(s, KeyOf(c))
  }

  /** No wakeup is lost: whoever sleeps although something it waits for has come true is about to be woken. */
  ghost predicate NoLostWakeup(s: System)
  {
    && WellFormed(s.o) && |s.io| == BUCKETS && (s.pending != [] ==> s.any)
    && forall p :: 0 <= p < |s.procs| ==> PhaseOk(s, s.procs[p])
  }

  /** With no signal queued or taken, every sleeper is right to sleep. */
  lemma QuietSleepersWait(s: System, p: nat, c: Cond)
    requires NoLostWakeup(s) && s.pending == [] && forall i :: 0 <= i < |s.taken| ==> s.taken[i] == []
    requires p < |s.procs| && s.procs[p].Asleep? && c in s.procs[p].conds
    ensures !Holds(s.o, c)
  {
    assert PhaseOk(s, s.procs[p]);
  }

  // ---------------------------------------------------------------- steps

  datatype Step =
    | Section(ops: seq<Op>)
    | Decide(p: nat, conds: set<Cond>, w: Filter)
    | Sleep(p: nat)
    | Take(cpu: nat)
    | Fire(cpu: nat)
    | Interrupt(p: nat)

  ghost predicate Possible(s: System, step: Step)
    requires NoLostWakeup(s)
  {
    match step
    case Section(ops) => AllApplicable(s.o, ops) && Fits(s, AllSignals(s.o, ops))
    case Decide(p, conds, w) =>
      p < |s.procs| && s.procs[p].Awake? && Listens(s.o, conds, w) && forall c :: c in conds ==> !Holds(s.o, c)
    case Sleep(p) => p < |s.procs| && s.procs[p].Deciding?
    case Take(cpu) => cpu < |s.taken|
    case Fire(cpu) => cpu < |s.taken| && s.taken[cpu] != []
    case Interrupt(p) => p < |s.procs|
  }

  /** io_wake: whoever sleeps and hears `k` wakes. */
  function Woken(procs: seq<Phase>, k: Key): (r: seq<Phase>)
    ensures |r| == |procs|
    ensures forall p :: 0 <= p < |procs| ==> r[p] == if procs[p].Asleep? && Hears(procs[p].w, k) then Awake else procs[p]
  {
    seq(|procs|, p requires 0 <= p < |procs| => if procs[p].Asleep? && Hears(procs[p].w, k) then Awake else procs[p])
  }

  ghost function Next(s: System, step: Step): System
    requires NoLostWakeup(s) && Possible(s, step)
  {
    match step
    case Section(ops) => PushAll(s.(o := ApplyAll(s.o, ops)), AllSignals(s.o, ops))
    case Decide(p, conds, w) => s.(procs := s.procs[p := Deciding(conds, w, Count(s.io, w))])
    case Sleep(p) =>
      var d := s.procs[p];
      s.(procs := s.procs[p := if Count(s.io, d.w) != d.seen then Awake else Asleep(d.conds, d.w)])
    case Take(cpu) => if !s.any then s else s.(pending := [], any := false, taken := s.taken[cpu := s.taken[cpu] + s.pending])
    case Fire(cpu) => s.(procs := Woken(s.procs, s.taken[cpu][0]), taken := s.taken[cpu := s.taken[cpu][1..]])
    case Interrupt(p) => s.(procs := s.procs[p := Awake])
  }

  // ---------------------------------------------------------------- preservation

  /** A section under FS: what it makes true is announced, so a decider sees the count change and a sleeper's
      key is queued. */
  lemma SectionKeeps(s: System, ops: seq<Op>)
    requires NoLostWakeup(s) && Possible(s, Section(ops))
    ensures NoLostWakeup(Next(s, Section(ops)))
  {
    hide Bump, Holds, Known, KeyOf, Hears, Count, Applicable, Apply, Signals, ApplyAll, AllSignals, AllApplicable;
    var keys := AllSignals(s.o, ops);
    var mid := s.(o := ApplyAll(s.o, ops));
    var t := PushAll(mid, keys);
    FitsSame(s, mid, keys);
    PushAllKeeps(mid, keys);
    SectionAnnounces(s.o, ops);
    assert t.pending != [] ==> t.any by { if keys == [] { assert t == mid; } }
    forall p | 0 <= p < |t.procs| ensures PhaseOk(t, t.procs[p]) {
      assert PhaseOk(s, s.procs[p]);
      match s.procs[p] {
        case Awake =>
        case Deciding(conds, w, seen) => DeciderKept(s, mid, keys, conds, w, seen);
        case Asleep(conds, w) => SleeperKept(s, mid, keys, conds, w);
      }
    }
  }

  lemma {:induction false} FitsSame(s: System, t: System, keys: seq<Key>)
    requires |s.io| == BUCKETS && Fits(s, keys) && t.io == s.io && t.pending == s.pending && t.any == s.any
    ensures Fits(t, keys)
    decreases |keys|
  {
    hide Bump;
    if keys != [] { FitsSame(Push(s, keys[0]), Push(t, keys[0]), keys[1..]); }
  }

  lemma DeciderKept(s: System, mid: System, keys: seq<Key>, conds: set<Cond>, w: Filter, seen: nat)
    requires WellFormed(s.o) && WellFormed(mid.o) && |s.io| == BUCKETS && PhaseOk(s, Deciding(conds, w, seen))
    requires mid == s.(o := mid.o) && Announced(s.o, mid.o, keys) && Fits(mid, keys) && WellFormed(PushAll(mid, keys).o)
    ensures PhaseOk(PushAll(mid, keys), Deciding(conds, w, seen))
  {
    hide Bump, Holds, Known, KeyOf, Hears, Count;
    var t := PushAll(mid, keys);
    PushAllKeeps(mid, keys);
    PushAllCounts(mid, keys, w);
    forall c | c in conds
      ensures Known(t.o, c) && (seen == Count(t.io, w) ==> !Holds(t.o, c))
    {
      assert AnnouncedAt(s.o, mid.o, keys, c);
    }
  }

  lemma SleeperKept(s: System, mid: System, keys: seq<Key>, conds: set<Cond>, w: Filter)
    requires WellFormed(s.o) && WellFormed(mid.o) && |s.io| == BUCKETS && PhaseOk(s, Asleep(conds, w))
    requires mid == s.(o := mid.o) && Announced(s.o, mid.o, keys) && Fits(mid, keys) && WellFormed(PushAll(mid, keys).o)
    ensures PhaseOk(PushAll(mid, keys), Asleep(conds, w))
  {
    hide Bump, Holds, Known, KeyOf, Hears, Count;
    var t := PushAll(mid, keys);
    PushAllKeeps(mid, keys);
    forall c | c in conds ensures Known(t.o, c) && (Holds(t.o, c) ==> Due(t, KeyOf(c))) {
      assert AnnouncedAt(s.o, mid.o, keys, c);
      if Holds(t.o, c) && Holds(s.o, c) { assert Due(s, KeyOf(c)); }
    }
  }

  /** Going to sleep: an unchanged count means that nothing has come true since the decision. */
  lemma SleepKeeps(s: System, p: nat)
    requires NoLostWakeup(s) && Possible(s, Sleep(p))
    ensures NoLostWakeup(Next(s, Sleep(p)))
  {
    hide Count, Holds, Known, KeyOf, Hears;
    var t := Next(s, Sleep(p));
    assert PhaseOk(s, s.procs[p]);
    forall q | 0 <= q < |t.procs| ensures PhaseOk(t, t.procs[q]) { assert PhaseOk(s, s.procs[q]); }
  }

  /** Taking the queue moves its keys, and firing one leaves nobody asleep who hears it. */
  lemma TakeKeeps(s: System, cpu: nat)
    requires NoLostWakeup(s) && Possible(s, Take(cpu))
    ensures NoLostWakeup(Next(s, Take(cpu)))
  {
    hide Count, Holds, Known, KeyOf, Hears;
    var t := Next(s, Take(cpu));
    forall q | 0 <= q < |t.procs| ensures PhaseOk(t, t.procs[q]) {
      assert PhaseOk(s, s.procs[q]);
      forall k | Due(s, k) ensures Due(t, k) { DueMoves(s, t, cpu, k); }
    }
  }

  lemma DueMoves(s: System, t: System, cpu: nat, k: Key)
    requires cpu < |s.taken| && Due(s, k) && (s.pending != [] ==> s.any)
    requires t == if !s.any then s else s.(pending := [], any := false, taken := s.taken[cpu := s.taken[cpu] + s.pending])
    ensures Due(t, k)
  {
    if s.any {
      if k in s.pending {
        assert k in t.taken[cpu];
      } else {
        var c :| 0 <= c < |s.taken| && k in s.taken[c];
        assert k in t.taken[c];
      }
    }
  }

  lemma FireKeeps(s: System, cpu: nat)
    requires NoLostWakeup(s) && Possible(s, Fire(cpu))
    ensures NoLostWakeup(Next(s, Fire(cpu)))
    ensures forall p :: 0 <= p < |s.procs| && s.procs[p].Asleep? && Hears(s.procs[p].w, s.taken[cpu][0]) ==>
              Next(s, Fire(cpu)).procs[p] == Awake
  {
    hide Count, Holds, Known, KeyOf, Hears;
    var t, k := Next(s, Fire(cpu)), s.taken[cpu][0];
    forall q | 0 <= q < |t.procs| ensures PhaseOk(t, t.procs[q]) {
      assert PhaseOk(s, s.procs[q]);
      if t.procs[q].Asleep? {
        forall c | c in t.procs[q].conds && Holds(s.o, c) ensures Due(t, KeyOf(c)) {
          assert Due(s, KeyOf(c)) && KeyOf(c) != k;
          if KeyOf(c) !in s.pending {
            var i :| 0 <= i < |s.taken| && KeyOf(c) in s.taken[i];
            assert s.taken[cpu] == [k] + s.taken[cpu][1..];
            assert KeyOf(c) in t.taken[i];
          }
        }
      }
    }
  }

  /** Every step keeps the property. */
  lemma StepKeeps(s: System, step: Step)
    requires NoLostWakeup(s) && Possible(s, step)
    ensures NoLostWakeup(Next(s, step))
  {
    match step {
      case Section(ops) => SectionKeeps(s, ops);
      case Decide(p, conds, w) =>
        forall q | 0 <= q < |s.procs| ensures PhaseOk(Next(s, step), Next(s, step).procs[q]) { assert PhaseOk(s, s.procs[q]); }
      case Sleep(p) => SleepKeeps(s, p);
      case Take(cpu) => TakeKeeps(s, cpu);
      case Fire(cpu) => FireKeeps(s, cpu);
      case Interrupt(p) =>
        forall q | 0 <= q < |s.procs| ensures PhaseOk(Next(s, step), Next(s, step).procs[q]) { assert PhaseOk(s, s.procs[q]); }
    }
  }

  // ---------------------------------------------------------------- runs

  /** A run: each state is followed by the outcome of some possible step. */
  ghost predicate RunStep(ss: seq<System>, steps: seq<Step>, k: nat)
    requires k < |steps| < |ss|
  {
    NoLostWakeup(ss[k]) ==> Possible(ss[k], steps[k]) && ss[k + 1] == Next(ss[k], steps[k])
  }

  /** In every interleaving that never fills the queue, no wakeup is ever lost. */
  lemma {:induction false} RunKeeps(ss: seq<System>, steps: seq<Step>, k: nat)
    requires |ss| == |steps| + 1 && NoLostWakeup(ss[0]) && k < |ss|
    requires forall i :: 0 <= i < |steps| ==> RunStep(ss, steps, i)
    ensures NoLostWakeup(ss[k])
  {
    hide Possible, Next, PhaseOk;
    if k > 0 {
      RunKeeps(ss, steps, k - 1);
      assert RunStep(ss, steps, k - 1);
      StepKeeps(ss[k - 1], steps[k - 1]);
    }
  }

  /** Nobody waits and nothing is queued at boot. */
  lemma Boot(s: System)
    requires WellFormed(s.o) && |s.io| == BUCKETS && s.pending == [] && forall p :: 0 <= p < |s.procs| ==> s.procs[p] == Awake
    ensures NoLostWakeup(s)
  {
  }

  /** The queue is why: one more signal is due afterwards exactly when it was due before or there was room. */
  lemma QueuedOrLost(s: System, k: Key)
    requires |s.io| == BUCKETS
    ensures Due(Push(s, k), k) <==> Due(s, k) || |s.pending| < PENDING_MAX
  {
    var t := Push(s, k);
    if Due(s, k) && k !in s.pending {
      var c :| 0 <= c < |s.taken| && k in s.taken[c];
      assert k in t.taken[c];
    }
    if Due(t, k) && k !in t.pending {
      var c :| 0 <= c < |t.taken| && k in t.taken[c];
      assert k in s.taken[c];
    }
    if |s.pending| < PENDING_MAX { assert k in t.pending; }
  }

  /** And it can happen: with 64 other keys queued, a reader sleeps on although its pipe has data. */
  lemma LostWhenFull(o: Objects, pending: seq<Key>)
    requires WellFormed(o) && |o.pipes| > 0 && o.pipes[0] == Pipe(0, 1, 1)
    requires |pending| == PENDING_MAX && PipeKeyR(0) !in pending
    ensures var c := PipeReadable(0);
            var s := System(o, seq(BUCKETS, _ => 0), pending, true, [], [Asleep({c}, OnKey(PipeKeyR(0)))]);
            && NoLostWakeup(s) && Applicable(o, PipeWrite(0, 1))
            && var t := Push(s.(o := Apply(o, PipeWrite(0, 1))), PipeKeyR(0));
            Holds(t.o, c) && t.procs == s.procs && !Due(t, KeyOf(c))
  {
    var c := PipeReadable(0);
    var s := System(o, seq(BUCKETS, _ => 0), pending, true, [], [Asleep({c}, OnKey(PipeKeyR(0)))]);
    assert PhaseOk(s, s.procs[0]);
  }

  // ---------------------------------------------------------------- poll

  /** A descriptor that poll can wait on. */
  datatype Watched = ReadEnd(i: nat) | WriteEnd(i: nat) | Local(c: nat, e: nat) | Counter(i: nat) | Listening(i: nat)

  /** Everything that can make the descriptor ready. */
  ghost predicate Readies(f: Watched, c: Cond)
  {
    match f
    case ReadEnd(i) => c == PipeReadable(i)
    case WriteEnd(i) => c == PipeWritable(i)
    case Local(k, e) => (c.UnixReadable? || c.UnixWritable? || c.UnixHungUp?) && c.c == k && c.e == e
    case Counter(i) => c.EventReadable? && c.i == i
    case Listening(i) => c == Acceptable(i)
  }

  /** wait_keys_locked: the buckets whose signals can concern the descriptor. */
  function WaitKeys(f: Watched): set<nat>
  {
    match f
    case ReadEnd(i) => {Bucket(PipeKeyR(i))}
    case WriteEnd(i) => {Bucket(PipeKeyW(i))}
    case Local(c, e) => {Bucket(UnixKey(c, e)), Bucket(if e == 1 then UnixKey(c, 0) else UnixKey(c, 1))}
    case Counter(i) => {Bucket(EventKey(i))}
    case Listening(i) => {Bucket(ListenKey(i))}
  }

  /** The mask poll sleeps on listens to everything that can make any of its descriptors ready, and to the buckets of its
      descriptors only. */
  method PollMask(fds: seq<Watched>) returns (mask: set<nat>)
    ensures forall k, c :: 0 <= k < |fds| && Readies(fds[k], c) ==> Hears(OnMask(mask), KeyOf(c))
    ensures forall b :: b in mask ==> exists k :: 0 <= k < |fds| && b in WaitKeys(fds[k])
  {
    hide Bucket;
    mask := {};
    for i := 0 to |fds|
      invariant forall b :: b in mask ==> exists k :: 0 <= k < i && b in WaitKeys(fds[k])
      invariant forall k, c :: 0 <= k < i && Readies(fds[k], c) ==> Hears(OnMask(mask), KeyOf(c))
    {
      mask := mask + WaitKeys(fds[i]);
    }
  }

  // ---------------------------------------------------------------- the code's own tables

  class Waker {
    var io: seq<nat>
    const queue: array<Key>
    var queued: nat
    var any: bool
    var procs: seq<Phase>

    ghost predicate Valid()
      reads this
    {
      |io| == BUCKETS && queue.Length == PENDING_MAX && queued <= PENDING_MAX
    }

    /** The part of the system these tables are, given the rest. */
    ghost function View(o: Objects, taken: seq<seq<Key>>): System
      requires Valid()
      reads this, queue
    {
      System(o, io, queue[..queued], any, taken, procs)
    }

    constructor (procs: seq<Phase>)
      ensures Valid() && fresh(queue) && this.procs == procs && queued == 0 && !any
    {
      io := seq(BUCKETS, _ => 0);
      queue := new Key[PENDING_MAX](_ => 0);
      queued, any := 0, false;
      this.procs := procs;
    }

    /** push_wake */
    method PushWake(k: Key, ghost o: Objects, ghost taken: seq<seq<Key>>)
      requires Valid()
      modifies this, queue
      ensures Valid() && View(o, taken) == Push(old(View(o, taken)), k)
    {
      hide Bump;
      io := Bump(io, k);
      any := true;
      for i := 0 to queued
        invariant forall j :: 0 <= j < i ==> queue[j] != k
      {
        if queue[i] == k { return; }
      }
      if queued < queue.Length {
        queue[queued] := k;
        queued := queued + 1;
        assert queue[..queued] == old(queue[..queued]) + [k];
      }
    }

    /** take_wakes: empties the queue. */
    method TakeWakes() returns (keys: seq<Key>)
      requires Valid()
      modifies this`queued, this`any
      ensures Valid() && keys == old(queue[..queued]) && queued == 0 && !any
    {
      keys := queue[..queued];
      any, queued := false, 0;
    }

    /** io_wake */
    method IoWake(k: Key)
      modifies this`procs
      ensures procs == Woken(old(procs), k)
    {
      for i := 0 to |procs|
        invariant |procs| == |old(procs)|
        invariant forall j :: 0 <= j < |procs| ==> procs[j] == if j < i then Woken(old(procs), k)[j] else old(procs)[j]
      {
        if procs[i].Asleep? && Hears(procs[i].w, k) { procs := procs[i := Awake]; }
      }
    }

    /** flush_wakes: the shortcut skips the locks only when nothing is queued; what is taken is fired, all of
        it, in order. */
    method FlushWakes(ghost o: Objects)
      requires Valid() && (queued > 0 ==> any)
      modifies this`queued, this`any, this`procs
      ensures Valid() && queued == 0
      ensures forall p, k :: 0 <= p < |procs| == |old(procs)| && k in old(queue[..queued]) ==>
                !(procs[p].Asleep? && Hears(procs[p].w, k))
      ensures |procs| == |old(procs)| && forall p :: 0 <= p < |procs| ==> procs[p] == old(procs)[p] || (old(procs)[p].Asleep? && procs[p] == Awake)
    {
      hide Hears;
      if !any { return; }
      var keys := TakeWakes();
      for i := 0 to |keys|
        invariant |procs| == |old(procs)| && Valid() && queued == 0
        invariant forall p :: 0 <= p < |procs| ==> procs[p] == old(procs)[p] || (old(procs)[p].Asleep? && procs[p] == Awake)
        invariant forall p, j :: 0 <= p < |procs| && 0 <= j < i ==> !(procs[p].Asleep? && Hears(procs[p].w, keys[j]))
      {
        IoWake(keys[i]);
      }
    }

    /** io_seq_mask: the counters of the set bits, added up; with no bit set, the counter of all polls. */
    method IoSeqMask(mask: set<nat>) returns (sum: nat)
      requires Valid()
      ensures sum == if mask == {} then Count(io, OnKey(POLL_KEY)) else Count(io, OnMask(mask))
    {
      if mask == {} { return io[Bucket(POLL_KEY)]; }
      sum := 0;
      for b := 0 to BUCKETS
        invariant sum == SumBelow(io, mask, b)
      {
        if b in mask { sum := sum + io[b]; }
      }
    }

    /** io_wait_until and io_wait_mask: sleeps unless something was signalled since the decision, or a signal is
        pending for the process. */
    method IoWait(p: nat, signalled: bool, ghost o: Objects, ghost taken: seq<seq<Key>>)
      requires Valid() && p < |procs| && procs[p].Deciding? && NoLostWakeup(View(o, taken))
      modifies this`procs
      ensures Valid() && NoLostWakeup(View(o, taken))
      ensures View(o, taken) == Next(old(View(o, taken)), if signalled then Interrupt(p) else Sleep(p))
    {
      hide Count, PhaseOk;
      if signalled {
        StepKeeps(View(o, taken), Interrupt(p));
        procs := procs[p := Awake];
        return;
      }
      SleepKeeps(View(o, taken), p);
      var d := procs[p];
      procs := procs[p := if Count(io, d.w) != d.seen then Awake else Asleep(d.conds, d.w)];
    }
  }
}
