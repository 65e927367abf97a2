/** Who refers to an object: descriptor tables, descriptors in flight inside local connections, and
    connections waiting to be accepted (kernel/src/file.rs:52-80, kernel/src/unix.rs:30-72). */
module ReferenceBags {
  /** The counted ends of objects. */
  datatype Obj =
    | PipeR(i: nat) | PipeW(i: nat) | Mem(i: nat) | Event(i: nat) | Epoll(i: nat) | Sock(i: nat) | USock(i: nat)
    | Unix(c: nat, e: nat) | Listen(i: nat)

  /** What is freed as a whole. */
  datatype Store =
    | PipeStore(i: nat) | MemStore(i: nat) | EventStore(i: nat) | EpollStore(i: nat) | SockStore(i: nat) | USockStore(i: nat)
    | ConnStore(c: nat) | ListenStore(i: nat)

  function StoreOf(o: Obj): Store
  {
    match o
    case PipeR(i) => PipeStore(i)
    case PipeW(i) => PipeStore(i)
    case Mem(i) => MemStore(i)
    case Event(i) => EventStore(i)
    case Epoll(i) => EpollStore(i)
    case Sock(i) => SockStore(i)
    case USock(i) => USockStore(i)
    case Unix(c, _) => ConnStore(c)
    case Listen(i) => ListenStore(i)
  }

  /** A table entry: free, something that is not counted (console, files, devices), or a counted object. */
  datatype Entry = Free | Plain(cloexec: bool) | Open(obj: Obj, cloexec: bool)

  type Bag = multiset<Obj>

  // ---------------------------------------------------------------- sums of bags

  function Sum(parts: seq<Bag>): Bag
  {
    if parts == [] then multiset{} else Sum(parts[..|parts| - 1]) + parts[|parts| - 1]
  }

  lemma Swap(a: Bag, n: Bag, u: Bag, b: Bag, v: Bag)
    requires a + u == b + v
    ensures (a + n) + u == (b + n) + v
  {
    forall z: Obj ensures ((a + n) + u)[z] == ((b + n) + v)[z] { assert (a + u)[z] == (b + v)[z]; }
  }

  lemma {:induction false} SumUpdate(parts: seq<Bag>, i: nat, v: Bag)
    requires i < |parts|
    ensures Sum(parts[i := v]) + parts[i] == Sum(parts) + v
  {
    var k := |parts| - 1;
    if i < k {
      assert parts[i := v][..k] == parts[..k][i := v];
      SumUpdate(parts[..k], i, v);
      Swap(Sum(parts[..k][i := v]), parts[k], parts[i], Sum(parts[..k]), v);
    } else {
      assert parts[i := v][..k] == parts[..k];
    }
  }

  lemma {:induction false} SumMember(parts: seq<Bag>, i: nat, o: Obj)
    requires i < |parts|
    ensures parts[i][o] <= Sum(parts)[o]
  {
    var k := |parts| - 1;
    if i < k { SumMember(parts[..k], i, o); }
  }

  lemma {:induction false} SumEmpty(parts: seq<Bag>)
    requires forall i :: 0 <= i < |parts| ==> parts[i] == multiset{}
    ensures Sum(parts) == multiset{}
  {
    if parts != [] { SumEmpty(parts[..|parts| - 1]); }
  }

  lemma {:induction false} SumAppend(parts: seq<Bag>, v: Bag)
    ensures Sum(parts + [v]) == Sum(parts) + v
  {
    assert (parts + [v])[..|parts|] == parts;
  }

  // ---------------------------------------------------------------- the three kinds of holders

  function Named(e: Entry): Bag
  {
    if e.Open? then multiset{e.obj} else multiset{}
  }

  function InTable(t: seq<Entry>): Bag
  {
    Sum(seq(|t|, k requires 0 <= k < |t| => Named(t[k])))
  }

  function InTables(ts: seq<seq<Entry>>): Bag
  {
    Sum(seq(|ts|, l requires 0 <= l < |ts| => InTable(ts[l])))
  }

  /** The descriptors in flight in one queue, one set per message. */
  function InQueue(q: seq<seq<Obj>>): Bag
  {
    Sum(seq(|q|, k requires 0 <= k < |q| => multiset(q[k])))
  }

  function InQueues(qs: seq<seq<seq<Obj>>>): Bag
  {
    Sum(seq(|qs|, k requires 0 <= k < |qs| => InQueue(qs[k])))
  }

  /** The server ends of connections not yet accepted. */
  function ServerEnds(b: seq<nat>): (r: seq<Obj>)
    ensures |r| == |b|
  {
    seq(|b|, k requires 0 <= k < |b| => Unix(b[k], 1))
  }

  function InBacklogs(bs: seq<seq<nat>>): Bag
  {
    Sum(seq(|bs|, k requires 0 <= k < |bs| => multiset(ServerEnds(bs[k]))))
  }

  lemma TablePart(t: seq<Entry>, i: nat, e: Entry)
    requires i < |t|
    ensures InTable(t[i := e]) + Named(t[i]) == InTable(t) + Named(e)
  {
    var parts := seq(|t|, k requires 0 <= k < |t| => Named(t[k]));
    var t' := t[i := e];
    assert seq(|t'|, k requires 0 <= k < |t'| => Named(t'[k])) == parts[i := Named(e)];
    SumUpdate(parts, i, Named(e));
  }

  lemma TablesPart(ts: seq<seq<Entry>>, l: nat, t: seq<Entry>)
    requires l < |ts|
    ensures InTables(ts[l := t]) + InTable(ts[l]) == InTables(ts) + InTable(t)
  {
    var parts := seq(|ts|, k requires 0 <= k < |ts| => InTable(ts[k]));
    var ts' := ts[l := t];
    assert seq(|ts'|, k requires 0 <= k < |ts'| => InTable(ts'[k])) == parts[l := InTable(t)];
    SumUpdate(parts, l, InTable(t));
  }

  /** One entry of one table changes. */
  lemma EntryChanges(ts: seq<seq<Entry>>, l: nat, i: nat, e: Entry)
    requires l < |ts| && i < |ts[l]|
    ensures InTables(ts[l := ts[l][i := e]]) + Named(ts[l][i]) == InTables(ts) + Named(e)
  {
    TablesPart(ts, l, ts[l][i := e]);
    TablePart(ts[l], i, e);
    var a, b, t, t' := InTables(ts[l := ts[l][i := e]]), InTables(ts), InTable(ts[l]), InTable(ts[l][i := e]);
    forall z: Obj ensures (a + Named(ts[l][i]))[z] == (b + Named(e))[z] {
      assert (a + t)[z] == (b + t')[z] && (t' + Named(ts[l][i]))[z] == (t + Named(e))[z];
    }
  }

  lemma EntryHeld(ts: seq<seq<Entry>>, l: nat, i: nat)
    requires l < |ts| && i < |ts[l]| && ts[l][i].Open?
    ensures ts[l][i].obj in InTables(ts)
  {
    var o := ts[l][i].obj;
    SumMember(seq(|ts[l]|, k requires 0 <= k < |ts[l]| => Named(ts[l][k])), i, o);
    SumMember(seq(|ts|, k requires 0 <= k < |ts| => InTable(ts[k])), l, o);
  }

  lemma QueuesPart(qs: seq<seq<seq<Obj>>>, k: nat, q: seq<seq<Obj>>)
    requires k < |qs|
    ensures InQueues(qs[k := q]) + InQueue(qs[k]) == InQueues(qs) + InQueue(q)
  {
    var parts := seq(|qs|, j requires 0 <= j < |qs| => InQueue(qs[j]));
    var qs' := qs[k := q];
    assert seq(|qs'|, j requires 0 <= j < |qs'| => InQueue(qs'[j])) == parts[k := InQueue(q)];
    SumUpdate(parts, k, InQueue(q));
  }

  lemma BacklogsPart(bs: seq<seq<nat>>, k: nat, b: seq<nat>)
    requires k < |bs|
    ensures InBacklogs(bs[k := b]) + multiset(ServerEnds(bs[k])) == InBacklogs(bs) + multiset(ServerEnds(b))
  {
    var parts := seq(|bs|, j requires 0 <= j < |bs| => multiset(ServerEnds(bs[j])));
    var bs' := bs[k := b];
    assert seq(|bs'|, j requires 0 <= j < |bs'| => multiset(ServerEnds(bs'[j]))) == parts[k := multiset(ServerEnds(b))];
    SumUpdate(parts, k, multiset(ServerEnds(b)));
  }

  lemma QueuePush(q: seq<seq<Obj>>, fs: seq<Obj>)
    ensures InQueue(q + [fs]) == InQueue(q) + multiset(fs)
  {
    var q' := q + [fs];
    var parts := seq(|q|, k requires 0 <= k < |q| => multiset(q[k]));
    assert seq(|q'|, k requires 0 <= k < |q'| => multiset(q'[k])) == parts + [multiset(fs)];
    SumAppend(parts, multiset(fs));
  }

  lemma {:induction false} SumFront(v: Bag, parts: seq<Bag>)
    ensures Sum([v] + parts) == v + Sum(parts)
  {
    if parts == [] {
      assert [v] + parts == [v];
      assert Sum([v][..0]) == multiset{};
    } else {
      var k := |parts| - 1;
      SumFront(v, parts[..k]);
      assert ([v] + parts)[..|parts|] == [v] + parts[..k];
    }
  }

  lemma QueuePop(q: seq<seq<Obj>>)
    requires q != []
    ensures InQueue(q) == multiset(q[0]) + InQueue(q[1..])
  {
    var rest := q[1..];
    var parts := seq(|rest|, k requires 0 <= k < |rest| => multiset(rest[k]));
    assert seq(|q|, k requires 0 <= k < |q| => multiset(q[k])) == [multiset(q[0])] + parts;
    SumFront(multiset(q[0]), parts);
  }

  /** All the descriptors of a queue, in order. */
  function Flat(q: seq<seq<Obj>>): seq<Obj>
  {
    if q == [] then [] else q[0] + Flat(q[1..])
  }

  lemma {:induction false} FlatIn(q: seq<seq<Obj>>)
    ensures multiset(Flat(q)) == InQueue(q)
  {
    if q != [] {
      QueuePop(q);
      FlatIn(q[1..]);
    }
  }

  /** Everything that refers to an object. */
  function Held(ts: seq<seq<Entry>>, qs: seq<seq<seq<Obj>>>, bs: seq<seq<nat>>): Bag
  {
    InTables(ts) + InQueues(qs) + InBacklogs(bs)
  }
}
