/** Descriptor tables and the reference counts behind them (kernel/src/file.rs:182-250,
    kernel/src/file.rs:425-521, kernel/src/file.rs:630-662, kernel/src/file.rs:1304-1427,
    kernel/src/file.rs:1466-1487, kernel/src/file.rs:1663-1684, kernel/src/unix.rs:99-124,
    kernel/src/unix.rs:256-298). Each operation runs under the FS lock, so each is one step. */
module Descriptors {
  import opened Basics
  import opened ReferenceBags

  const MAX_PROCS: nat := 256
  const MAX_FDS: nat := 512
  const MAX_CONNS: nat := 512
  const MAX_LISTEN: nat := 64
  const BACKLOG: nat := 16
  /** Most descriptors in one message. */
  const MAX_FILES: nat := 16
  const EBADF: nat := 9
  const EAGAIN: nat := 11
  const ENOMEM: nat := 12
  const EINVAL: nat := 22
  const ENFILE: nat := 23
  const EMFILE: nat := 24
  const EPIPE: nat := 32
  const ENOTSOCK: nat := 88
  const EOPNOTSUPP: nat := 95

  type Fd = nat

  function DefaultTable(): (t: seq<Entry>)
    ensures |t| == MAX_FDS && forall k :: 0 <= k < MAX_FDS ==> t[k] == if k <= 2 then Plain(false) else Free
  {
    seq(MAX_FDS, k => if k < 3 then Plain(false) else Free)
  }

  /** Some end of `st` is referred to. */
  predicate HasEnd(counts: Bag, st: Store)
  {
    match st
    case PipeStore(i) => PipeR(i) in counts || PipeW(i) in counts
    case MemStore(i) => Mem(i) in counts
    case EventStore(i) => Event(i) in counts
    case EpollStore(i) => Epoll(i) in counts
    case SockStore(i) => Sock(i) in counts
    case USockStore(i) => USock(i) in counts
    case ConnStore(c) => Unix(c, 0) in counts || Unix(c, 1) in counts
    case ListenStore(i) => Listen(i) in counts
  }

  predicate ValidObj(o: Obj)
  {
    match o
    case Unix(c, e) => c < MAX_CONNS && e < 2
    case Listen(i) => i < MAX_LISTEN
    case _ => true
  }

  /** Nothing is in flight inside connections that are gone. */
  ghost predicate QueuesEmpty(qs: seq<seq<seq<Obj>>>, alive: set<Store>)
  {
    |qs| == 2 * MAX_CONNS && forall c: nat :: c < MAX_CONNS && ConnStore(c) !in alive ==> qs[2 * c] == [] && qs[2 * c + 1] == []
  }

  /** Nobody waits at listeners that are gone. */
  ghost predicate BacklogsEmpty(bs: seq<seq<nat>>, alive: set<Store>)
  {
    |bs| == MAX_LISTEN && forall i: nat :: i < MAX_LISTEN && ListenStore(i) !in alive ==> bs[i] == []
  }

  /** The same queues, but for those of connections that are gone. */
  ghost predicate Shrunk(qs: seq<seq<seq<Obj>>>, qs': seq<seq<seq<Obj>>>)
  {
    |qs'| == |qs| && forall k :: 0 <= k < |qs| ==> qs'[k] == qs[k] || qs'[k] == []
  }

  lemma ConnCleared(qs: seq<seq<seq<Obj>>>, alive: set<Store>, c: nat)
    requires QueuesEmpty(qs, alive + {ConnStore(c)}) && c < MAX_CONNS
    ensures QueuesEmpty(qs[2 * c := []][2 * c + 1 := []], alive)
  {
  }

  lemma ListenerCleared(bs: seq<seq<nat>>, alive: set<Store>, i: nat)
    requires BacklogsEmpty(bs, alive + {ListenStore(i)}) && i < MAX_LISTEN
    ensures BacklogsEmpty(bs[i := []], alive)
  {
  }

  lemma NotAConn(qs: seq<seq<seq<Obj>>>, alive: set<Store>, i: nat)
    requires QueuesEmpty(qs, alive + {ListenStore(i)})
    ensures QueuesEmpty(qs, alive)
  {
    forall c: nat | c < MAX_CONNS && ConnStore(c) !in alive ensures ConnStore(c) !in alive + {ListenStore(i)} { }
  }

  lemma NotAListener(bs: seq<seq<nat>>, alive: set<Store>, c: nat)
    requires BacklogsEmpty(bs, alive + {ConnStore(c)})
    ensures BacklogsEmpty(bs, alive)
  {
    forall i: nat | i < MAX_LISTEN && ListenStore(i) !in alive ensures ListenStore(i) !in alive + {ConnStore(c)} { }
  }

  lemma HasOwnEnd(counts: Bag, o: Obj)
    requires o in counts && ValidObj(o)
    ensures HasEnd(counts, StoreOf(o))
  {
  }

  lemma OtherEnds(a: Bag, b: Bag, o: Obj, st: Store)
    requires StoreOf(o) != st && forall p: Obj :: p != o ==> (p in a <==> p in b)
    ensures HasEnd(a, st) <==> HasEnd(b, st)
  {
  }

  /** A socket that is not connected yet. */
  predicate IsSocket(f: Entry)
  {
    f.Open? && (f.obj.USock? || f.obj.Sock?)
  }

  predicate IsListener(f: Entry)
  {
    f.Open? && f.obj.Listen?
  }

  /** The queue that this end of a connection reads. */
  function Inbox(o: Obj): (k: nat)
    requires o.Unix? && ValidObj(o)
    ensures k < 2 * MAX_CONNS
  {
    2 * o.c + o.e
  }

  /** The other end of a connection. */
  function PeerOf(o: Obj): Obj
    requires o.Unix?
  {
    if o.e <= 1 then Unix(o.c, 1 - o.e) else o
  }

  class Files {
    var tables: seq<seq<Entry>>
    /** Descriptors attached to messages in flight, per connection end that will read them. */
    var queues: seq<seq<seq<Obj>>>
    /** Connections waiting to be accepted, per listener. */
    var backlogs: seq<seq<nat>>
    /** The count fields of all objects. */
    var counts: Bag
    /** What has storage. */
    var used: set<Store>

    ghost predicate Shaped()
      reads this
    {
      && |tables| == MAX_PROCS && |queues| == 2 * MAX_CONNS && |backlogs| == MAX_LISTEN
      && forall l :: 0 <= l < MAX_PROCS ==> |tables[l]| == MAX_FDS
    }

    /** Each count is exactly the number of holders, plus the references being given up in `x`. */
    ghost predicate Exact(x: Bag)
      reads this
    {
      counts == Held(tables, queues, backlogs) + x
    }

    /** Storage is there exactly for what is referred to, and what is gone, but for `st`, holds nothing. */
    ghost predicate StorageBut(gone: set<Store>)
      reads this
    {
      && Shaped()
      && (forall o :: o in counts ==> ValidObj(o))
      && (forall st :: st in used <==> HasEnd(counts, st))
      && QueuesEmpty(queues, used + gone) && BacklogsEmpty(backlogs, used + gone)
    }

    ghost predicate Valid(x: Bag)
      reads this
    {
      Shaped() && Exact(x) && StorageBut({})
    }

    /** References on their way: in flight or waiting to be accepted. */
    ghost function Transit(): nat
      reads this
    {
      |InQueues(queues)| + |InBacklogs(backlogs)|
    }

    constructor ()
      ensures Valid(multiset{}) && used == {} && forall l :: 0 <= l < MAX_PROCS ==> tables[l] == DefaultTable()
    {
      tables := seq(MAX_PROCS, _ => DefaultTable());
      queues := seq(2 * MAX_CONNS, _ => []);
      backlogs := seq(MAX_LISTEN, _ => []);
      counts, used := multiset{}, {};
      new;
      NothingHeld(tables, queues, backlogs);
    }

    /** Only references in transit may have gone, and storage. */
    twostate predicate OnlyGone()
      reads this
    {
      && used <= old(used) && |queues| == |old(queues)| && |backlogs| == |old(backlogs)|
      && (forall k :: 0 <= k < |queues| ==> queues[k] == old(queues)[k] || queues[k] == [])
      && (forall k :: 0 <= k < |backlogs| ==> backlogs[k] == old(backlogs)[k] || backlogs[k] == [])
    }

    /** drop_ref: one reference to `o` is given up. Storage goes with the last one, and then so do the
        references it held itself. */
    method DropRef(o: Obj, ghost x: Bag)
      requires Valid(x + multiset{o})
      modifies this
      ensures Valid(x) && tables == old(tables) && OnlyGone() && Transit() <= old(Transit())
      decreases Transit(), 1, 0
    {
      hide InQueues, InBacklogs, InTables, HasEnd, Exact, StorageBut;
      var last := Uncount(o, x);
      if !last { return; }
      match StoreOf(o) {
        case ConnStore(c) => DropConn(c, x);
        case ListenStore(i) => DropListener(i, x);
        case _ => Childless(StoreOf(o));
      }
    }

    /** The count goes down; with the last reference to any end the storage is gone. */
    method Uncount(o: Obj, ghost x: Bag) returns (last: bool)
      requires Valid(x + multiset{o})
      modifies this`counts, this`used
      ensures Shaped() && Exact(x) && ValidObj(o) && used == if last then old(used) - {StoreOf(o)} else old(used)
      ensures if last then StorageBut({StoreOf(o)}) && StoreOf(o) !in used else StorageBut({})
    {
      hide InQueues, InBacklogs, InTables, HasEnd, QueuesEmpty, BacklogsEmpty;
      var st := StoreOf(o);
      ghost var before := counts;
      OneGone(counts, Held(tables, queues, backlogs), x, o);
      counts := counts - multiset{o};
      forall s: Store | s != st ensures HasEnd(counts, s) <==> HasEnd(before, s) { OtherEnds(before, counts, o, s); }
      HasOwnEnd(before, o);
      last := !HasEnd(counts, st);
      assert used + {} == used;
      if last {
        used := used - {st};
        assert used + {st} == old(used);
      }
    }

    /** Storage that holds no references itself. */
    lemma Childless(st: Store)
      requires StorageBut({st}) && st !in used && !st.ConnStore? && !st.ListenStore?
      ensures StorageBut({})
    {
      hide HasEnd;
      forall c: nat | c < MAX_CONNS && ConnStore(c) !in used + {} ensures ConnStore(c) !in used + {st} { }
      forall i: nat | i < MAX_LISTEN && ListenStore(i) !in used + {} ensures ListenStore(i) !in used + {st} { }
    }

    /** A connection is gone: what was still in flight inside it is given up. */
    method DropConn(c: nat, ghost x: Bag)
      requires c < MAX_CONNS && Exact(x) && StorageBut({ConnStore(c)}) && ConnStore(c) !in used
      modifies this
      ensures Valid(x) && tables == old(tables) && OnlyGone() && Transit() <= old(Transit())
      decreases Transit(), 0, 0
    {
      hide InQueues, InBacklogs, InTables, HasEnd, Flat, QueuesEmpty, BacklogsEmpty;
      ghost var before := queues;
      var pending := Flat(queues[2 * c]) + Flat(queues[2 * c + 1]);
      queues := queues[2 * c := []][2 * c + 1 := []];
      ConnEmptied(before, c);
      assert used + {ConnStore(c)} == used + {} + {ConnStore(c)};
      ConnCleared(before, used + {}, c);
      NotAListener(backlogs, used + {}, c);
      Regrouped(counts, InTables(tables), InQueues(queues), InQueues(before), multiset(pending), InBacklogs(backlogs), x);
      if pending != [] { DropAll(pending, x); } else { NothingMore(x); }
    }

    /** A listener is gone: the connections nobody accepted lose their server ends. */
    method DropListener(i: nat, ghost x: Bag)
      requires i < MAX_LISTEN && Exact(x) && StorageBut({ListenStore(i)}) && ListenStore(i) !in used
      modifies this
      ensures Valid(x) && tables == old(tables) && OnlyGone() && Transit() <= old(Transit())
      decreases Transit(), 0, 0
    {
      hide InQueues, InBacklogs, InTables, HasEnd, BacklogsEmpty, QueuesEmpty;
      ghost var before := backlogs;
      var pending := ServerEnds(backlogs[i]);
      backlogs := backlogs[i := []];
      ListenerEmptied(before, i);
      assert used + {ListenStore(i)} == used + {} + {ListenStore(i)};
      ListenerCleared(before, used + {}, i);
      NotAConn(queues, used + {}, i);
      RegroupedBacklog(counts, InTables(tables), InQueues(queues), InBacklogs(before), multiset(pending), InBacklogs(backlogs), x);
      if pending != [] { DropAll(pending, x); } else { NothingMore(x); }
    }

    lemma NothingMore(x: Bag)
      requires Exact(x + multiset{})
      ensures Exact(x)
    {
      assert x + multiset{} == x;
    }

    /** The references in `fs` are given up one after the other. */
    method DropAll(fs: seq<Obj>, ghost x: Bag)
      requires Valid(x + multiset(fs))
      modifies this
      ensures Valid(x) && tables == old(tables) && OnlyGone() && Transit() <= old(Transit())
      decreases Transit(), 2, |fs|
    {
      hide InQueues, InBacklogs, InTables, HasEnd;
      if fs == [] {
        assert x + multiset(fs) == x;
        return;
      }
      assert fs == [fs[0]] + fs[1..];
      assert x + multiset(fs) == (x + multiset(fs[1..])) + multiset{fs[0]};
      DropRef(fs[0], x + multiset(fs[1..]));
      DropAll(fs[1..], x);
    }

    // -------------------------------------------------------------- tables

    /** add_ref, for something that is referred to already. */
    method AddRef(o: Obj, ghost x: Bag)
      requires Valid(x) && o in counts
      modifies this`counts
      ensures Valid(x + multiset{o})
      ensures counts == old(counts) + multiset{o}
    {
      hide InQueues, InBacklogs, InTables, HasEnd;
      ghost var before := counts;
      counts := counts + multiset{o};
      forall s: Store ensures HasEnd(counts, s) <==> HasEnd(before, s) { SameEnds(before, counts, s); }
      assert counts == Held(tables, queues, backlogs) + (x + multiset{o});
    }

    /** The descriptor's entry, if there is one. */
    method Get(l: nat, fd: Fd) returns (r: Result<Entry, nat>)
      requires Shaped() && l < MAX_PROCS
      ensures r.Ok? <==> fd < MAX_FDS && tables[l][fd] != Free
      ensures r.Ok? ==> r.value == tables[l][fd]
      ensures r.Err? ==> r.error == EBADF
    {
      if fd >= MAX_FDS || tables[l][fd] == Free { return Err(EBADF); }
      r := Ok(tables[l][fd]);
    }

    /** install: the lowest free descriptor from `min` on. A counted object brings its reference along. */
    method Install(l: nat, f: Entry, min: nat, ghost x: Bag) returns (r: Result<Fd, nat>)
      requires Valid(x + Named(f)) && l < MAX_PROCS && f != Free
      modifies this`tables
      ensures r.Err? ==> Valid(x + Named(f)) && tables == old(tables) && r.error == EMFILE
      ensures r.Err? ==> forall k :: min <= k < MAX_FDS ==> tables[l][k] != Free
      ensures r.Ok? ==> Valid(x) && min <= r.value < MAX_FDS && old(tables)[l][r.value] == Free
      ensures r.Ok? ==> tables == old(tables)[l := old(tables)[l][r.value := f]]
      ensures r.Ok? ==> forall k :: min <= k < r.value ==> old(tables)[l][k] != Free
    {
      hide InQueues, InBacklogs, InTables, HasEnd, Exact, StorageBut;
      var k := min;
      while k < MAX_FDS
        invariant min <= k && forall j :: min <= j < k && j < MAX_FDS ==> tables[l][j] != Free
      {
        if tables[l][k] == Free {
          assert x + Named(Free) == x;
          SetEntry(l, k, f, x);
          return Ok(k);
        }
        k := k + 1;
      }
      r := Err(EMFILE);
    }

    /** An entry is replaced: the reference of the new one goes in, that of the old one comes out. */
    method SetEntry(l: nat, k: nat, f: Entry, ghost x: Bag)
      requires Valid(x + Named(f)) && l < MAX_PROCS && k < MAX_FDS
      modifies this`tables
      ensures Valid(x + Named(old(tables)[l][k])) && tables == old(tables)[l := old(tables)[l][k := f]]
    {
      hide InQueues, InBacklogs, InTables, HasEnd, Named;
      EntryChanges(tables, l, k, f);
      ghost var was := tables[l][k];
      ghost var before := InTables(tables);
      tables := tables[l := tables[l][k := f]];
      RegroupedTable(counts, InTables(tables), before, Named(was), Named(f), InQueues(queues), InBacklogs(backlogs), x);
    }

    /** Gives up what an entry refers to. */
    method DropEntry(f: Entry, ghost x: Bag)
      requires Valid(x + Named(f))
      modifies this
      ensures Valid(x) && tables == old(tables) && OnlyGone()
    {
      hide InQueues, InBacklogs, InTables, HasEnd, Exact, StorageBut;
      if f.Open? { DropRef(f.obj, x); } else { assert x + multiset{} == x; }
    }

    method Close(l: nat, fd: Fd) returns (r: Result<nat, nat>)
      requires Valid(multiset{}) && l < MAX_PROCS
      modifies this
      ensures Valid(multiset{})
      ensures r.Ok? <==> fd < MAX_FDS && old(tables)[l][fd] != Free
      ensures r.Ok? ==> tables == old(tables)[l := old(tables)[l][fd := Free]]
      ensures r.Err? ==> r.error == EBADF && tables == old(tables) && counts == old(counts)
    {
      hide InQueues, InBacklogs, InTables, HasEnd, Exact, StorageBut;
      var f := Get(l, fd);
      if f.Err? { return Err(f.error); }
      assert multiset{} + Named(Free) == multiset{};
      SetEntry(l, fd, Free, multiset{});
      DropEntry(f.value, multiset{});
      r := Ok(0);
    }

    /** dup, dup2 and F_DUPFD: `exact` puts the copy at `min`, otherwise it goes to the lowest free descriptor
        from `min` on. */
    method Dup(l: nat, fd: Fd, min: nat, exact: bool, cloexec: bool) returns (r: Result<Fd, nat>)
      requires Valid(multiset{}) && l < MAX_PROCS
      modifies this
      ensures Valid(multiset{})
      ensures r.Err? ==> tables == old(tables) && counts == old(counts)
      ensures r.Ok? && r.value == fd ==> tables == old(tables)
      ensures r.Ok? && r.value != fd ==>
                fd < MAX_FDS && r.value < MAX_FDS && old(tables)[l][fd] != Free
                && tables == old(tables)[l := old(tables)[l][r.value := old(tables)[l][fd].(cloexec := cloexec)]]
      ensures r.Ok? ==> if exact then r.value == min else min <= r.value < MAX_FDS && old(tables)[l][r.value] == Free
      ensures r.Ok? && !exact ==> forall k :: min <= k < r.value ==> old(tables)[l][k] != Free
      ensures r.Ok? <==> fd < MAX_FDS && old(tables)[l][fd] != Free
                         && if exact then min < MAX_FDS else exists k :: min <= k < MAX_FDS && old(tables)[l][k] == Free
    {
      hide InQueues, InBacklogs, InTables, HasEnd, Exact, StorageBut, Held, Shaped, OnlyGone;
      ShapeOf(multiset{});
      var g := Get(l, fd);
      if g.Err? { return Err(g.error); }
      var f := Copied(g.value, cloexec);
      if exact && min >= MAX_FDS { return Err(EBADF); }
      if exact && min == fd { return Ok(fd); }
      NamedHeld(l, fd);
      Refer(l, fd, multiset{});
      if !exact {
        r := Install(l, f, min, multiset{});
        if r.Err? { Unrefer(f, multiset{}); }
        return;
      }
      var was := tables[l][min];
      SetEntry(l, min, f, multiset{});
      DropEntry(was, multiset{});
      r := Ok(min);
    }

    lemma NamedHeld(l: nat, fd: Fd)
      requires l < |tables| && fd < |tables[l]|
      ensures Named(tables[l][fd]) <= Held(tables, queues, backlogs)
    {
      hide InQueues, InBacklogs, InTables;
      if tables[l][fd].Open? { EntryHeld(tables, l, fd); }
    }

    /** One more reference to whatever descriptor `fd` refers to. */
    method Refer(l: nat, fd: Fd, ghost x: Bag)
      requires Valid(x) && l < MAX_PROCS && fd < MAX_FDS
      modifies this`counts
      ensures Valid(x + Named(tables[l][fd])) && counts == old(counts) + Named(tables[l][fd])
    {
      hide InQueues, InBacklogs, InTables, HasEnd;
      if tables[l][fd].Open? {
        EntryHeld(tables, l, fd);
        AddRef(tables[l][fd].obj, x);
      } else {
        assert x + multiset{} == x;
      }
    }

    /** Takes back a reference that came to nothing; the object has others. */
    method Unrefer(f: Entry, ghost x: Bag)
      requires Valid(x + Named(f)) && Named(f) <= Held(tables, queues, backlogs)
      modifies this`counts
      ensures Valid(x) && counts == old(counts) - Named(f)
    {
      hide InQueues, InBacklogs, InTables, HasEnd;
      if f.Open? {
        ghost var before := counts;
        var o := f.obj;
        OneGone(counts, Held(tables, queues, backlogs), x, o);
        counts := counts - multiset{o};
        forall s: Store ensures HasEnd(counts, s) <==> HasEnd(before, s) { SameEnds(counts, before, s); }
      } else {
        assert x + multiset{} == x;
      }
    }

    lemma ShapeOf(x: Bag)
      requires Valid(x)
      ensures Shaped() && |tables| == MAX_PROCS && forall l :: 0 <= l < MAX_PROCS ==> |tables[l]| == MAX_FDS
    {
    }

    // -------------------------------------------------------------- whole tables

    /** clone_table: the child gets a copy, with one more reference for every entry. Its own table names nothing
        yet. */
    method CloneTable(src: nat, dst: nat)
      requires Valid(multiset{}) && src < MAX_PROCS && dst < MAX_PROCS && src != dst
      requires forall k :: 0 <= k < MAX_FDS ==> !tables[dst][k].Open?
      modifies this`tables, this`counts
      ensures Valid(multiset{}) && tables == old(tables)[dst := old(tables)[src]] && used == old(used)
    {
      hide InQueues, InBacklogs, InTables, HasEnd, InTable, Named;
      var t := tables[src];
      ghost var x := multiset{};
      NoneIn();
      for i := 0 to MAX_FDS
        invariant Valid(x) && x == InTable(t[..i]) && tables == old(tables) && used == old(used)
      {
        Refer(src, i, x);
        InTableNext(t, i);
        x := x + Named(t[i]);
      }
      assert t[..MAX_FDS] == t;
      SetTable(dst, t, multiset{});
    }

    /** A whole table is replaced by one whose references are paid for; the old one named nothing. */
    method SetTable(l: nat, t: seq<Entry>, ghost x: Bag)
      requires Valid(x + InTable(t)) && l < MAX_PROCS && |t| == MAX_FDS
      requires forall k :: 0 <= k < MAX_FDS ==> !tables[l][k].Open?
      modifies this`tables
      ensures Valid(x) && tables == old(tables)[l := t]
    {
      hide InQueues, InBacklogs, InTables, HasEnd, InTable, Named;
      NoneNamed(tables[l]);
      TablesPart(tables, l, t);
      ghost var before := InTables(tables);
      tables := tables[l := t];
      RegroupedTable(counts, InTables(tables), before, multiset{}, InTable(t), InQueues(queues), InBacklogs(backlogs), x);
      assert x + multiset{} == x;
    }

    /** release: a finished process gives up everything its table names. */
    method Release(l: nat)
      requires Valid(multiset{}) && l < MAX_PROCS
      modifies this
      ensures Valid(multiset{}) && |tables| == MAX_PROCS && |tables[l]| == MAX_FDS && tables == old(tables)[l := tables[l]]
      ensures forall k :: 0 <= k < MAX_FDS ==> tables[l][k] == if k <= 2 then Plain(false) else Free
    {
      hide InQueues, InBacklogs, InTables, HasEnd, InTable, Named, Exact, StorageBut, OnlyGone;
      var t := tables[l];
      TakeTable(l);
      ghost var all := tables;
      assert t[0..] == t && multiset{} + InTable(t) == InTable(t);
      for i := 0 to MAX_FDS
        invariant Valid(InTable(t[i..])) && tables == all
      {
        InTableFirst(t, i);
        DropEntry(t[i], InTable(t[i + 1..]));
      }
      NoneIn();
      assert t[MAX_FDS..] == [];
    }

    /** The table goes back to its default, and what it named is in the caller's hands. */
    method TakeTable(l: nat)
      requires Valid(multiset{}) && l < MAX_PROCS
      modifies this`tables
      ensures Valid(InTable(old(tables)[l])) && tables == old(tables)[l := DefaultTable()]
    {
      hide InQueues, InBacklogs, InTables, HasEnd, InTable, Named;
      NoneNamed(DefaultTable());
      TablesPart(tables, l, DefaultTable());
      ghost var before, was := InTables(tables), InTable(tables[l]);
      tables := tables[l := DefaultTable()];
      ghost var none: Bag := multiset{};
      assert none + none == none && none + was == was;
      RegroupedTable(counts, InTables(tables), before, was, none, InQueues(queues), InBacklogs(backlogs), none);
    }

    /** exec_cleanup: exactly the descriptors marked close-on-exec are closed. */
    method ExecCleanup(l: nat)
      requires Valid(multiset{}) && l < MAX_PROCS
      modifies this
      ensures Valid(multiset{}) && |tables| == MAX_PROCS && |tables[l]| == MAX_FDS
      ensures forall m :: 0 <= m < MAX_PROCS && m != l ==> tables[m] == old(tables)[m]
      ensures forall k :: 0 <= k < MAX_FDS ==>
                tables[l][k] == if old(tables)[l][k] != Free && old(tables)[l][k].cloexec then Free else old(tables)[l][k]
    {
      hide InQueues, InBacklogs, InTables, HasEnd, InTable, Exact, StorageBut, OnlyGone;
      ShapeOf(multiset{});
      for i := 0 to MAX_FDS
        invariant Valid(multiset{}) && |tables| == MAX_PROCS && |tables[l]| == MAX_FDS
        invariant forall m :: 0 <= m < MAX_PROCS && m != l ==> tables[m] == old(tables)[m]
        invariant forall k :: 0 <= k < MAX_FDS ==> tables[l][k] == if k < i && old(tables)[l][k] != Free && old(tables)[l][k].cloexec then Free else old(tables)[l][k]
      {
        var f := tables[l][i];
        if f != Free && f.cloexec {
          assert multiset{} + Named(Free) == multiset{};
          SetEntry(l, i, Free, multiset{});
          DropEntry(f, multiset{});
        }
      }
    }

    // -------------------------------------------------------------- new objects

    /** An object in unused storage comes into being with one reference, or two for the two ends of a pipe or
        a connection, all in the caller's hands. */
    method Begin(st: Store, ends: seq<Obj>, ghost x: Bag)
      requires Valid(x) && st !in used && ends != [] && forall o :: o in ends ==> StoreOf(o) == st && ValidObj(o)
      modifies this`counts, this`used
      ensures Valid(x + multiset(ends)) && used == old(used) + {st}
    {
      hide InQueues, InBacklogs, InTables, HasEnd, QueuesEmpty, BacklogsEmpty;
      ghost var before, was := counts, used;
      counts := counts + multiset(ends);
      used := used + {st};
      assert ends[0] in ends;
      HasOwnEnd(counts, ends[0]);
      forall s: Store | s != st ensures HasEnd(counts, s) <==> HasEnd(before, s) { ElseEnds(before, counts, ends, st, s); }
      assert was + {} == was && used + {} == was + {st};
      MoreAlive(queues, backlogs, was, st);
      assert counts == Held(tables, queues, backlogs) + (x + multiset(ends));
    }

    /** eventfd, epoll_create, socket, and the like: a new object with one descriptor, or none at all. */
    method NewObject(l: nat, o: Obj, cloexec: bool) returns (r: Result<Fd, nat>)
      requires Valid(multiset{}) && l < MAX_PROCS && !o.PipeR? && !o.PipeW? && !o.Unix? && ValidObj(o) && StoreOf(o) !in used
      modifies this
      ensures Valid(multiset{})
      ensures r.Ok? ==> r.value < MAX_FDS && tables == old(tables)[l := old(tables)[l][r.value := Open(o, cloexec)]]
      ensures r.Ok? ==> old(tables)[l][r.value] == Free && used == old(used) + {StoreOf(o)}
      ensures r.Err? ==> r.error == EMFILE && tables == old(tables) && used <= old(used) + {StoreOf(o)}
      ensures r.Err? ==> forall k :: 0 <= k < MAX_FDS ==> tables[l][k] != Free
    {
      hide InQueues, InBacklogs, InTables, HasEnd, InTable, Exact, StorageBut, Shaped;
      ShapeOf(multiset{});
      Begin(StoreOf(o), [o], multiset{});
      assert multiset([o]) == Named(Open(o, cloexec));
      r := Install(l, Open(o, cloexec), 0, multiset{});
      if r.Err? { DropEntry(Open(o, cloexec), multiset{}); }
    }

    /** pipe and socketpair: two ends, two descriptors, or nothing. */
    method NewPair(l: nat, st: Store, a: Obj, b: Obj, cloexec: bool) returns (r: Result<(Fd, Fd), nat>)
      requires Valid(multiset{}) && l < MAX_PROCS && a != b && StoreOf(a) == StoreOf(b) == st && st !in used && ValidObj(a) && ValidObj(b)
      modifies this
      ensures Valid(multiset{})
      ensures r.Ok? ==> r.value.0 < MAX_FDS && r.value.1 < MAX_FDS && r.value.0 != r.value.1
      ensures r.Ok? ==> old(tables)[l][r.value.0] == old(tables)[l][r.value.1] == Free && used == old(used) + {st}
      ensures r.Ok? ==> tables == old(tables)[l := old(tables)[l][r.value.0 := Open(a, cloexec)][r.value.1 := Open(b, cloexec)]]
      ensures r.Err? ==> tables == old(tables)
      ensures r.Err? ==> forall j, k :: 0 <= j < k < MAX_FDS ==> tables[l][j] != Free || tables[l][k] != Free
    {
      hide InQueues, InBacklogs, InTables, HasEnd, InTable, Exact, StorageBut, Shaped, OnlyGone;
      ShapeOf(multiset{});
      Begin(st, [a, b], multiset{});
      assert multiset{} + multiset([a, b]) == multiset{b} + multiset{a} == multiset{a} + multiset{b};
      var one := Install(l, Open(a, cloexec), 0, multiset{b});
      if one.Err? {
        DropRef(a, multiset{b});
        assert multiset{} + multiset{b} == multiset{b};
        DropRef(b, multiset{});
        return Err(one.error);
      }
      ghost var t := tables;
      assert multiset{} + multiset{b} == multiset{b};
      var two := Install(l, Open(b, cloexec), 0, multiset{});
      if two.Ok? {
        return Ok((one.value, two.value));
      }
      assert multiset{b} + Named(Free) == multiset{b};
      SetEntry(l, one.value, Free, multiset{b});
      DropRef(a, multiset{b});
      DropRef(b, multiset{});
      assert tables[l] == old(tables)[l];
      assert tables == old(tables);
      r := Err(two.error);
    }

    // -------------------------------------------------------------- listen, connect, accept

    /** The entry of descriptor `fd` becomes `f`, whose reference the caller brings, and gives up its own. */
    method Become(l: nat, fd: Fd, f: Entry)
      requires Valid(Named(f)) && l < MAX_PROCS && fd < MAX_FDS
      modifies this
      ensures Valid(multiset{}) && tables == old(tables)[l := old(tables)[l][fd := f]]
    {
      hide InQueues, InBacklogs, InTables, HasEnd, InTable, Exact, StorageBut, Shaped, OnlyGone;
      ShapeOf(Named(f));
      var was := tables[l][fd];
      assert multiset{} + Named(f) == Named(f);
      SetEntry(l, fd, f, multiset{});
      DropEntry(was, multiset{});
    }

    /** listen: an unconnected socket turns into a listener; a listener stays one. `place` is the free listener
        for the socket's address, or why there is none. */
    method Listen(l: nat, fd: Fd, place: Result<nat, nat>) returns (r: Result<nat, nat>)
      requires Valid(multiset{}) && l < MAX_PROCS
      requires place.Ok? ==> place.value < MAX_LISTEN && ListenStore(place.value) !in used
      modifies this
      ensures Valid(multiset{})
      ensures r.Ok? <==> fd < MAX_FDS && (IsListener(old(tables)[l][fd]) || (IsSocket(old(tables)[l][fd]) && place.Ok?))
      ensures r.Ok? && IsListener(old(tables)[l][fd]) ==> tables == old(tables) && counts == old(counts) && used == old(used)
      ensures r.Ok? && !IsListener(old(tables)[l][fd]) ==>
                tables == old(tables)[l := old(tables)[l][fd := old(tables)[l][fd].(obj := ReferenceBags.Listen(place.value))]]
      ensures r.Err? ==> tables == old(tables) && counts == old(counts) && used == old(used)
    {
      hide InQueues, InBacklogs, InTables, HasEnd, InTable, Exact, StorageBut, Shaped;
      ShapeOf(multiset{});
      var g := Get(l, fd);
      if g.Err? { return Err(g.error); }
      if IsListener(g.value) { return Ok(0); }
      if !IsSocket(g.value) { return Err(EOPNOTSUPP); }
      if place.Err? { return place; }
      var o := ReferenceBags.Listen(place.value);
      Begin(ListenStore(place.value), [o], multiset{});
      assert multiset{} + multiset([o]) == Named(g.value.(obj := o));
      Become(l, fd, g.value.(obj := o));
      r := Ok(0);
    }

    /** connect to a local address: a new connection, whose client end takes the place of the socket and whose
        server end waits at the listener. `at` is the listener at that address and `conn` a free connection, or
        why there is none. */
    method Connect(l: nat, fd: Fd, at: Result<nat, nat>, conn: Result<nat, nat>) returns (r: Result<nat, nat>)
      requires Valid(multiset{}) && l < MAX_PROCS && (at.Ok? ==> at.value < MAX_LISTEN && ListenStore(at.value) in used)
      requires conn.Ok? ==> conn.value < MAX_CONNS && ConnStore(conn.value) !in used
      modifies this
      ensures Valid(multiset{}) && |old(backlogs)| == MAX_LISTEN
      ensures r.Ok? <==> fd < MAX_FDS && IsSocket(old(tables)[l][fd]) && at.Ok? && |old(backlogs)[at.value]| < BACKLOG && conn.Ok?
      ensures r.Ok? ==> tables == old(tables)[l := old(tables)[l][fd := old(tables)[l][fd].(obj := Unix(conn.value, 0))]]
      ensures r.Err? ==> tables == old(tables) && backlogs == old(backlogs) && used == old(used)
    {
      hide InQueues, InBacklogs, InTables, HasEnd, InTable, Exact, StorageBut, Shaped;
      ShapeOf(multiset{});
      var g := Get(l, fd);
      if g.Err? { return Err(g.error); }
      ListenersShape(multiset{});
      if !IsSocket(g.value) { return Err(ENOTSOCK); }
      if at.Err? { return at; }
      var i := at.value;
      if |backlogs[i]| >= BACKLOG { return Err(EAGAIN); }
      if conn.Err? { return conn; }
      var c := conn.value;
      Begin(ConnStore(c), [Unix(c, 0), Unix(c, 1)], multiset{});
      assert multiset{} + multiset([Unix(c, 0), Unix(c, 1)]) == multiset{Unix(c, 0)} + multiset{Unix(c, 1)};
      Enqueue(i, c, multiset{Unix(c, 0)});
      assert multiset{Unix(c, 0)} == Named(g.value.(obj := Unix(c, 0)));
      Become(l, fd, g.value.(obj := Unix(c, 0)));
      r := Ok(0);
    }

    lemma ListenersShape(x: Bag)
      requires Valid(x)
      ensures |backlogs| == MAX_LISTEN && |queues| == 2 * MAX_CONNS
    {
    }

    /** The server end of connection `c` waits at listener `i`. */
    method Enqueue(i: nat, c: nat, ghost x: Bag)
      requires Valid(x + multiset{Unix(c, 1)}) && i < MAX_LISTEN && ListenStore(i) in used
      modifies this`backlogs
      ensures Valid(x) && |old(backlogs)| == MAX_LISTEN && backlogs == old(backlogs)[i := old(backlogs)[i] + [c]]
    {
      hide InQueues, InBacklogs, InTables, HasEnd, QueuesEmpty;
      ghost var before := backlogs;
      var b := backlogs[i] + [c];
      BacklogsPart(backlogs, i, b);
      assert ServerEnds(b) == ServerEnds(backlogs[i]) + [Unix(c, 1)];
      backlogs := backlogs[i := b];
      OneMore(InBacklogs(backlogs), multiset(ServerEnds(before[i])), InBacklogs(before), multiset{Unix(c, 1)});
      Regrouping(counts, InTables(tables) + InQueues(queues), InBacklogs(before), InBacklogs(backlogs), multiset{Unix(c, 1)}, x);
    }

    /** accept: the connection that waited longest gets a descriptor for its server end, or is given up. */
    method Accept(l: nat, fd: Fd, cloexec: bool) returns (r: Result<Fd, nat>)
      requires Valid(multiset{}) && l < MAX_PROCS
      modifies this
      ensures Valid(multiset{})
      ensures r.Ok? ==> fd < MAX_FDS && old(tables)[l][fd].Open? && old(tables)[l][fd].obj.Listen? && r.value < MAX_FDS
      ensures r.Ok? ==> var i := old(tables)[l][fd].obj.i;
                i < MAX_LISTEN == |old(backlogs)| && old(backlogs)[i] != [] && backlogs == old(backlogs)[i := old(backlogs)[i][1..]]
                && tables == old(tables)[l := old(tables)[l][r.value := Open(Unix(old(backlogs)[i][0], 1), cloexec)]]
      ensures r.Err? ==> tables == old(tables)
      ensures r.Err? ==> !(fd < MAX_FDS && old(tables)[l][fd].Open? && old(tables)[l][fd].obj.Listen?)
                         || (0 <= old(tables)[l][fd].obj.i < |old(backlogs)| && old(backlogs)[old(tables)[l][fd].obj.i] == [])
                         || forall k :: 0 <= k < MAX_FDS ==> tables[l][k] != Free
      ensures r == Err(EAGAIN) ==> backlogs == old(backlogs) && counts == old(counts)
    {
      hide InQueues, InBacklogs, InTables, HasEnd, InTable, Exact, StorageBut, Shaped, OnlyGone;
      ShapeOf(multiset{});
      ListenersShape(multiset{});
      var g := Get(l, fd);
      if g.Err? { return Err(g.error); }
      if !g.value.Open? || !g.value.obj.Listen? { return Err(EINVAL); }
      var i := g.value.obj.i;
      HeldValid(l, fd, multiset{});
      if backlogs[i] == [] { return Err(EAGAIN); }
      var c := backlogs[i][0];
      Dequeue(i, multiset{});
      assert multiset{} + multiset{Unix(c, 1)} == multiset{} + Named(Open(Unix(c, 1), cloexec));
      r := Install(l, Open(Unix(c, 1), cloexec), 0, multiset{});
      if r.Err? {
        DropRef(Unix(c, 1), multiset{});
      }
    }

    /** What a descriptor names is an object, and it has storage. */
    lemma HeldValid(l: nat, fd: Fd, x: Bag)
      requires Valid(x) && l < MAX_PROCS && fd < MAX_FDS && tables[l][fd].Open?
      ensures ValidObj(tables[l][fd].obj) && StoreOf(tables[l][fd].obj) in used && tables[l][fd].obj in counts
    {
      hide InQueues, InBacklogs, InTables, HasEnd;
      EntryHeld(tables, l, fd);
      HasOwnEnd(counts, tables[l][fd].obj);
    }

    method Dequeue(i: nat, ghost x: Bag)
      requires Valid(x) && i < MAX_LISTEN == |backlogs| && backlogs[i] != []
      modifies this`backlogs
      ensures Valid(x + multiset{Unix(old(backlogs)[i][0], 1)}) && backlogs == old(backlogs)[i := old(backlogs)[i][1..]]
    {
      hide InQueues, InBacklogs, InTables, HasEnd, QueuesEmpty;
      ghost var before := backlogs;
      var b := backlogs[i][1..];
      BacklogsPart(backlogs, i, b);
      assert ServerEnds(backlogs[i]) == [Unix(backlogs[i][0], 1)] + ServerEnds(b);
      backlogs := backlogs[i := b];
      OneMore(InBacklogs(before), multiset(ServerEnds(b)), InBacklogs(backlogs), multiset{Unix(before[i][0], 1)});
      RegroupedBacklog(counts, InTables(tables), InQueues(queues), InBacklogs(before), multiset{Unix(before[i][0], 1)}, InBacklogs(backlogs), x);
    }

    // -------------------------------------------------------------- descriptors in messages

    /** sendmsg: each descriptor gains a reference, which travels with the message if it is queued (`room`) and
        is taken back otherwise. */
    method Send(l: nat, fd: Fd, fds: seq<Fd>, room: bool) returns (r: Result<nat, nat>)
      requires Valid(multiset{}) && l < MAX_PROCS
      modifies this
      ensures Valid(multiset{}) && tables == old(tables)
      ensures r.Ok? <==> room && fd < MAX_FDS && tables[l][fd].Open? && tables[l][fd].obj.Unix? && |fds| <= MAX_FILES
                         && (forall i :: 0 <= i < |fds| ==> fds[i] < MAX_FDS && tables[l][fds[i]] != Free)
                         && PeerOf(tables[l][fd].obj) in old(counts)
      ensures r.Err? ==> queues == old(queues) && counts == old(counts)
      ensures r.Ok? ==> room && fd < MAX_FDS && tables[l][fd].Open? && tables[l][fd].obj.Unix?
      ensures r.Ok? ==> var o := tables[l][fd].obj; var k := 2 * o.c + 1 - o.e;
                0 <= k < 2 * MAX_CONNS == |old(queues)| && |fds| <= MAX_FILES && (forall j :: 0 <= j < |fds| ==> fds[j] < MAX_FDS)
                && queues == old(queues)[k := old(queues)[k] + AsMessage(Objects(tables[l], fds))]
    {
      hide InQueues, InBacklogs, InTables, HasEnd, InTable, Exact, StorageBut, OnlyGone, Objects, AsMessage;
      ShapeOf(multiset{});
      ListenersShape(multiset{});
      var g := Get(l, fd);
      if g.Err? { return Err(g.error); }
      if !g.value.Open? || !g.value.obj.Unix? { return Err(ENOTSOCK); }
      if |fds| > MAX_FILES { return Err(EINVAL); }
      var good := AllOpen(l, fds);
      if !good { return Err(EBADF); }
      HeldValid(l, fd, multiset{});
      var o := g.value.obj;
      if !room || Unix(o.c, 1 - o.e) !in counts { return Err(EPIPE); }
      var files := ReferAll(l, fds);
      Attach(2 * o.c + 1 - o.e, o, files);
      r := Ok(0);
    }

    method AllOpen(l: nat, fds: seq<Fd>) returns (good: bool)
      requires Shaped() && l < MAX_PROCS
      ensures good <==> forall i :: 0 <= i < |fds| ==> fds[i] < MAX_FDS && tables[l][fds[i]] != Free
    {
      for j := 0 to |fds|
        invariant forall i :: 0 <= i < j ==> fds[i] < MAX_FDS && tables[l][fds[i]] != Free
      {
        var x := Get(l, fds[j]);
        if x.Err? { return false; }
      }
      good := true;
    }

    /** The objects of the descriptors, each with one more reference in the caller's hands. */
    method ReferAll(l: nat, fds: seq<Fd>) returns (files: seq<Obj>)
      requires Valid(multiset{}) && l < MAX_PROCS && forall j :: 0 <= j < |fds| ==> fds[j] < MAX_FDS
      requires Shaped()
      modifies this`counts
      ensures Valid(multiset(files)) && files == Objects(tables[l], fds)
      ensures counts == old(counts) + multiset(files)
    {
      hide InQueues, InBacklogs, InTables, HasEnd, InTable, Exact, StorageBut, Named, Objects, AsFiles;
      files := [];
      NoObjects(tables[l]);
      ghost var t := tables;
      for j := 0 to |fds|
        invariant Valid(multiset(files)) && tables == t && files == Objects(tables[l], fds[..j]) && counts == old(counts) + multiset(files)
      {
        Refer(l, fds[j], multiset(files));
        ObjectsNext(tables[l], fds, j);
        AsFilesBag(files, tables[l][fds[j]]);
        files := files + AsFiles(tables[l][fds[j]]);
      }
      assert fds[..|fds|] == fds;
    }

    /** A message with descriptors is queued for the peer of `o`. */
    method Attach(k: nat, o: Obj, files: seq<Obj>)
      requires Valid(multiset(files)) && o.Unix? && o.e < 2 && o.c < MAX_CONNS && o in counts && k == 2 * o.c + 1 - o.e
      modifies this`queues
      ensures Valid(multiset{}) && k < 2 * MAX_CONNS == |old(queues)|
      ensures queues == old(queues)[k := old(queues)[k] + AsMessage(files)]
    {
      hide InQueues, InBacklogs, InTables, HasEnd, InQueue, BacklogsEmpty;
      HasOwnEnd(counts, o);
      if files == [] {
        assert queues[k] + [] == queues[k] && queues == queues[k := queues[k]] && multiset(files) == multiset{};
        return;
      }
      ghost var before := queues;
      var q := queues[k] + [files];
      QueuesPart(queues, k, q);
      QueuePush(queues[k], files);
      queues := queues[k := q];
      OneMore(InQueues(queues), InQueue(before[k]), InQueues(before), multiset(files));
      assert multiset{} + multiset(files) == multiset(files);
      RegroupingQueue(counts, InTables(tables), InQueues(before), InQueues(queues), InBacklogs(backlogs), multiset(files), multiset{});
    }

    /** recvmsg, when the next bytes carry descriptors: the first `room` of them are installed as long as there
        are free descriptors, the others are given up. */
    method Receive(l: nat, o: Obj, room: nat, cloexec: bool) returns (got: seq<Fd>)
      requires Valid(multiset{}) && l < MAX_PROCS && o.Unix? && ValidObj(o)
      requires |queues| == 2 * MAX_CONNS && queues[Inbox(o)] != []
      modifies this
      ensures Valid(multiset{}) && |got| <= room && |got| <= |old(queues)[Inbox(o)][0]|
      ensures |tables| == MAX_PROCS == |old(tables)| && forall m :: 0 <= m < MAX_PROCS && m != l ==> tables[m] == old(tables)[m]
      ensures |tables[l]| == MAX_FDS == |old(tables)[l]|
      ensures forall j :: 0 <= j < |got| ==> got[j] < MAX_FDS && old(tables)[l][got[j]] == Free
                                             && tables[l][got[j]] == Open(old(queues)[Inbox(o)][0][j], cloexec)
      ensures |got| < room && |got| < |old(queues)[Inbox(o)][0]| ==> forall k :: 0 <= k < MAX_FDS ==> tables[l][k] != Free
      ensures Shrunk(old(queues)[Inbox(o) := old(queues)[Inbox(o)][1..]], queues)
    {
      hide InQueues, InBacklogs, InTables, HasEnd, InTable, Exact, StorageBut, Shaped;
      ShapeOf(multiset{});
      var files := Detach(Inbox(o));
      ghost var ts, rest := tables, queues;
      got := [];
      for j := 0 to |files|
        invariant Valid(multiset(files[j..])) && |got| <= room && |got| <= j && Shrunk(rest, queues)
        invariant |tables| == MAX_PROCS && |tables[l]| == MAX_FDS && forall m :: 0 <= m < MAX_PROCS && m != l ==> tables[m] == ts[m]
        invariant forall k :: 0 <= k < MAX_FDS && ts[l][k] != Free ==> tables[l][k] == ts[l][k]
        invariant |got| == j || |got| == room || forall k :: 0 <= k < MAX_FDS ==> tables[l][k] != Free
        invariant forall i :: 0 <= i < |got| ==> got[i] < MAX_FDS && ts[l][got[i]] == Free && tables[l][got[i]] == Open(files[i], cloexec)
      {
        assert files[j..] == [files[j]] + files[j + 1..];
        assert multiset(files[j..]) == multiset(files[j + 1..]) + multiset{files[j]};
        var placed: Result<Fd, nat> := Err(EMFILE);
        if |got| < room { placed := Install(l, Open(files[j], cloexec), 0, multiset(files[j + 1..])); }
        if placed.Ok? {
          got := got + [placed.value];
        } else {
          DropRef(files[j], multiset(files[j + 1..]));
        }
      }
      assert files[|files|..] == [];
    }

    /** read on a connection takes no descriptors: those attached are given up. */
    method Discard(o: Obj)
      requires Valid(multiset{}) && o.Unix? && ValidObj(o) && |queues| == 2 * MAX_CONNS && queues[Inbox(o)] != []
      modifies this
      ensures Valid(multiset{}) && tables == old(tables)
      ensures Shrunk(old(queues)[Inbox(o) := old(queues)[Inbox(o)][1..]], queues)
    {
      hide InQueues, InBacklogs, InTables, HasEnd, InTable, Exact, StorageBut, Shaped;
      var files := Detach(Inbox(o));
      assert multiset{} + multiset(files) == multiset(files);
      DropAll(files, multiset{});
    }

    /** The descriptors of the oldest message that has some leave the queue. */
    method Detach(k: nat) returns (files: seq<Obj>)
      requires Valid(multiset{}) && k < 2 * MAX_CONNS == |queues| && queues[k] != []
      modifies this`queues
      ensures files == old(queues)[k][0] && queues == old(queues)[k := old(queues)[k][1..]] && Valid(multiset(files))
    {
      hide InQueues, InBacklogs, InTables, HasEnd, InQueue, BacklogsEmpty;
      ghost var before := queues;
      files := queues[k][0];
      QueuesPart(queues, k, queues[k][1..]);
      QueuePop(queues[k]);
      queues := queues[k := queues[k][1..]];
      OneMore(InQueues(before), InQueue(before[k][1..]), InQueues(queues), multiset(files));
      assert multiset{} + multiset(files) == multiset(files);
      Regrouped(counts, InTables(tables), InQueues(queues), InQueues(before), multiset(files), InBacklogs(backlogs), multiset{});
      StillEmpty(before, used + {}, k);
    }
  }

  /** The counted objects that descriptors name. */
  function Objects(t: seq<Entry>, fds: seq<Fd>): seq<Obj>
  {
    if fds == [] then []
    else
      var last := fds[|fds| - 1];
      Objects(t, fds[..|fds| - 1]) + if last < |t| && t[last].Open? then [t[last].obj] else []
  }

  lemma ObjectsNext(t: seq<Entry>, fds: seq<Fd>, j: nat)
    requires j < |fds| && fds[j] < |t|
    ensures Objects(t, fds[..j + 1]) == Objects(t, fds[..j]) + AsFiles(t[fds[j]])
  {
    assert fds[..j + 1][..j] == fds[..j];
  }

  lemma NoObjects(t: seq<Entry>)
    ensures Objects(t, []) == []
  {
  }

  /** The object an entry names, if it names one. */
  function AsFiles(f: Entry): seq<Obj>
  {
    if f.Open? then [f.obj] else []
  }

  lemma AsFilesBag(files: seq<Obj>, f: Entry)
    ensures multiset(files + AsFiles(f)) == multiset(files) + Named(f)
  {
  }

  /** Counted objects are named one by one, in order. */
  lemma {:induction false} ObjectsEach(t: seq<Entry>, fds: seq<Fd>)
    requires forall i :: 0 <= i < |fds| ==> fds[i] < |t| && t[fds[i]].Open?
    ensures |Objects(t, fds)| == |fds| && forall i :: 0 <= i < |fds| ==> Objects(t, fds)[i] == t[fds[i]].obj
  {
    if fds != [] {
      var k := |fds| - 1;
      var init := fds[..k];
      assert forall i :: 0 <= i < k ==> init[i] == fds[i];
      ObjectsEach(t, init);
      assert Objects(t, fds) == Objects(t, init) + [t[fds[k]].obj];
    }
  }

  /** A message queued for its descriptors: none, no entry. */
  function AsMessage(files: seq<Obj>): seq<seq<Obj>>
  {
    if files == [] then [] else [files]
  }

  lemma NoneIn()
    ensures InTable([]) == multiset{}
  {
  }

  lemma NoneNamed(t: seq<Entry>)
    requires forall k :: 0 <= k < |t| ==> !t[k].Open?
    ensures InTable(t) == multiset{}
  {
    SumEmpty(seq(|t|, k requires 0 <= k < |t| => Named(t[k])));
  }

  lemma InTableNext(t: seq<Entry>, i: nat)
    requires i < |t|
    ensures InTable(t[..i + 1]) == InTable(t[..i]) + Named(t[i])
  {
    var a, b := t[..i], t[..i + 1];
    var parts := seq(|a|, k requires 0 <= k < |a| => Named(a[k]));
    assert seq(|b|, k requires 0 <= k < |b| => Named(b[k])) == parts + [Named(t[i])];
    SumAppend(parts, Named(t[i]));
  }

  lemma InTableFirst(t: seq<Entry>, i: nat)
    requires i < |t|
    ensures InTable(t[i..]) == InTable(t[i + 1..]) + Named(t[i])
  {
    var a, b := t[i + 1..], t[i..];
    var parts := seq(|a|, k requires 0 <= k < |a| => Named(a[k]));
    assert seq(|b|, k requires 0 <= k < |b| => Named(b[k])) == [Named(t[i])] + parts;
    SumFront(Named(t[i]), parts);
  }

  lemma ElseEnds(a: Bag, b: Bag, ends: seq<Obj>, st: Store, s: Store)
    requires s != st && b == a + multiset(ends) && forall o :: o in ends ==> StoreOf(o) == st
    ensures HasEnd(a, s) <==> HasEnd(b, s)
  {
    forall o: Obj | StoreOf(o) == s ensures o in a <==> o in b {
      assert o !in ends;
      assert multiset(ends)[o] == 0;
    }
  }

  lemma MoreAlive(qs: seq<seq<seq<Obj>>>, bs: seq<seq<nat>>, alive: set<Store>, st: Store)
    requires QueuesEmpty(qs, alive) && BacklogsEmpty(bs, alive)
    ensures QueuesEmpty(qs, alive + {st}) && BacklogsEmpty(bs, alive + {st})
  {
  }

  lemma StillEmpty(qs: seq<seq<seq<Obj>>>, alive: set<Store>, k: nat)
    requires QueuesEmpty(qs, alive) && k < 2 * MAX_CONNS && qs[k] != []
    ensures QueuesEmpty(qs[k := qs[k][1..]], alive)
  {
  }

  lemma OneMore(after: Bag, part: Bag, before: Bag, more: Bag)
    requires after + part == before + (part + more)
    ensures after == before + more
  {
    forall o: Obj ensures after[o] == (before + more)[o] { assert (after + part)[o] == (before + (part + more))[o]; }
  }

  /** What moves from the hand `h` into the backlogs, or the other way round. */
  lemma Regrouping(counts: Bag, rest: Bag, bs: Bag, bs': Bag, h: Bag, x: Bag)
    requires counts == rest + bs + (x + h) && bs' == bs + h
    ensures counts == rest + bs' + x
  {
  }

  lemma RegroupingQueue(counts: Bag, ts: Bag, qs: Bag, qs': Bag, bs: Bag, h: Bag, x: Bag)
    requires counts == ts + qs + bs + (x + h) && qs' == qs + h
    ensures counts == ts + qs' + bs + x
  {
  }

  function Copied(f: Entry, cloexec: bool): Entry
  {
    match f
    case Free => Free
    case Plain(_) => Plain(cloexec)
    case Open(o, _) => Open(o, cloexec)
  }

  lemma SameEnds(a: Bag, b: Bag, st: Store)
    requires forall o: Obj :: o in a <==> o in b
    ensures HasEnd(a, st) <==> HasEnd(b, st)
  {
  }

  lemma OneGone(counts: Bag, held: Bag, x: Bag, o: Obj)
    requires counts == held + (x + multiset{o})
    ensures o in counts && counts - multiset{o} == held + x
    ensures forall p: Obj :: p != o ==> (p in counts <==> p in counts - multiset{o})
    ensures o in held ==> o in counts - multiset{o}
  {
  }

  lemma {:induction false} NothingHeld(ts: seq<seq<Entry>>, qs: seq<seq<seq<Obj>>>, bs: seq<seq<nat>>)
    requires forall l, k :: 0 <= l < |ts| && 0 <= k < |ts[l]| ==> !ts[l][k].Open?
    requires (forall k :: 0 <= k < |qs| ==> qs[k] == []) && (forall k :: 0 <= k < |bs| ==> bs[k] == [])
    ensures Held(ts, qs, bs) == multiset{}
  {
    forall l | 0 <= l < |ts| ensures InTable(ts[l]) == multiset{} {
      SumEmpty(seq(|ts[l]|, k requires 0 <= k < |ts[l]| => Named(ts[l][k])));
    }
    SumEmpty(seq(|ts|, l requires 0 <= l < |ts| => InTable(ts[l])));
    SumEmpty(seq(|qs|, k requires 0 <= k < |qs| => InQueue(qs[k])));
    SumEmpty(seq(|bs|, k requires 0 <= k < |bs| => multiset(ServerEnds(bs[k]))));
  }

  /** Emptying both queues of a connection puts what was in flight there into the caller's hands. */
  lemma ConnEmptied(qs: seq<seq<seq<Obj>>>, c: nat)
    requires 2 * c + 1 < |qs|
    ensures var pending := Flat(qs[2 * c]) + Flat(qs[2 * c + 1]);
            InQueues(qs[2 * c := []][2 * c + 1 := []]) + multiset(pending) == InQueues(qs)
  {
    hide InQueues, InQueue, Flat;
    var a, b := qs[2 * c], qs[2 * c + 1];
    var one := qs[2 * c := []];
    QueuesPart(qs, 2 * c, []);
    QueuesPart(one, 2 * c + 1, []);
    EmptyQueue();
    FlatIn(a);
    FlatIn(b);
    var x, y, z, u, v := InQueues(qs), InQueues(one), InQueues(one[2 * c + 1 := []]), multiset(Flat(a)), multiset(Flat(b));
    assert multiset(Flat(a) + Flat(b)) == u + v;
    forall o: Obj ensures (z + (u + v))[o] == x[o] { assert (y + u)[o] == x[o] && (z + v)[o] == y[o]; }
  }

  lemma EmptyQueue()
    ensures InQueue([]) == multiset{}
  {
  }

  lemma ListenerEmptied(bs: seq<seq<nat>>, i: nat)
    requires i < |bs|
    ensures InBacklogs(bs[i := []]) + multiset(ServerEnds(bs[i])) == InBacklogs(bs)
  {
    hide InBacklogs;
    BacklogsPart(bs, i, []);
    assert ServerEnds([]) == [];
  }

  lemma Regrouped(counts: Bag, ts: Bag, qs': Bag, qs: Bag, pending: Bag, bs: Bag, x: Bag)
    requires counts == ts + qs + bs + x && qs' + pending == qs
    ensures counts == ts + qs' + bs + (x + pending) && |qs'| + |pending| == |qs|
  {
    forall o: Obj ensures counts[o] == (ts + qs' + bs + (x + pending))[o] { assert (qs' + pending)[o] == qs[o]; }
  }

  lemma RegroupedBacklog(counts: Bag, ts: Bag, qs: Bag, bs: Bag, pending: Bag, bs': Bag, x: Bag)
    requires counts == ts + qs + bs + x && bs' + pending == bs
    ensures counts == ts + qs + bs' + (x + pending) && |bs'| + |pending| == |bs|
  {
    forall o: Obj ensures counts[o] == (ts + qs + bs' + (x + pending))[o] { assert (bs' + pending)[o] == bs[o]; }
  }

  lemma RegroupedTable(counts: Bag, ts': Bag, ts: Bag, was: Bag, f: Bag, qs: Bag, bs: Bag, x: Bag)
    requires counts == ts + qs + bs + (x + f) && ts' + was == ts + f
    ensures counts == ts' + qs + bs + (x + was)
  {
    forall o: Obj ensures counts[o] == (ts' + qs + bs + (x + was))[o] { assert (ts' + was)[o] == (ts + f)[o]; }
  }
}
