/** The table of 256 process slots and the address spaces they share (kernel/src/process.rs:24-95,
    kernel/src/process.rs:801-850). A space lives in the slot of its owner and is kept for as long as a slot
    uses it, threads and vfork children included. */
module ProcessTable {
  const MAX_PROCS: nat := 256

  /** No slot: an idle CPU, no suspended vfork parent. */
  const IDLE: int := -1

  datatype State =
    | Unused | Ready | Running | SendBlocked | RecvBlocked | ReplyBlocked | Sleeping | FutexWait | WaitChild
    | VforkWait | IoWait | SigWait | Zombie

  datatype Message = Message(tag: nat, data: seq<nat>)

  /** `buf` is what the kernel last wrote through the process's message pointer, `ret` the return register
      of its saved context. */
  datatype Proc = Proc(pid: nat, state: State, leader: nat, mm: nat, members: nat, root: nat, vforkParent: int,
                       inbox: Message, msgPtr: nat, buf: Message, ret: int, peer: nat, sendTo: nat, wakeAt: nat,
                       killed: bool, linux: bool)

  type Table = seq<Proc>

  function Live(p: Proc): bool
  {
    p.state != Unused && p.state != Zombie
  }

  /** Slot `i` uses its space; `x` holds the slots that have died and not left it yet. */
  ghost predicate Uses(ps: Table, x: set<nat>, i: nat)
    requires i < |ps|
  {
    Live(ps[i]) || i in x
  }

  ghost function Users(ps: Table, x: set<nat>, m: nat): set<nat>
  {
    set i: nat | i < |ps| && Uses(ps, x, i) && ps[i].mm == m
  }

  /** Slot `m` holds an address space. */
  ghost predicate Owner(ps: Table, x: set<nat>, m: nat)
  {
    m < |ps| && ps[m].mm == m && (Uses(ps, x, m) || ps[m].state == Zombie)
  }

  ghost predicate SlotOk(ps: Table, x: set<nat>, i: nat)
    requires i < |ps|
  {
    && (i in x ==> ps[i].state != Zombie)
    && (Uses(ps, x, i) ==> Owner(ps, x, ps[i].mm) && ps[i].root == ps[ps[i].mm].root)
    && (ps[i].state == Zombie ==> ps[i].mm == i && ps[i].members > 0)
    && (Owner(ps, x, i) ==> ps[i].members == |Users(ps, x, i)|)
  }

  /** Every used slot has a space that is still there, every owner counts its users exactly, and a zombie
      guards a space that someone still uses. */
  ghost predicate SpacesOk(ps: Table, x: set<nat>)
  {
    && |ps| == MAX_PROCS && (forall i :: i in x ==> i < MAX_PROCS)
    && forall i: nat :: i < MAX_PROCS ==> SlotOk(ps, x, i)
  }

  /** A space is there exactly while some slot uses it. */
  lemma SpaceIffUsed(ps: Table, x: set<nat>, m: nat)
    requires SpacesOk(ps, x) && m < MAX_PROCS
    ensures Owner(ps, x, m) <==> Users(ps, x, m) != {}
    ensures Users(ps, x, m) == {} ==> ps[m].state != Zombie
  {
    assert SlotOk(ps, x, m);
    if Users(ps, x, m) != {} {
      var i :| i in Users(ps, x, m);
      assert SlotOk(ps, x, i);
    } else if Uses(ps, x, m) {
      UsesIn(ps, x, m);
    }
  }

  // ---------------------------------------------------------------- the page tables in existence

  ghost function OpenRoot(ps: Table, x: set<nat>, m: nat): multiset<nat>
    requires m < |ps|
  {
    if Owner(ps, x, m) then multiset{ps[m].root} else multiset{}
  }

  /** Page tables of the spaces in the first `k` slots. */
  ghost function Roots(ps: Table, x: set<nat>, k: nat): multiset<nat>
    requires k <= |ps|
  {
    if k == 0 then multiset{} else Roots(ps, x, k - 1) + OpenRoot(ps, x, k - 1)
  }

  ghost function OpenRoots(ps: Table, x: set<nat>): multiset<nat>
  {
    Roots(ps, x, |ps|)
  }

  lemma {:induction false} RootsChange(ps: Table, x: set<nat>, qs: Table, y: set<nat>, m: nat, k: nat)
    requires |ps| == |qs| && m < |ps| && k <= |ps|
    requires forall i: nat :: i < |ps| && i != m ==> OpenRoot(qs, y, i) == OpenRoot(ps, x, i)
    ensures k <= m ==> Roots(qs, y, k) == Roots(ps, x, k)
    ensures m < k ==> Roots(qs, y, k) + OpenRoot(ps, x, m) == Roots(ps, x, k) + OpenRoot(qs, y, m)
  {
    hide OpenRoot;
    if k > 0 {
      RootsChange(ps, x, qs, y, m, k - 1);
      if m < k - 1 {
        Swap(Roots(qs, y, k - 1), OpenRoot(qs, y, k - 1), OpenRoot(ps, x, m), Roots(ps, x, k - 1), OpenRoot(qs, y, m));
      }
    }
  }

  lemma Swap(a: multiset<nat>, n: multiset<nat>, u: multiset<nat>, b: multiset<nat>, v: multiset<nat>)
    requires a + u == b + v
    ensures (a + n) + u == (b + n) + v
  {
    forall z: nat ensures ((a + n) + u)[z] == ((b + n) + v)[z] { assert (a + u)[z] == (b + v)[z]; }
  }

  lemma RootsSame(ps: Table, x: set<nat>, qs: Table, y: set<nat>)
    requires |ps| == |qs| && |ps| > 0
    requires forall i: nat :: i < |ps| ==> OpenRoot(qs, y, i) == OpenRoot(ps, x, i)
    ensures OpenRoots(qs, y) == OpenRoots(ps, x)
  {
    hide OpenRoot;
    RootsChange(ps, x, qs, y, 0, |ps|);
    var a, b, c := OpenRoots(qs, y), OpenRoots(ps, x), OpenRoot(ps, x, 0);
    forall z: nat ensures a[z] == b[z] { assert (a + c)[z] == (b + c)[z]; }
  }

  // ---------------------------------------------------------------- changes that do not concern spaces

  /** The two tables agree on everything spaces depend on. */
  ghost predicate SameSpaces(ps: Table, x: set<nat>, qs: Table, y: set<nat>)
  {
    |ps| == |qs| && forall i: nat :: i < |ps| ==> SameSlot(ps, x, qs, y, i)
  }

  ghost predicate SameSlot(ps: Table, x: set<nat>, qs: Table, y: set<nat>, i: nat)
    requires i < |ps| == |qs|
  {
    && (Uses(qs, y, i) <==> Uses(ps, x, i)) && (qs[i].state == Zombie <==> ps[i].state == Zombie)
    && qs[i].mm == ps[i].mm && qs[i].members == ps[i].members && qs[i].root == ps[i].root
  }

  lemma SpacesFrame(ps: Table, x: set<nat>, qs: Table, y: set<nat>)
    requires SpacesOk(ps, x) && SameSpaces(ps, x, qs, y) && forall i :: i in y ==> i < MAX_PROCS && qs[i].state != Zombie
    ensures SpacesOk(qs, y) && OpenRoots(qs, y) == OpenRoots(ps, x)
  {
    hide Users;
    forall m: nat | m < MAX_PROCS ensures SlotOk(qs, y, m) && OpenRoot(qs, y, m) == OpenRoot(ps, x, m) {
      SameUsers(ps, x, qs, y, m);
      assert SlotOk(ps, x, m) && SameSlot(ps, x, qs, y, m);
      if ps[m].mm < |ps| { assert SameSlot(ps, x, qs, y, ps[m].mm); }
    }
    RootsSame(ps, x, qs, y);
  }

  lemma SameUsers(ps: Table, x: set<nat>, qs: Table, y: set<nat>, m: nat)
    requires SameSpaces(ps, x, qs, y)
    ensures Users(qs, y, m) == Users(ps, x, m)
  {
    forall i: nat | i < |ps| ensures i in Users(qs, y, m) <==> i in Users(ps, x, m) { assert SameSlot(ps, x, qs, y, i); }
  }

  // ---------------------------------------------------------------- a slot gets a space

  /** A free slot has no users and no space. */
  lemma NoUsers(ps: Table, x: set<nat>, i: nat)
    requires SpacesOk(ps, x) && i < MAX_PROCS && i !in x && ps[i].state == Unused
    ensures Users(ps, x, i) == {} && !Owner(ps, x, i)
  {
    SpaceIffUsed(ps, x, i);
  }

  /** Only slot `i` changed, and it came to use space `m`; `m` counts it. */
  ghost predicate Joined(ps: Table, x: set<nat>, qs: Table, i: nat, m: nat)
  {
    && |ps| == |qs| && i < |ps| && m < |ps| && i !in x && ps[i].state == Unused && Live(qs[i]) && qs[i].mm == m
    && (forall j: nat :: j < |ps| && j != i && j != m ==> qs[j] == ps[j])
    && qs[i].root == qs[m].root
    && (if i == m then qs[i].members == 1
        else Owner(ps, x, m) && qs[m] == ps[m].(members := ps[m].members + 1))
  }

  lemma UsersJoin(ps: Table, x: set<nat>, qs: Table, i: nat, m: nat, k: nat)
    requires Joined(ps, x, qs, i, m)
    ensures Users(qs, x, k) == Users(ps, x, k) + (if m == k then {i} else {}) && i !in Users(ps, x, k)
  {
  }

  lemma JoinNew(ps: Table, x: set<nat>, qs: Table, i: nat, m: nat)
    requires Joined(ps, x, qs, i, m) && Users(ps, x, i) == {} && !Owner(ps, x, i)
    ensures SlotOk(qs, x, i) && OpenRoot(qs, x, i) == if i == m then multiset{qs[i].root} else multiset{}
  {
    hide Users;
    UsersJoin(ps, x, qs, i, m, i);
  }

  lemma Join(ps: Table, x: set<nat>, qs: Table, i: nat, m: nat)
    requires SpacesOk(ps, x) && Joined(ps, x, qs, i, m)
    ensures SpacesOk(qs, x)
    ensures OpenRoots(qs, x) == OpenRoots(ps, x) + if i == m then multiset{qs[i].root} else multiset{}
  {
    hide Users, Joined, OpenRoot;
    JoinFacts(ps, x, qs, i, m);
    NoUsers(ps, x, i);
    JoinNew(ps, x, qs, i, m);
    forall k: nat | k < MAX_PROCS
      ensures SlotOk(qs, x, k) && (k != i ==> OpenRoot(qs, x, k) == OpenRoot(ps, x, k))
    {
      if k != i { JoinOther(ps, x, qs, i, m, k); }
    }
    RootsChange(ps, x, qs, x, i, |ps|);
    NoRoot(ps, x, i);
  }

  lemma JoinFacts(ps: Table, x: set<nat>, qs: Table, i: nat, m: nat)
    requires Joined(ps, x, qs, i, m)
    ensures |ps| == |qs| && i < |ps| && i !in x && ps[i].state == Unused
  {
  }

  lemma NoRoot(ps: Table, x: set<nat>, i: nat)
    requires i < |ps| && !Owner(ps, x, i)
    ensures OpenRoot(ps, x, i) == multiset{}
  {
  }

  lemma JoinOther(ps: Table, x: set<nat>, qs: Table, i: nat, m: nat, k: nat)
    requires SpacesOk(ps, x) && Joined(ps, x, qs, i, m) && k < |ps| && k != i
    requires Users(ps, x, i) == {} && !Owner(ps, x, i)
    ensures SlotOk(qs, x, k) && OpenRoot(qs, x, k) == OpenRoot(ps, x, k)
  {
    hide Users;
    UsersJoin(ps, x, qs, i, m, k);
    assert SlotOk(ps, x, k);
  }

  // ---------------------------------------------------------------- a slot leaves its space

  /** Slot `s` left its space; the last user takes the owner's slot with it. */
  ghost predicate Left(ps: Table, x: set<nat>, qs: Table, s: nat)
  {
    && |ps| == |qs| && s < |ps| && Uses(ps, x, s) && ps[s].mm < |ps| && !Live(qs[s])
    && var m := ps[s].mm;
    && (forall j: nat :: j < |ps| && j != s && j != m ==> qs[j] == ps[j])
    && qs[m].mm == m && (s != m ==> qs[s].state == Unused)
    && if ps[m].members > 1 then
         && qs[m].members == ps[m].members - 1 && qs[m].root == ps[m].root
         && qs[m].state == if m == s then Zombie else ps[m].state
       else (m == s || ps[m].state == Zombie ==> qs[m].state == Unused)
  }

  /** The space that goes when `s` leaves. */
  ghost function Freed(ps: Table, s: nat): multiset<nat>
    requires s < |ps| && ps[s].mm < |ps|
  {
    if ps[ps[s].mm].members > 1 then multiset{} else multiset{ps[ps[s].mm].root}
  }

  lemma UsersLeave(ps: Table, x: set<nat>, qs: Table, s: nat, k: nat)
    requires Left(ps, x, qs, s) && SlotOk(ps, x, s)
    requires ps[ps[s].mm].members > 1 || k != ps[s].mm
    ensures Users(qs, x - {s}, k) == Users(ps, x, k) - (if ps[s].mm == k then {s} else {})
  {
  }

  /** The last user is alone. */
  lemma LastUser(ps: Table, x: set<nat>, s: nat)
    requires s < |ps| && Uses(ps, x, s) && SlotOk(ps, x, s) && SlotOk(ps, x, ps[s].mm) && ps[ps[s].mm].members <= 1
    ensures Users(ps, x, ps[s].mm) == {s}
    ensures ps[s].mm != s ==> ps[ps[s].mm].state == Zombie
  {
    var u := Users(ps, x, ps[s].mm);
    UsesIn(ps, x, s);
    if Uses(ps, x, ps[s].mm) { UsesIn(ps, x, ps[s].mm); }
    forall i | i in u ensures i == s { if i != s { assert |{i, s}| <= |u| by { Subset({i, s}, u); } } }
  }

  lemma Subset(a: set<nat>, b: set<nat>)
    requires a <= b
    ensures |a| <= |b|
  {
    if a != {} {
      var e :| e in a;
      Subset(a - {e}, b - {e});
    }
  }

  /** One slot after `s` left: others still use the space. */
  lemma LeaveBusy(ps: Table, x: set<nat>, qs: Table, s: nat, k: nat)
    requires Left(ps, x, qs, s) && ps[ps[s].mm].members > 1 && k < |ps|
    requires SlotOk(ps, x, k) && SlotOk(ps, x, s) && SlotOk(ps, x, ps[s].mm)
    ensures SlotOk(qs, x - {s}, k) && OpenRoot(qs, x - {s}, k) == OpenRoot(ps, x, k)
  {
    UsersLeave(ps, x, qs, s, k);
    UsesIn(ps, x, s);
    hide Users;
  }

  /** One slot after `s` left: nobody else used the space. */
  lemma LeaveLast(ps: Table, x: set<nat>, qs: Table, s: nat, k: nat)
    requires Left(ps, x, qs, s) && ps[ps[s].mm].members <= 1 && k < |ps|
    requires SlotOk(ps, x, k) && SlotOk(ps, x, s) && SlotOk(ps, x, ps[s].mm)
    ensures SlotOk(qs, x - {s}, k)
    ensures OpenRoot(qs, x - {s}, k) == if k == ps[s].mm then multiset{} else OpenRoot(ps, x, k)
  {
    LastUser(ps, x, s);
    if k != ps[s].mm { UsersLeave(ps, x, qs, s, k); }
    if Uses(ps, x, k) { UsesIn(ps, x, k); }
    hide Users;
  }

  lemma LeavePoint(ps: Table, x: set<nat>, qs: Table, s: nat, k: nat)
    requires SpacesOk(ps, x) && Left(ps, x, qs, s) && k < |ps|
    ensures SlotOk(qs, x - {s}, k)
    ensures k != ps[s].mm ==> OpenRoot(qs, x - {s}, k) == OpenRoot(ps, x, k)
    ensures OpenRoot(ps, x, ps[s].mm) == OpenRoot(qs, x - {s}, ps[s].mm) + Freed(ps, s)
  {
    hide Users;
    var m := ps[s].mm;
    assert SlotOk(ps, x, k) && SlotOk(ps, x, s) && SlotOk(ps, x, m);
    if ps[m].members > 1 {
      LeaveBusy(ps, x, qs, s, k);
      LeaveBusy(ps, x, qs, s, m);
    } else {
      LeaveLast(ps, x, qs, s, k);
      LeaveLast(ps, x, qs, s, m);
    }
  }

  lemma UsesIn(ps: Table, x: set<nat>, k: nat)
    requires k < |ps| && Uses(ps, x, k)
    ensures k in Users(ps, x, ps[k].mm)
  {
  }

  lemma Leave(ps: Table, x: set<nat>, qs: Table, s: nat)
    requires SpacesOk(ps, x) && Left(ps, x, qs, s)
    ensures SpacesOk(qs, x - {s}) && ps[s].mm < |ps| && OpenRoots(qs, x - {s}) + Freed(ps, s) == OpenRoots(ps, x)
  {
    hide Users, OpenRoot, Freed, SlotOk;
    LeaveFacts(ps, x, qs, s);
    var m := ps[s].mm;
    forall k: nat | k < MAX_PROCS
      ensures SlotOk(qs, x - {s}, k) && (k != m ==> OpenRoot(qs, x - {s}, k) == OpenRoot(ps, x, k))
    {
      LeavePoint(ps, x, qs, s, k);
    }
    LeavePoint(ps, x, qs, s, m);
    RootsChange(ps, x, qs, x - {s}, m, |ps|);
    var a, b, u, v := OpenRoots(qs, x - {s}), OpenRoots(ps, x), OpenRoot(qs, x - {s}, m), Freed(ps, s);
    forall z: nat ensures (a + v)[z] == b[z] { assert (a + (u + v))[z] == (b + u)[z]; }
  }

  lemma LeaveFacts(ps: Table, x: set<nat>, qs: Table, s: nat)
    requires Left(ps, x, qs, s)
    ensures |ps| == |qs| && s < |ps| && ps[s].mm < |ps|
  {
  }

  /** No live slot runs on page tables that were given back. */
  lemma {:induction false} RootInUse(ps: Table, x: set<nat>, m: nat, k: nat)
    requires m < k <= |ps| && Owner(ps, x, m)
    ensures ps[m].root in Roots(ps, x, k)
  {
    if m < k - 1 { RootInUse(ps, x, m, k - 1); }
  }

  lemma LiveRootOpen(ps: Table, x: set<nat>, s: nat)
    requires SpacesOk(ps, x) && s < MAX_PROCS && Live(ps[s])
    ensures ps[s].root in OpenRoots(ps, x)
  {
    assert SlotOk(ps, x, s);
    RootInUse(ps, x, ps[s].mm, |ps|);
  }
}
