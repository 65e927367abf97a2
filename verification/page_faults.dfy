/** Page faults (kernel/src/vm.rs:394-506): what is brought in for a page, against what the table says backs it. The
    pages of a file are read with the table unlocked, so it may change in between. */
module PageFaults {
  import opened Basics
  import opened VmaTable

  const AROUND: nat := 8

  datatype Access = Read | Write | Exec

  /** Readable, writable and executable are the bits 1, 2 and 4 of a protection; any of them lets one read. */
  predicate Allows(prot: nat, a: Access)
  {
    match a
    case Read => prot % 8 != 0
    case Write => prot / 2 % 2 == 1
    case Exec => prot / 4 % 2 == 1
  }

  /** Protection by protection: what 1, 2 and 4 stand for. */
  lemma AllowsMeans(prot: nat)
    requires prot < 8
    ensures Allows(prot, Read) <==> prot != 0
    ensures Allows(prot, Write) <==> prot in {2, 3, 6, 7}
    ensures Allows(prot, Exec) <==> prot in {4, 5, 6, 7}
  {
  }

  /** What the first half of a fault decides: it is an error; one page is brought in at once; or pages `first` and on of
      a file are to be read for up to `n` pages of memory. */
  datatype Plan = Deny | Bring(backing: Backing) | Load(ino: nat, first: nat, n: nat)

  function PageOf(addr: nat): nat
  {
    addr / PAGE * PAGE
  }

  /** Page `i` after that of the address. */
  function Nth(addr: nat, i: nat): nat
  {
    PageOf(addr) + i * PAGE
  }

  /** The entry that covers an address covers its page, and says the same there. */
  lemma SamePage(v: Vma, addr: nat)
    requires v.Sane() && v.Covers(addr)
    ensures v.Covers(PageOf(addr)) && v.PageAt(addr) == v.PageAt(PageOf(addr))
    ensures PageOf(addr) % PAGE == 0 && (addr - v.start) / PAGE == (PageOf(addr) - v.start) / PAGE
  {
    var k := v.start / PAGE;
    assert v.start == k * PAGE;
    assert (addr - v.start) / PAGE == addr / PAGE - k;
  }

  /** Further pages of one entry. */
  lemma NthPage(v: Vma, addr: nat, i: nat)
    requires v.Sane() && v.Covers(addr) && Nth(addr, i) < v.end
    ensures v.Covers(Nth(addr, i))
    ensures (Nth(addr, i) - v.start) / PAGE == (PageOf(addr) - v.start) / PAGE + i
  {
    SamePage(v, addr);
  }

  lemma ThisPage(addr: nat)
    ensures Nth(addr, 0) == PageOf(addr)
  {
  }

  /** Find the entry, check the access, and choose what to bring in; `present` are the addresses of pages that are in
      memory, and that of `addr` is not. */
  method FaultBegin(vs: seq<Vma>, addr: nat, a: Access, present: set<nat>) returns (r: Plan)
    requires Sorted(vs) && PageOf(addr) !in present
    ensures At(vs, addr).None? ==> r == Deny
    ensures At(vs, addr).Some? ==>
              var p := At(vs, addr).value;
              if !Allows(p.prot, a) then r == Deny
              else if p.backing.Shared? then r == Bring(p.backing)
              else if !(MMAP_BASE <= PageOf(addr) < MMAP_END) then r == Deny
              else if p.backing == Anon then r == Bring(Anon)
              else r.Load? && 1 <= r.n <= AROUND && Planned(vs, addr, present, r)
  {
    hide Sorted, At;
    var found := Find(vs, addr);
    if found == None { return Deny; }
    var v := found.value;
    FoundSane(vs, v);
    if !Allows(v.prot, a) { return Deny; }
    SamePage(v, addr);
    var page := PageOf(addr);
    if v.obj != 0 { return Bring(Shared(v.obj, v.pgoff + (page - v.start) / PAGE)); }
    if page < MMAP_BASE || page >= MMAP_END { return Deny; }
    if v.ino == 0 { return Bring(Anon); }
    var n := Around(v, addr, present);
    r := Load(v.ino, v.pgoff + (page - v.start) / PAGE, n);
    PlanRight(vs, v, addr, present, r);
  }

  /** Fault-around: up to eight pages of the entry, as long as they are not there yet. */
  method Around(v: Vma, addr: nat, present: set<nat>) returns (n: nat)
    requires v.Sane() && v.Covers(addr) && PageOf(addr) !in present
    ensures 1 <= n <= AROUND && forall i: nat :: i < n ==> Nth(addr, i) < v.end && Nth(addr, i) !in present
    ensures n == AROUND || Nth(addr, n) >= v.end || Nth(addr, n) in present
  {
    SamePage(v, addr);
    ThisPage(addr);
    var rest := (v.end - PageOf(addr)) / PAGE;
    Rest(v, addr);
    var most := if rest < AROUND then rest else AROUND;
    n := 1;
    while n < most && Nth(addr, n) !in present
      invariant 1 <= n <= most
      invariant forall i: nat :: i < n ==> Nth(addr, i) !in present
    {
      n := n + 1;
    }
  }

  /** The pages left in the entry, by number. */
  lemma Rest(v: Vma, addr: nat)
    requires v.Sane() && v.Covers(addr) && v.Covers(PageOf(addr))
    ensures (v.end - PageOf(addr)) / PAGE >= 1
    ensures forall i: nat :: Nth(addr, i) < v.end <==> i < (v.end - PageOf(addr)) / PAGE
  {
    var e := v.end / PAGE;
    assert v.end == e * PAGE && (v.end - PageOf(addr)) / PAGE == e - addr / PAGE;
    forall i: nat ensures Nth(addr, i) < v.end <==> i < e - addr / PAGE { }
  }

  lemma FoundSane(vs: seq<Vma>, v: Vma)
    requires Sorted(vs) && v in vs
    ensures v.Sane()
  {
  }

  /** Every page to be read is, by the table, that page of that file, and is not there yet; and there are as many as
      the eight pages, the entry or the pages that are there allow. */
  ghost predicate Planned(vs: seq<Vma>, addr: nat, present: set<nat>, r: Plan)
    requires r.Load?
  {
    && (forall i: nat :: i < r.n ==> Backed(vs, Nth(addr, i), r.ino, r.first + i) && Nth(addr, i) !in present)
    && (r.n < AROUND ==> Nth(addr, r.n) in present || exists v :: v in vs && v.Covers(addr) && v.end <= Nth(addr, r.n))
  }

  ghost predicate Backed(vs: seq<Vma>, a: nat, ino: nat, page: nat)
  {
    At(vs, a).Some? && At(vs, a).value.backing == File(ino, page)
  }

  lemma PlanRight(vs: seq<Vma>, v: Vma, addr: nat, present: set<nat>, r: Plan)
    requires Sorted(vs) && v in vs && v.Sane() && v.Covers(addr) && v.obj == 0 && v.ino != 0 && PageOf(addr) >= v.start
    requires r.Load? && r.ino == v.ino && r.first == v.pgoff + (PageOf(addr) - v.start) / PAGE
    requires forall i: nat :: i < r.n ==> Nth(addr, i) < v.end && Nth(addr, i) !in present
    requires r.n == AROUND || Nth(addr, r.n) >= v.end || Nth(addr, r.n) in present
    ensures Planned(vs, addr, present, r)
  {
    hide Sorted, At, Nth, PageOf;
    forall i: nat | i < r.n ensures Backed(vs, Nth(addr, i), r.ino, r.first + i) {
      NthPage(v, addr, i);
      var k :| 0 <= k < |vs| && vs[k] == v;
      AtIndex(vs, k, Nth(addr, i));
    }
  }

  // ---------------------------------------------------------------- after the file has been read

  /** The second half: the entry is looked up again, and the pages that still belong to it, or to one of the same file,
      and are still not there, are mapped. The result says which page of the file each of them got. */
  method FaultEnd(vs: seq<Vma>, addr: nat, plan: Plan, present: set<nat>) returns (r: Option<map<nat, nat>>)
    requires Sorted(vs) && plan.Load?
    ensures r == if At(vs, addr).None? then None else Some(Mapped(EntryOf(vs, addr), addr, plan, present, plan.n))
  {
    hide Sorted, At, Nth;
    var found := Find(vs, addr);
    if found == None { return None; }
    var v := found.value;
    EntryIs(vs, addr, v);
    var pages: map<nat, nat> := map[];
    for i := 0 to plan.n
      invariant pages == Mapped(v, addr, plan, present, i)
    {
      if Nth(addr, i) < v.end && v.ino == plan.ino && Nth(addr, i) !in present {
        pages := pages[Nth(addr, i) := plan.first + i];
      }
    }
    r := Some(pages);
  }

  /** The entry that covers an address. */
  ghost function EntryOf(vs: seq<Vma>, a: nat): (v: Vma)
    requires Sorted(vs) && At(vs, a).Some?
    ensures v in vs && v.Covers(a)
  {
    AtMapped(vs, a);
    var i :| 0 <= i < |vs| && vs[i].Covers(a);
    vs[i]
  }

  lemma EntryIs(vs: seq<Vma>, a: nat, v: Vma)
    requires Sorted(vs) && At(vs, a).Some? && v in vs && v.Covers(a)
    ensures EntryOf(vs, a) == v
  {
  }

  function Mapped(v: Vma, addr: nat, plan: Plan, present: set<nat>, k: nat): map<nat, nat>
    requires plan.Load?
  {
    if k == 0 then map[]
    else
      var rest := Mapped(v, addr, plan, present, k - 1);
      if Nth(addr, k - 1) < v.end && v.ino == plan.ino && Nth(addr, k - 1) !in present
      then rest[Nth(addr, k - 1) := plan.first + (k - 1)] else rest
  }

  lemma NthApart(addr: nat, i: nat, j: nat)
    requires i < j
    ensures Nth(addr, i) < Nth(addr, j)
  {
  }

  /** Which pages are mapped, and with what. */
  lemma {:induction false} MappedMeans(v: Vma, addr: nat, plan: Plan, present: set<nat>, k: nat, a: nat)
    requires plan.Load?
    ensures a in Mapped(v, addr, plan, present, k) <==>
            v.ino == plan.ino && a < v.end && a !in present && exists i: nat :: i < k && a == Nth(addr, i)
    ensures forall i: nat :: i < k && Nth(addr, i) in Mapped(v, addr, plan, present, k) ==>
              Mapped(v, addr, plan, present, k)[Nth(addr, i)] == plan.first + i
  {
    if k > 0 {
      MappedMeans(v, addr, plan, present, k - 1, a);
      forall i: nat | i < k && Nth(addr, i) in Mapped(v, addr, plan, present, k)
        ensures Mapped(v, addr, plan, present, k)[Nth(addr, i)] == plan.first + i
      {
        MappedMeans(v, addr, plan, present, k - 1, Nth(addr, i));
        if i < k - 1 { NthApart(addr, i, k - 1); }
      }
    }
  }

  /** What was mapped is what the table says backs those pages. */
  ghost predicate Right(vs: seq<Vma>, pages: map<nat, nat>, ino: nat)
  {
    forall a :: a in pages ==> Backed(vs, a, ino, pages[a])
  }

  /** The place of the address in the file, by this entry. */
  function FilePage(v: Vma, addr: nat): nat
    requires v.start <= PageOf(addr)
  {
    v.pgoff + (PageOf(addr) - v.start) / PAGE
  }

  /** The pages that end up in memory are the right ones exactly when there are none, or the entry found the second time
      maps the file at the same place as the plan. That it is the same file is all that the code looks at. */
  lemma LoadedRight(vs: seq<Vma>, addr: nat, plan: Plan, present: set<nat>)
    requires Sorted(vs) && At(vs, addr).Some? && plan.Load? && plan.ino != 0 && plan.n > 0
    ensures var v := EntryOf(vs, addr); var pages := Mapped(v, addr, plan, present, plan.n);
            && v.start <= PageOf(addr)
            && (Right(vs, pages, plan.ino) <==> pages == map[] || (v.obj == 0 && FilePage(v, addr) == plan.first))
  {
    hide Sorted, At, Nth, PageOf;
    var v := EntryOf(vs, addr);
    FoundSane(vs, v);
    SamePage(v, addr);
    var pages := Mapped(v, addr, plan, present, plan.n);
    forall a | a in pages
      ensures Backed(vs, a, plan.ino, pages[a]) <==> v.obj == 0 && FilePage(v, addr) == plan.first
    {
      MappedMeans(v, addr, plan, present, plan.n, a);
      var i: nat :| i < plan.n && a == Nth(addr, i);
      NthPage(v, addr, i);
      var k :| 0 <= k < |vs| && vs[k] == v;
      AtIndex(vs, k, a);
    }
    if pages != map[] {
      var a :| a in pages;
      assert Right(vs, pages, plan.ino) ==> Backed(vs, a, plan.ino, pages[a]);
    }
  }

  /** When the table has not changed in between, they always are, and the page that was asked for is among them unless
      somebody else brought it in. */
  lemma UndisturbedRight(vs: seq<Vma>, addr: nat, present: set<nat>, later: set<nat>, plan: Plan)
    requires Sorted(vs) && At(vs, addr).Some? && plan.Load? && plan.ino != 0 && plan.n > 0 && Planned(vs, addr, present, plan)
    ensures var pages := Mapped(EntryOf(vs, addr), addr, plan, later, plan.n);
            Right(vs, pages, plan.ino) && (PageOf(addr) in pages <==> PageOf(addr) !in later)
  {
    hide Sorted, At, Nth, PageOf;
    var v := EntryOf(vs, addr);
    FoundSane(vs, v);
    SamePage(v, addr);
    ThisPage(addr);
    var k :| 0 <= k < |vs| && vs[k] == v;
    AtIndex(vs, k, Nth(addr, 0));
    assert Backed(vs, Nth(addr, 0), plan.ino, plan.first + 0);
    LoadedRight(vs, addr, plan, later);
    MappedMeans(v, addr, plan, later, plan.n, PageOf(addr));
  }

  /** A file mapped at its first page; while that page is read, another thread maps the same file there from its second
      page on. The first page of the file then appears where the second belongs. */
  lemma MovedMeanwhile()
    ensures var before := [Vma(MMAP_BASE, MMAP_BASE + PAGE, 1, 0, 12, 0)];
            var after := [Vma(MMAP_BASE, MMAP_BASE + PAGE, 1, 0, 12, 1)];
            var plan := Load(12, 0, 1);
            && Sorted(before) && Sorted(after) && Planned(before, MMAP_BASE, {}, plan) && At(after, MMAP_BASE).Some?
            && !Right(after, Mapped(EntryOf(after, MMAP_BASE), MMAP_BASE, plan, {}, 1), 12)
  {
    hide Nth, PageOf;
    var before := [Vma(MMAP_BASE, MMAP_BASE + PAGE, 1, 0, 12, 0)];
    var after := [Vma(MMAP_BASE, MMAP_BASE + PAGE, 1, 0, 12, 1)];
    var plan := Load(12, 0, 1);
    AtIndex(before, 0, MMAP_BASE);
    AtIndex(after, 0, MMAP_BASE);
    PageHere();
    assert before[0] in before && after[0] in after;
    PlanRight(before, before[0], MMAP_BASE, {}, plan);
    EntryIs(after, MMAP_BASE, after[0]);
    LoadedRight(after, MMAP_BASE, plan, {});
    MappedMeans(after[0], MMAP_BASE, plan, {}, 1, MMAP_BASE);
  }

  lemma PageHere()
    ensures PageOf(MMAP_BASE) == MMAP_BASE == Nth(MMAP_BASE, 0) && Nth(MMAP_BASE, 1) == MMAP_BASE + PAGE
  {
  }
}
