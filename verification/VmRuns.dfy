/** What the kernel does with physical memory over time: address spaces made, grown, copied,
    written to and given up in any order, and pages that it takes for itself. */
module VmRuns {
  import opened DiskBytes
  import opened PageTable
  import opened VmSpec
  import opened VmBuild
  import opened VmCopy

  /** Refused is a setupkvm or copyuvm that found too little memory, or an allocuvm or
      deallocuvm that has nothing to do. Take and Give are kalloc and kfree called from
      outside vm.c, Use is a store to such a page. */
  datatype Step =
    | Setup(d: nat)
    | Copy(d: nat, d2: nat, n: nat)
    | Refused
    | Grow(d: nat, lo: nat, hi: nat)
    | GrowFailed(d: nat, lo: nat, hi: nat)
    | Shrink(d: nat, lo: nat, hi: nat)
    | Store(d: nat, va: nat, bytes: seq<byte>)
    | Release(d: nat)
    | Take(f: nat)
    | Give(f: nat)
    | Use(f: nat, page: Page)

  ghost predicate Changes(data: nat, vm: PageTable.Vm, s: Step, vm': PageTable.Vm)
    requires DataOk(data)
  {
    match s
    case Setup(d) => Built(vm, vm', d) && d < |vm'.mem| && KernelUpTo(vm'.mem, d, data, 4)
    case Copy(d, d2, n) =>
      && Has(vm, d, Dir) && d < |vm.mem| && Built(vm, vm', d2) && d2 < |vm'.mem|
      && n <= KPAGES && Copied(vm, vm', d, d2, n, data)
    case Refused => Restored(vm, vm')
    case Grow(d, lo, hi) => Has(vm, d, Dir) && hi <= KPAGES && Extended(vm, vm', d, lo, hi)
    case GrowFailed(d, lo, hi) => Has(vm, d, Dir) && hi <= KPAGES && Withdrawn(vm, vm', d, lo, hi)
    case Shrink(d, lo, hi) => Has(vm, d, Dir) && hi <= KPAGES && Unmapped(vm, vm', d, lo, hi)
    case Store(d, va, bytes) => Has(vm, d, Dir) && Written(vm, vm', d, va, bytes)
    case Release(d) => Has(vm, d, Dir) && Gone(vm, vm', d)
    case Take(f) => Has(vm, f, Free) && vm' == vm.(owner := vm.owner[f := Held])
    case Give(f) =>
      && Has(vm, f, Held) && f < |vm.mem| == |vm'.mem|
      && vm' == Vm(vm.mem[f := vm'.mem[f]], vm.owner[f := Free])
    case Use(f, page) => Has(vm, f, Held) && f < |vm.mem| && vm' == vm.(mem := vm.mem[f := page])
  }

  /** What the methods of the machine do, from one state that meets their invariant to the
      next. */
  ghost predicate Does(data: nat, vm: PageTable.Vm, s: Step, vm': PageTable.Vm)
    requires DataOk(data)
  {
    Inv(vm) && Inv(vm') && Changes(data, vm, s, vm')
  }

  function SetupStep(d: nat): Step {
    if d == 0 then Refused else Setup(d)
  }

  function CopyStep(d: nat, d2: nat, sz: nat): Step {
    if d2 == 0 then Refused else Copy(d, d2, PageUp(sz))
  }

  /** What a call of allocuvm is that returned r. */
  function GrowStep(d: nat, oldsz: nat, newsz: nat, r: nat): Step {
    if newsz >= KERNBASE || newsz < oldsz then Refused
    else if r == 0 && newsz > 0 then GrowFailed(d, PageUp(oldsz), PageUp(newsz))
    else Grow(d, PageUp(oldsz), PageUp(newsz))
  }

  function ShrinkStep(d: nat, oldsz: nat, newsz: nat): Step {
    if newsz >= oldsz then Refused else Shrink(d, PageUp(newsz), PageUp(oldsz))
  }

  /** kalloc and kfree on their own, and stores to a page in hand. */
  lemma TakeDoes(data: nat, vm: PageTable.Vm, f: nat)
    requires DataOk(data) && Inv(vm) && Has(vm, f, Free)
    ensures Does(data, vm, Take(f), vm.(owner := vm.owner[f := Held]))
  {
    HeldInv(vm, f);
    hide Inv;
  }

  lemma GiveDoes(data: nat, vm: PageTable.Vm, f: nat, page: Page)
    requires DataOk(data) && Inv(vm) && Has(vm, f, Held)
    ensures f < |vm.mem| && Does(data, vm, Give(f), Vm(vm.mem[f := page], vm.owner[f := Free]))
  {
    HeldFreed(vm, Vm(vm.mem[f := page], vm.owner[f := Free]), f);
    hide TablesOwned, TablesUsed, LeavesOwned, LeavesUsed;
  }

  lemma UseDoes(data: nat, vm: PageTable.Vm, f: nat, page: Page)
    requires DataOk(data) && Inv(vm) && Has(vm, f, Held)
    ensures f < |vm.mem| && Does(data, vm, Use(f, page), vm.(mem := vm.mem[f := page]))
  {
    hide Lookup, Present, FrameOf, Entry, TablesOwned, TablesUsed, LeavesOwned, LeavesUsed;
    var vm1 := vm.(mem := vm.mem[f := page]);
    TableInvKept(vm, vm1);
    forall e: nat, u: nat | Has(vm, e, Dir) && u < KPAGES ensures e < |vm.mem| && e < |vm1.mem| && SameUserMap(vm, vm1, e, u) {
    }
    LeavesKept(vm, vm1);
  }

  datatype Event = Event(step: Step, after: PageTable.Vm)

  ghost predicate Legal(data: nat, vm: PageTable.Vm, run: seq<Event>)
    requires DataOk(data)
    decreases |run|
  {
    run == [] || (Does(data, vm, run[0].step, run[0].after) && Legal(data, run[0].after, run[1..]))
  }

  function Last(vm: PageTable.Vm, run: seq<Event>): PageTable.Vm {
    if run == [] then vm else run[|run| - 1].after
  }

  // ----- No page is lost -----

  ghost function HeldPages(vm: PageTable.Vm): set<nat> {
    set f | f in vm.owner && vm.owner[f].Held?
  }

  function Moved(held: set<nat>, s: Step): set<nat> {
    match s
    case Take(f) => held + {f}
    case Give(f) => held - {f}
    case _ => held
  }

  /** The pages in hand after a run, going by its calls of kalloc and kfree alone. */
  ghost function InHand(held: set<nat>, run: seq<Event>): set<nat>
    decreases |run|
  {
    if run == [] then held else InHand(Moved(held, run[0].step), run[1..])
  }

  /** Nothing that is done to address spaces takes or leaves a page in hand, failures included. */
  lemma StepHeld(data: nat, vm: PageTable.Vm, s: Step, vm': PageTable.Vm)
    requires DataOk(data) && Does(data, vm, s, vm')
    ensures vm'.owner.Keys == vm.owner.Keys && HeldPages(vm') == Moved(HeldPages(vm), s)
  {
    hide Lookup, Present, Entry, KernelUpTo, Copied, NewUserPage, SameEntry, TablesOwned, TablesUsed, LeavesOwned, LeavesUsed;
    assert vm'.owner.Keys == vm.owner.Keys;
    forall f | f in vm.owner ensures f in HeldPages(vm') <==> f in Moved(HeldPages(vm), s) {
    }
  }

  lemma {:induction false} RunHeld(data: nat, vm: PageTable.Vm, run: seq<Event>)
    requires DataOk(data) && Inv(vm) && Legal(data, vm, run)
    ensures Inv(Last(vm, run)) && Last(vm, run).owner.Keys == vm.owner.Keys
    ensures HeldPages(Last(vm, run)) == InHand(HeldPages(vm), run)
    decreases |run|
  {
    hide Inv, Changes, HeldPages, Moved;
    if run != [] {
      StepHeld(data, vm, run[0].step, run[0].after);
      RunHeld(data, run[0].after, run[1..]);
    }
  }

  ghost predicate NoSpaces(vm: PageTable.Vm) {
    forall d: nat :: !Has(vm, d, Dir)
  }

  /** Main theorem.  After any run that has given up every address space, each page is in hand
      if the run's own kallocs and kfrees say so, and free otherwise. */
  lemma NothingLost(data: nat, vm: PageTable.Vm, run: seq<Event>)
    requires DataOk(data) && Inv(vm) && Legal(data, vm, run) && NoSpaces(Last(vm, run))
    ensures Last(vm, run).owner == map f | f in vm.owner :: if f in InHand(HeldPages(vm), run) then Held else Free
  {
    RunHeld(data, vm, run);
    var end := Last(vm, run);
    hide Last, InHand, Legal;
    forall f: nat | f in end.owner ensures end.owner[f] == if f in HeldPages(end) then Held else Free {
      assert Has(end, f, end.owner[f]);
    }
  }

  /** In particular: from no address space to no address space, with every page that was taken
      given back, exactly the pages that were free are free. */
  lemma BackToStart(data: nat, vm: PageTable.Vm, run: seq<Event>)
    requires DataOk(data) && Inv(vm) && Legal(data, vm, run) && NoSpaces(vm) && NoSpaces(Last(vm, run))
    requires InHand(HeldPages(vm), run) == HeldPages(vm)
    ensures Last(vm, run).owner == vm.owner
  {
    NothingLost(data, vm, run);
    assert Legal(data, vm, []);
    NothingLost(data, vm, []);
  }

  // ----- Address spaces are isolated -----

  /** The user part of address space e reads the same in vm' as in vm. */
  ghost predicate SameUser(vm: PageTable.Vm, vm': PageTable.Vm, e: nat) {
    && Has(vm', e, Dir) && |vm'.mem| == |vm.mem|
    && forall a: nat :: (UserPage(vm', e, a) <==> UserPage(vm, e, a))
                        && (UserPage(vm, e, a) ==> UserByte(vm', e, a) == UserByte(vm, e, a))
  }

  /** The address space that a step is for. */
  predicate For(s: Step, e: nat) {
    match s
    case Grow(d, _, _) => d == e
    case GrowFailed(d, _, _) => d == e
    case Shrink(d, _, _) => d == e
    case Store(d, _, _) => d == e
    case Release(d) => d == e
    case _ => false
  }

  /** Enough for it: the same present entries, and the same contents of the pages they name. */
  lemma SameUserBy(vm: PageTable.Vm, vm': PageTable.Vm, e: nat)
    requires Inv(vm) && Has(vm, e, Dir) && Has(vm', e, Dir) && |vm'.mem| == |vm.mem| && e < |vm.mem|
    requires forall u: nat :: u < KPAGES ==> SameEntry(Lookup(vm.mem, e, u), Lookup(vm'.mem, e, u))
    requires forall f: nat :: f < |vm.mem| && f in vm.owner && vm.owner[f].Leaf? && vm.owner[f].d == e ==> vm'.mem[f] == vm.mem[f]
    ensures SameUser(vm, vm', e)
  {
    hide Lookup, Present, FrameOf, Entry, TableInv, LeavesUsed;
    forall a: nat ensures (UserPage(vm', e, a) <==> UserPage(vm, e, a))
                       && (UserPage(vm, e, a) ==> UserByte(vm', e, a) == UserByte(vm, e, a)) {
      if a < KERNBASE {
        PageBelow(a);
        var u := a / PGSIZE;
        assert SameEntry(Lookup(vm.mem, e, u), Lookup(vm'.mem, e, u));
        assert Present(Lookup(vm.mem, e, u)) ==> Has(vm, FrameOf(Lookup(vm.mem, e, u)), Leaf(e, u));
      }
    }
  }

  /** A page in hand is no part of any page table. */
  lemma HeldPageUnseen(vm: PageTable.Vm, vm': PageTable.Vm, f: nat)
    requires Inv(vm) && Has(vm, f, Held) && |vm'.mem| == |vm.mem|
    requires forall x :: 0 <= x < |vm.mem| && x != f ==> vm'.mem[x] == vm.mem[x]
    ensures SameMaps(vm, vm')
  {
    hide Lookup, Entry, Present, FrameOf, LeavesOwned, LeavesUsed;
    SameTablesSameMaps(vm, vm');
  }

  lemma StepKeepsUser(data: nat, vm: PageTable.Vm, s: Step, vm': PageTable.Vm, e: nat)
    requires DataOk(data) && Does(data, vm, s, vm') && Has(vm, e, Dir) && !For(s, e)
    ensures SameUser(vm, vm', e)
  {
    hide Lookup, Present, FrameOf, Entry, KernelUpTo, Copied, NewUserPage, TablesOwned, TablesUsed, LeavesOwned, LeavesUsed;
    assert e < |vm.mem|;
    match s {
      case Store(d, va, bytes) => StoreKeepsUser(vm, vm', d, va, bytes, e);
      case Give(f) =>
        HeldPageUnseen(vm, vm', f);
        SameUserBy(vm, vm', e);
      case Use(f, page) =>
        HeldPageUnseen(vm, vm', f);
        SameUserBy(vm, vm', e);
      case _ => SameUserBy(vm, vm', e);
    }
  }

  lemma StoreKeepsUser(vm: PageTable.Vm, vm': PageTable.Vm, d: nat, va: nat, bytes: seq<byte>, e: nat)
    requires Inv(vm) && Written(vm, vm', d, va, bytes) && Has(vm, e, Dir) && e != d
    ensures SameUser(vm, vm', e)
  {
    hide Lookup, Present, FrameOf, Entry, TableInv, LeavesOwned, LeavesUsed;
    forall a: nat | UserPage(vm', e, a) ensures UserPage(vm, e, a) {
      PageBelow(a);
    }
    hide UserPage, UserByte;
  }

  /** Main theorem.  Whatever the kernel does for others, and whether it succeeds or not: as
      long as no step is for address space e, its user part reads the same. */
  lemma {:induction false} Isolation(data: nat, vm: PageTable.Vm, run: seq<Event>, e: nat)
    requires DataOk(data) && Inv(vm) && Legal(data, vm, run) && Has(vm, e, Dir)
    requires forall k :: 0 <= k < |run| ==> !For(run[k].step, e)
    ensures SameUser(vm, Last(vm, run), e)
    decreases |run|
  {
    hide Inv, Changes, UserPage, UserByte;
    if run != [] {
      StepKeepsUser(data, vm, run[0].step, run[0].after, e);
      Isolation(data, run[0].after, run[1..], e);
    }
  }

  // ----- The kernel's part -----

  /** Every address space has the kernel's part that setupkvm gives it. */
  ghost predicate KernelIn(data: nat, vm: PageTable.Vm, d: nat)
    requires DataOk(data) && d < |vm.mem|
  {
    forall u: nat :: KPAGES <= u < NPAGES ==> SameEntry(KernelPte(data, u), Lookup(vm.mem, d, u))
  }

  ghost predicate KernelEverywhere(data: nat, vm: PageTable.Vm)
    requires DataOk(data)
  {
    forall d: nat :: Has(vm, d, Dir) ==> d < |vm.mem| && KernelIn(data, vm, d)
  }

  lemma NotForUser(data: nat, u: nat)
    requires DataOk(data) && u < NPAGES
    ensures !UserBit(KernelPte(data, u))
  {
  }

  /** None of it is for the user: what copyout asks for. */
  lemma KernelIsPrivate(data: nat, vm: PageTable.Vm, d: nat)
    requires DataOk(data) && d < |vm.mem| && KernelIn(data, vm, d)
    ensures KernelPrivate(vm.mem, d)
  {
    hide Lookup, Entry, KernelPte;
    forall v: nat | KPAGES <= v < NPAGES ensures !Translate(vm.mem, d, v).Frame? {
      NotForUser(data, v);
      assert SameEntry(KernelPte(data, v), Lookup(vm.mem, d, v));
    }
  }

  lemma StepKeepsKernel(data: nat, vm: PageTable.Vm, s: Step, vm': PageTable.Vm)
    requires DataOk(data) && Does(data, vm, s, vm') && KernelEverywhere(data, vm)
    ensures KernelEverywhere(data, vm')
  {
    hide Lookup, Present, FrameOf, Entry, NewUserPage, TablesOwned, TablesUsed, LeavesOwned, LeavesUsed, KernelPte;
    if s.Give? || s.Use? {
      HeldPageUnseen(vm, vm', s.f);
    }
    forall d: nat | Has(vm', d, Dir) ensures d < |vm'.mem| && KernelIn(data, vm', d) {
      if Has(vm, d, Dir) {
        assert KernelIn(data, vm, d);
      }
    }
  }

  /** From boot on, when there is no address space, in every run. */
  lemma {:induction false} RunKeepsKernel(data: nat, vm: PageTable.Vm, run: seq<Event>, d: nat)
    requires DataOk(data) && Inv(vm) && Legal(data, vm, run) && KernelEverywhere(data, vm)
    ensures KernelEverywhere(data, Last(vm, run))
    ensures Has(Last(vm, run), d, Dir) ==> d < |Last(vm, run).mem| && KernelPrivate(Last(vm, run).mem, d)
    decreases |run|
  {
    hide Inv, Changes, KernelIn, KernelPrivate;
    if run != [] {
      StepKeepsKernel(data, vm, run[0].step, run[0].after);
      RunKeepsKernel(data, run[0].after, run[1..], d);
    } else if Has(vm, d, Dir) {
      KernelIsPrivate(data, vm, d);
    }
  }
}
