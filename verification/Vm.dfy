/** kalloc.c and vm.c on physical memory. */
module Vm {
  import opened DiskBytes
  import opened PageTable
  import opened VmSpec
  import opened VmBuild
  import opened VmCopy
  import opened VmRuns

  /** How mappages ends: Remap is its panic on a page that is mapped already. */
  datatype Mapping = Complete | NoMemory | Remap

  datatype CopyResult = Done | Failed | NullPointer

  /** What kfree takes: the start of a page between the kernel's end and PHYSTOP. */
  predicate Freeable(va: nat, end: nat) {
    va % PGSIZE == 0 && KERNBASE <= end <= va < KERNBASE + PHYSTOP
  }

  /** The physical page behind a kernel address. */
  function PageAt(va: nat): nat {
    if va < KERNBASE then 0 else (va - KERNBASE) / PGSIZE
  }

  lemma FirstPage(vstart: nat, end: nat)
    requires KERNBASE <= end <= vstart
    ensures (vstart + PGSIZE - 1) / PGSIZE * PGSIZE == PageAddr(PageUp(vstart))
    ensures KPAGES <= PageUp(vstart) && end <= PageAddr(PageUp(vstart))
  {
  }

  lemma WholePage(k: nat, vend: nat)
    requires k >= KPAGES && vend <= KERNBASE + PHYSTOP
    ensures PageAddr(k) + PGSIZE <= vend <==> k < vend / PGSIZE
    ensures PageAddr(k) % PGSIZE == 0 && PageAt(PageAddr(k)) == k - KPAGES
    ensures k < vend / PGSIZE ==> PageAddr(k) < KERNBASE + PHYSTOP
  {
  }

  lemma NoTableNoEntry(mem: seq<Page>, d: nat, v: nat)
    requires d < |mem| && v < NPAGES && !Present(Entry(mem[d], v / NENTRIES))
    ensures !Present(Lookup(mem, d, v))
  {
  }

  /** Directory d maps none of the pages from lo up to hi. */
  predicate RangeFree(mem: seq<Page>, d: nat, lo: nat, hi: nat)
    requires d < |mem|
  {
    forall u :: lo <= u < hi ==> u < NPAGES && !Present(Lookup(mem, d, u))
  }

  lemma EntrySeen(vm: PageTable.Vm, vm1: PageTable.Vm, d: nat, v: nat)
    requires SameMaps(vm, vm1) && Has(vm, d, Dir) && d < |vm.mem| && v < NPAGES
    ensures |vm1.mem| == |vm.mem| && Lookup(vm1.mem, d, v) == Lookup(vm.mem, d, v)
  {
  }

  class Machine {
    /** Physical memory, by pages. */
    const mem: array<Page>
    /** kmem.freelist, 0 for the null pointer: page 0 is never on the list. */
    var freelist: nat

    ghost var free: seq<nat>
    ghost var owner: map<nat, Owner>

    ghost function V(): PageTable.Vm
      reads this, mem
    {
      PageTable.Vm(mem[..], owner)
    }

    /** Enough for kalloc, kfree and the page-table walk. */
    ghost predicate Walkable()
      reads this, mem
    {
      FreeList(V(), freelist, free) && TableInv(V())
    }

    ghost predicate Valid()
      reads this, mem
    {
      FreeList(V(), freelist, free) && Inv(V())
    }

    /** Before kinit1: the pages that kalloc will manage are still in hand. */
    constructor (mem: array<Page>, ghost pages: set<nat>)
      requires mem.Length <= NPAGES && forall f :: f in pages ==> 0 < f < mem.Length
      ensures Valid() && this.mem == mem && free == []
      ensures owner == map f | f in pages :: Held
    {
      this.mem, freelist := mem, 0;
      free, owner := [], map f | f in pages :: Held;
      new;
      NobodyYet(V());
    }

    /** Any page on the list, or 0 when there is none. */
    method Kalloc() returns (r: nat)
      requires FreeList(V(), freelist, free) && Frames(V())
      modifies this`freelist, this`free, this`owner
      ensures FreeList(V(), freelist, free) && Frames(V())
      ensures r == 0 <==> old(free) == []
      ensures r == 0 ==> V() == old(V()) && free == []
      ensures r != 0 ==> r < mem.Length && Has(old(V()), r, Free) && V() == old(V()).(owner := old(owner)[r := Held])
      ensures r != 0 && Inv(old(V())) ==> forall data: nat :: DataOk(data) ==> Does(data, old(V()), Take(r), V())
    {
      hide Entry, Inv, Does;
      ghost var vm := V();
      r := freelist;
      if free != [] {
        FreeListPop(V(), free, Held);
      }
      if r != 0 {
        freelist := Entry(mem[r], 0);
        free := free[1..];
        owner := owner[r := Held];
        if Inv(vm) {
          forall data: nat | DataOk(data) ensures Does(data, vm, Take(r), V()) {
            TakeDoes(data, vm, r);
          }
        }
      }
    }

    /** The page is filled with junk and goes to the front of the list. */
    method Kfree(f: nat)
      requires FreeList(V(), freelist, free) && Frames(V()) && Has(V(), f, Held)
      modifies this`freelist, this`free, this`owner, mem
      ensures FreeList(V(), freelist, free) && Frames(V()) && f < mem.Length
      ensures V() == Vm(old(mem[..])[f := mem[f]], old(owner)[f := Free])
      ensures Inv(old(V())) ==> forall data: nat :: DataOk(data) ==> Does(data, old(V()), Give(f), V())
    {
      ghost var vm := V();
      hide Entry, PutEntry, Inv, Does;
      mem[f] := Filled(1);
      PutEntryAt(mem[f], 0, freelist, 0);
      mem[f] := PutEntry(mem[f], 0, freelist);
      owner := owner[f := Free];
      FreeListPush(vm, V(), freelist, free, f);
      freelist := f;
      free := [f] + free;
      assert V() == Vm(vm.mem[f := mem[f]], vm.owner[f := Free]);
      if Inv(vm) {
        forall data: nat | DataOk(data) ensures Does(data, vm, Give(f), V()) {
          GiveDoes(data, vm, f, mem[f]);
        }
      }
    }

    /** kfree as the rest of the kernel calls it, with an address; false is its panic. `end` is
        the first address after the kernel. */
    method KfreeAt(va: nat, end: nat) returns (ok: bool)
      requires FreeList(V(), freelist, free) && Frames(V()) && KERNBASE <= end
      requires Freeable(va, end) ==> Has(V(), PageAt(va), Held)
      modifies this`freelist, this`free, this`owner, mem
      ensures ok == Freeable(va, end)
      ensures !ok ==> V() == old(V())
      ensures ok ==> FreeList(V(), freelist, free) && Frames(V()) && PageAt(va) < mem.Length
                     && V() == Vm(old(mem[..])[PageAt(va) := mem[PageAt(va)]], old(owner)[PageAt(va) := Free])
    {
      if va % PGSIZE != 0 || va < end || va - KERNBASE >= PHYSTOP {
        return false;
      }
      Kfree((va - KERNBASE) / PGSIZE);
      return true;
    }

    /** kinit1 and kinit2: kfree for every page that lies whole between the two addresses; none
        of these calls panics. */
    method FreeRange(vstart: nat, vend: nat, end: nat) returns (ok: bool)
      requires Valid() && KERNBASE <= end <= vstart && vend <= KERNBASE + PHYSTOP
      requires forall f: nat :: PageUp(vstart) <= f + KPAGES < vend / PGSIZE ==> Has(V(), f, Held)
      modifies this`freelist, this`free, this`owner, mem
      ensures ok && Valid() && owner.Keys == old(owner.Keys)
      ensures forall f: nat :: f in owner ==>
                owner[f] == if PageUp(vstart) <= f + KPAGES < vend / PGSIZE then Free else old(owner)[f]
    {
      hide FreeList, Inv, PageUp, PageAddr;
      ghost var lo, hi := PageUp(vstart), vend / PGSIZE;
      var p := (vstart + PGSIZE - 1) / PGSIZE * PGSIZE;
      ghost var k := lo;
      FirstPage(vstart, end);
      while p + PGSIZE <= vend
        invariant KPAGES <= lo <= k && (k <= hi || k == lo) && p == PageAddr(k) && end <= p
        invariant Valid() && owner.Keys == old(owner.Keys)
        invariant forall f: nat :: f in owner ==> owner[f] == if lo <= f + KPAGES < k then Free else old(owner)[f]
        decreases hi - k
      {
        ghost var vm := V();
        WholePage(k, vend);
        assert Has(old(V()), k - KPAGES, Held);
        InvIsTableInv(vm);
        ok := KfreeAt(p, end);
        HeldFreed(vm, V(), k - KPAGES);
        NextPage(k);
        p := p + PGSIZE;
        k := k + 1;
      }
      WholePage(k, vend);
      ok := true;
    }

    // ----- Walking and mapping -----

    /** The page of the table that holds the entry for va, or 0. */
    method WalkPgdir(d: nat, va: nat, alloc: bool) returns (t: nat)
      requires Walkable() && Has(V(), d, Dir) && va < UINT
      modifies this`freelist, this`free, this`owner, mem
      ensures Walkable() && d < mem.Length
      ensures !alloc ==> V() == old(V()) && free == old(free)
      ensures Grown(old(V()), V(), d) && SameMaps(old(V()), V())
      ensures t == 0 ==> V() == old(V()) && !Present(Entry(mem[d], va / PGSIZE / NENTRIES)) && (alloc ==> free == [])
      ensures t != 0 ==> HasTable(V(), d, va / PGSIZE) && t == FrameOf(Entry(mem[d], va / PGSIZE / NENTRIES)) < mem.Length
    {
      ghost var vm := V();
      var i := Pdx(va);
      PageIndex(va);
      var pde := Entry(mem[d], i);
      if Present(pde) {
        t := FrameOf(pde);
        TableOf(vm, d, va / PGSIZE);
        return;
      }
      if !alloc {
        return 0;
      }
      t := Kalloc();
      if t == 0 {
        return;
      }
      var f := t;
      ghost var held := V();
      mem[f] := Filled(0);
      mem[d] := PutEntry(mem[d], i, MakePte(f, PTE_P + PTE_W + PTE_U));
      owner := owner[f := Table(d, i)];
      WalkAdds(vm, held, V(), d, va / PGSIZE, f, freelist, free);
    }

    /** One turn of mappages: without a page for the table, or with an entry that is in use, no
        entry is set. */
    method MapPage(d: nat, a: nat, pa: nat, perm: nat) returns (r: Mapping)
      requires Walkable() && Has(V(), d, Dir) && a < UINT && pa < UINT && pa % PGSIZE == 0 && perm < PGSIZE
      requires d < mem.Length
      modifies this`freelist, this`free, this`owner, mem
      ensures Walkable() && Grown(old(V()), V(), d)
      ensures !r.Complete? ==> SameMaps(old(V()), V())
      ensures r.NoMemory? ==> free == []
      ensures r.Remap? <==> Present(Lookup(old(mem[..]), d, a / PGSIZE))
      ensures r.Complete? ==> Mapped(old(V()), V(), d, a / PGSIZE, 1, pa / PGSIZE, perm)
    {
      ghost var vm, v := V(), a / PGSIZE;
      PageIndex(a);
      hide Entry, PutEntry, Present, FrameOf, MakePte, Lookup, Grown, FreeList, TableInv, Has, SameMaps, Mapped;
      var t := WalkPgdir(d, a, true);
      if t == 0 {
        NoTableNoEntry(vm.mem, d, v);
        return NoMemory;
      }
      ghost var vm1 := V();
      TableOf(vm1, d, v);
      EntrySeen(vm, vm1, d, v);
      if Present(Entry(mem[t], Ptx(a))) {
        return Remap;
      }
      var w := MakePte(pa / PGSIZE, perm);
      SetPteKeeps(vm1, d, v, w, freelist, free);
      GrownDirs(vm, vm1, d);
      SetPteIsMapped(vm, vm1, d, v, pa / PGSIZE, perm);
      mem[t] := PutEntry(mem[t], Ptx(a), w);
      assert V() == Vm(SetPte(vm1.mem, d, v, w), owner);
      GrownTransitive(vm, vm1, V(), d);
      r := Complete;
    }

    method MapNext(d: nat, a: nat, pa: nat, perm: nat, ghost vm: PageTable.Vm, ghost lo: nat, ghost n: nat, ghost f: nat)
      returns (r: Mapping)
      requires perm < PGSIZE && lo + n < NPAGES && f + n < NPAGES && a < UINT && pa < UINT
      requires a / PGSIZE == lo + n && pa / PGSIZE == f + n && pa % PGSIZE == 0
      requires Walkable() && Progress(vm, V(), d, lo, n, f, perm)
      requires d < |vm.mem|
      modifies this`freelist, this`free, this`owner, mem
      ensures Walkable() && (r.NoMemory? ==> free == [])
      ensures r.Remap? <==> Present(Lookup(vm.mem, d, lo + n))
      ensures Progress(vm, V(), d, lo, if r.Complete? then n + 1 else n, f, perm)
    {
      hide Entry, Present, FrameOf, MakePte, Lookup, FreeList, TableInv, Progress, Grown, Mapped, SameMaps, Has;
      ghost var vm1 := V();
      ProgressNext(vm, vm1, d, lo, n, f, perm);
      r := MapPage(d, a, pa, perm);
      if r.Complete? {
        ProgressMore(vm, vm1, V(), d, lo, n, f, perm);
      } else {
        ProgressStops(vm, vm1, V(), d, lo, n, f, perm);
      }
    }

    /** mappages: on failure the pages mapped so far stay mapped. The loop ends even when the
        range ends at the top of the address space, and panics where it first meets a page that
        is mapped already. */
    method Mappages(d: nat, va: nat, size: nat, pa: nat, perm: nat) returns (r: Mapping, ghost n: nat)
      requires Walkable() && Has(V(), d, Dir) && 0 < size && va + size <= UINT
      requires pa % PGSIZE == 0 && perm < PGSIZE && pa / PGSIZE + PagesIn(va, size) <= NPAGES
      requires d < mem.Length
      modifies this`freelist, this`free, this`owner, mem
      ensures Walkable() && n <= PagesIn(va, size) && (r.Complete? <==> n == PagesIn(va, size)) && (r.NoMemory? ==> free == [])
      ensures forall u :: va / PGSIZE <= u < va / PGSIZE + n ==> !Present(Lookup(old(mem[..]), d, u))
      ensures n < PagesIn(va, size) ==> (r.Remap? <==> Present(Lookup(old(mem[..]), d, va / PGSIZE + n)))
      ensures Progress(old(V()), V(), d, va / PGSIZE, n, pa / PGSIZE, perm)
    {
      hide Entry, Present, FrameOf, MakePte, Lookup, FreeList, TableInv, Progress, PagesIn, PageAddr, Has;
      RangeEnds(va, size, pa);
      var a := va - va % PGSIZE;
      var last := (va + size - 1) - (va + size - 1) % PGSIZE;
      r, n := MapRange(d, a, last, pa, perm, va / PGSIZE, PagesIn(va, size), pa / PGSIZE);
    }

    /** Its loop, from page lo to page lo + count - 1. */
    method MapRange(d: nat, first: nat, last: nat, pa: nat, perm: nat, ghost lo: nat, ghost count: nat, ghost f: nat)
      returns (r: Mapping, ghost n: nat)
      requires Walkable() && Has(V(), d, Dir) && perm < PGSIZE && count > 0
      requires first == PageAddr(lo) && last == PageAddr(lo + count - 1) && pa == PageAddr(f)
      requires lo + count <= NPAGES && f + count <= NPAGES
      requires d < |V().mem|
      modifies this`freelist, this`free, this`owner, mem
      ensures Walkable() && n <= count && (r.Complete? <==> n == count) && (r.NoMemory? ==> free == [])
      ensures forall u :: lo <= u < lo + n ==> !Present(Lookup(old(V().mem), d, u))
      ensures n < count ==> (r.Remap? <==> Present(Lookup(old(V().mem), d, lo + n)))
      ensures Progress(old(V()), V(), d, lo, n, f, perm)
    {
      hide PageAddr, Entry, Present, FrameOf, MakePte, Lookup, FreeList, TableInv, Progress, Grown, Mapped, SameMaps, Has;
      ghost var vm := V();
      var a, pa' := first, pa;
      n := 0;
      TableInvFrames(vm);
      ProgressStart(vm, d, lo, f, perm);
      while true
        invariant 0 <= n < count && a == PageAddr(lo + n) && pa' == PageAddr(f + n)
        invariant Walkable() && Progress(vm, V(), d, lo, n, f, perm)
        invariant forall u :: lo <= u < lo + n ==> !Present(Lookup(vm.mem, d, u))
        decreases count - n
      {
        PageStart(lo + n);
        PageStart(f + n);
        LastPage(lo + n, lo + count - 1);
        r := MapNext(d, a, pa', perm, vm, lo, n, f);
        if !r.Complete? {
          return;
        }
        n := n + 1;
        if a == last {
          break;
        }
        a := (a + PGSIZE) % UINT;
        pa' := (pa' + PGSIZE) % UINT;
      }
    }

    // ----- Unmapping -----

    /** The present entry for page v: its page is freed, then the entry cleared. */
    method FreePage(d: nat, t: nat, a: nat)
      requires Valid() && a / PGSIZE < KPAGES && HasTable(V(), d, a / PGSIZE)
      requires t == FrameOf(Entry(V().mem[d], a / PGSIZE / NENTRIES)) && t < mem.Length
      requires Present(Entry(mem[t], a / PGSIZE % NENTRIES))
      modifies this`freelist, this`free, this`owner, mem
      ensures Valid() && Unmapped(old(V()), V(), d, a / PGSIZE, a / PGSIZE + 1)
    {
      hide Inv, TableInv, FreeList, Lookup, Present, FrameOf, Entry, PutEntry, SameMaps, Unmapped;
      ghost var vm, v := V(), a / PGSIZE;
      InvIsTableInv(vm);
      TableOf(vm, d, v);
      PageIndex(a);
      var f := FrameOf(Entry(mem[t], Ptx(a)));
      TakeBack(vm, d, v, f, freelist, free);
      owner := owner[f := Held];
      Kfree(f);
      ghost var vm1 := V();
      FreedUnderEntry(vm, vm1, d, v, f);
      EntryCleared(vm, vm1, d, v, f, freelist, free);
      mem[t] := PutEntry(mem[t], Ptx(a), 0);
      assert V() == Vm(SetPte(vm1.mem, d, v, 0), owner);
    }

    /** One turn of deallocuvm, at page k. */
    method DeallocStep(d: nat, a: nat, ghost k: nat, ghost hi: nat) returns (next: nat, ghost k': nat)
      requires Valid() && Has(V(), d, Dir) && k < hi <= KPAGES && a == PageAddr(k)
      modifies this`freelist, this`free, this`owner, mem
      ensures Valid() && k < k' <= KPAGES && next == PageAddr(k')
      ensures Unmapped(old(V()), V(), d, k, if k' <= hi then k' else hi)
    {
      hide Inv, TableInv, FreeList, Lookup, Present, FrameOf, Entry, SameMaps, Unmapped, PageAddr, Has, Grown;
      ghost var vm := V();
      InvIsTableInv(vm);
      PageStart(k);
      PageIndex(a);
      var t := WalkPgdir(d, a, false);
      if t == 0 {
        JumpTo(k);
        next := (Pdx(a) + 1) * 0x40_0000 - PGSIZE;
        k' := (k / NENTRIES + 1) * NENTRIES;
        JumpMissesNothing(vm, d, k, if k' <= hi then k' else hi);
        UnmappedAlready(vm, d, k, if k' <= hi then k' else hi);
      } else {
        TableOf(vm, d, k);
        next, k' := a, k + 1;
        if Present(Entry(mem[t], Ptx(a))) {
          FreePage(d, t, a);
        } else {
          UnmappedAlready(vm, d, k, k + 1);
        }
        JumpTo(k);
      }
      next := next + PGSIZE;
    }

    /** deallocuvm: exactly the user pages from PGROUNDUP(newsz) up to oldsz go, although the
        loop jumps over missing tables; it never moves backwards. */
    method Deallocuvm(d: nat, oldsz: nat, newsz: nat) returns (r: nat)
      requires Valid() && Has(V(), d, Dir) && oldsz <= KERNBASE
      modifies this`freelist, this`free, this`owner, mem
      ensures Valid()
      ensures r == if newsz >= oldsz then oldsz else newsz
      ensures if newsz >= oldsz then V() == old(V()) && free == old(free)
              else Unmapped(old(V()), V(), d, PageUp(newsz), PageUp(oldsz))
      ensures forall data: nat :: DataOk(data) ==> Does(data, old(V()), ShrinkStep(d, oldsz, newsz), V())
    {
      hide Inv, TableInv, FreeList, Lookup, Present, FrameOf, Entry, SameMaps, Unmapped, PageAddr, Has;
      if newsz >= oldsz {
        return oldsz;
      }
      ghost var vm, lo, hi := V(), PageUp(newsz), PageUp(oldsz);
      ghost var k := lo;
      InvIsTableInv(vm);
      PageUps(newsz, oldsz);
      var a := (newsz + PGSIZE - 1) / PGSIZE * PGSIZE;
      UnmappedNothing(vm, d, lo);
      while a < oldsz
        invariant lo <= k <= KPAGES && a == PageAddr(k) && Valid() && Has(V(), d, Dir)
        invariant Unmapped(vm, V(), d, lo, if k <= hi then k else hi)
        decreases KPAGES - k
      {
        ghost var vm1, k1 := V(), k;
        BelowSize(k, oldsz);
        a, k := DeallocStep(d, a, k, hi);
        UnmappedMore(vm, vm1, V(), d, lo, k1, if k <= hi then k else hi);
        UnmappedDirs(vm1, V(), d, k1, if k <= hi then k else hi);
      }
      BelowSize(k, oldsz);
      r := newsz;
    }

    /** freevm: the user pages, the tables, the directory. */
    method Freevm(d: nat)
      requires Valid() && Has(V(), d, Dir)
      modifies this`freelist, this`free, this`owner, mem
      ensures Valid() && Gone(old(V()), V(), d)
      ensures forall data: nat :: DataOk(data) ==> Does(data, old(V()), Release(d), V())
    {
      hide Inv, TableInv, FreeList, Lookup, Present, FrameOf, Entry, SameMaps, Unmapped, Has, Giving, Gone, Released;
      ghost var vm := V();
      WholeUserPart();
      var _ := Deallocuvm(d, KERNBASE, 0);
      ghost var vm1 := V();
      UnmappedDirs(vm, vm1, d, 0, KPAGES);
      NoLeaves(vm, vm1, d);
      InvIsTableInv(vm1);
      DropDir(vm1, d);
      GivingStarts(vm1, d);
      ReleasedFree(vm1, d, freelist, free);
      owner := Released(owner, d, Held);
      assert V() == vm1.(owner := owner);
      var i := 0;
      while i < NENTRIES
        invariant 0 <= i <= NENTRIES && Valid() && Giving(vm1, V(), d, i)
      {
        FreeTable(d, i, vm1);
        i := i + 1;
      }
      ghost var vm2 := V();
      InvIsTableInv(vm2);
      LastHeld(vm1, vm2, d);
      Kfree(d);
      HeldFreed(vm2, V(), d);
      GivingEnds(vm1, vm2, V(), d);
      UnmappedThenGone(vm, vm1, V(), d);
    }

    /** One turn of freevm's loop over the directory. */
    method FreeTable(d: nat, i: nat, ghost vm1: PageTable.Vm)
      requires Valid() && i < NENTRIES && TableInv(vm1) && Has(vm1, d, Dir) && Giving(vm1, V(), d, i)
      modifies this`freelist, this`free, this`owner, mem
      ensures Valid() && Giving(vm1, V(), d, i + 1)
    {
      hide Inv, TableInv, FreeList, Lookup, Present, FrameOf, Entry, SameMaps, Has, Giving;
      ghost var vm2 := V();
      InvIsTableInv(vm2);
      GivingHeld(vm1, vm2, d, i);
      if Present(Entry(mem[d], i)) {
        Kfree(FrameOf(Entry(mem[d], i)));
        HeldFreed(vm2, V(), FrameOf(Entry(vm1.mem[d], i)));
        GivingMore(vm1, vm2, V(), d, i, FrameOf(Entry(vm1.mem[d], i)));
      } else {
        GivingSkips(vm1, vm2, d, i);
      }
    }

    // ----- Building -----

    /** mappages on one user page, whose physical page m is in hand. */
    method InstallPage(d: nat, a: nat, m: nat, perm: nat) returns (r: Mapping)
      requires Valid() && Has(V(), d, Dir) && Has(V(), m, Held) && m < NPAGES
      requires a % PGSIZE == 0 && a < KERNBASE && perm < PGSIZE && d < mem.Length
      modifies this`freelist, this`free, this`owner, mem
      ensures Valid()
      ensures r.Remap? <==> Present(Lookup(old(mem[..]), d, a / PGSIZE))
      ensures r.Complete? ==> Installed(old(V()), V(), d, a / PGSIZE, m, perm)
      ensures !r.Complete? ==> Grown(old(V()), V(), d) && SameMaps(old(V()), V())
    {
      hide Inv, TableInv, FreeList, Lookup, Present, FrameOf, Entry, SameMaps, Has, PagesIn, Grown, Progress, Installed;
      ghost var vm, v := V(), a / PGSIZE;
      InvIsTableInv(vm);
      OnePage(a, m);
      ghost var n;
      r, n := Mappages(d, a, PGSIZE, m * PGSIZE, perm);
      if r.Complete? {
        assert v <= v < v + n;
        InstallIsDone(vm, V(), d, v, m, perm, freelist, free);
        owner := owner[m := Leaf(d, v)];
      } else {
        NothingInstalled(vm, V(), d, v, m, perm);
      }
    }

    /** One line of the kmap table. */
    method MapKernel(d: nat, data: nat, j: nat) returns (ok: bool)
      requires Valid() && Has(V(), d, Dir) && DataOk(data) && j < 4 && d < mem.Length && KernelUpTo(V().mem, d, data, j)
      modifies this`freelist, this`free, this`owner, mem
      ensures Valid() && (ok ==> KernelUpTo(V().mem, d, data, j + 1))
      ensures forall vm :: Built(vm, old(V()), d) ==> Built(vm, V(), d)
    {
      hide Inv, TableInv, FreeList, Lookup, Present, FrameOf, Entry, SameMaps, Has, PagesIn, Grown, Progress, Built, KernelUpTo, Kmaps;
      ghost var vm := V();
      InvIsTableInv(vm);
      KmapCovers(data, j);
      KernelNotYet(vm.mem, d, data, j);
      var k := Kmaps(data)[j];
      ghost var n;
      var r;
      r, n := Mappages(d, k.virt, k.Size(), k.start, k.perm);
      ok := r.Complete?;
      KernelProgress(vm, V(), d, k.virt / PGSIZE, n, k.start / PGSIZE, k.perm);
      forall vm0 | Built(vm0, vm, d) ensures Built(vm0, V(), d) {
        BuiltProgress(vm0, vm, V(), d, k.virt / PGSIZE, n, k.start / PGSIZE, k.perm);
      }
      if ok {
        KernelUpToMore(vm, V(), d, data, j, n);
      }
    }

    /** setupkvm: a new address space with the kernel's part, or nothing at all. */
    method Setupkvm(data: nat) returns (d: nat)
      requires Valid() && DataOk(data)
      modifies this`freelist, this`free, this`owner, mem
      ensures Valid()
      ensures d == 0 ==> Restored(old(V()), V())
      ensures d != 0 ==> d < mem.Length && Built(old(V()), V(), d) && KernelUpTo(V().mem, d, data, 4)
      ensures Does(data, old(V()), SetupStep(d), V())
    {
      hide Inv, TableInv, FreeList, Lookup, Present, FrameOf, Entry, SameMaps, Has, Built, Restored, Gone, KernelUpTo, Kmaps;
      ghost var vm := V();
      InvIsTableInv(vm);
      RestoredNothing(vm);
      d := Kalloc();
      if d == 0 {
        return;
      }
      BuiltDir(vm, d);
      DirFromList(vm, d, freelist, free);
      mem[d] := Filled(0);
      owner := owner[d := Dir];
      assert V() == Vm(vm.mem[d := Filled(0)], vm.owner[d := Dir]);
      NoKernelYet(V().mem, d, data);
      var j := 0;
      while j < 4
        invariant 0 <= j <= 4 && Valid() && 0 < d < mem.Length && Built(vm, V(), d) && KernelUpTo(V().mem, d, data, j)
      {
        BuiltHas(vm, V(), d);
        var ok := MapKernel(d, data, j);
        if !ok {
          ghost var vm1 := V();
          BuiltHas(vm, vm1, d);
          Freevm(d);
          BuiltThenGone(vm, vm1, V(), d);
          return 0;
        }
        j := j + 1;
      }
    }

    // ----- Growing -----

    /** A page from kalloc, cleared and mapped at page k of d; 0 when kalloc has none. */
    method ZeroedPage(d: nat) returns (m: nat)
      requires Valid()
      modifies this`freelist, this`free, this`owner, mem
      ensures Valid()
      ensures m == 0 ==> V() == old(V())
      ensures m != 0 ==> m < mem.Length && m < NPAGES && Has(old(V()), m, Free) && Has(V(), m, Held) && SameMaps(old(V()), V())
      ensures m != 0 ==> V() == Vm(old(V()).mem[m := Filled(0)], old(V()).owner[m := Held])
    {
      hide Inv, TableInv, FreeList, Lookup, Present, FrameOf, Entry, SameMaps, Has;
      ghost var vm := V();
      InvIsTableInv(vm);
      m := Kalloc();
      if m == 0 {
        return;
      }
      HeldAndFilled(vm, m, Filled(0), freelist, free);
      mem[m] := Filled(0);
      assert V() == Vm(vm.mem[m := Filled(0)], vm.owner[m := Held]);
    }

    /** allocuvm: all the new pages, or none; only page tables may be left behind. `ok` is false
        when it panics, because a page of the range is mapped already. If memory runs out before
        it comes to such a page, it takes that page away like its own. */
    method Allocuvm(d: nat, oldsz: nat, newsz: nat) returns (ok: bool, r: nat)
      requires Valid() && Has(V(), d, Dir) && oldsz < UINT && newsz < UINT && d < mem.Length
      modifies this`freelist, this`free, this`owner, mem
      ensures Valid()
      ensures !ok ==> oldsz <= newsz < KERNBASE && !RangeFree(old(mem[..]), d, PageUp(oldsz), PageUp(newsz))
      ensures ok ==> r == newsz || r == 0 || (newsz < oldsz && r == oldsz)
      ensures newsz >= KERNBASE || newsz < oldsz ==> V() == old(V()) && r == if newsz >= KERNBASE then 0 else oldsz
      ensures ok && oldsz <= newsz < KERNBASE ==>
                if r == 0 && newsz > 0 then
                  Withdrawn(old(V()), V(), d, PageUp(oldsz), PageUp(newsz))
                  && (RangeFree(old(mem[..]), d, PageUp(oldsz), PageUp(newsz)) ==> Unextended(old(V()), V(), d))
                else
                  RangeFree(old(mem[..]), d, PageUp(oldsz), PageUp(newsz))
                  && Extended(old(V()), V(), d, PageUp(oldsz), PageUp(newsz))
      ensures ok ==> forall data: nat :: DataOk(data) ==> Does(data, old(V()), GrowStep(d, oldsz, newsz, r), V())
    {
      hide Inv, TableInv, FreeList, Lookup, Present, FrameOf, Entry, SameMaps, Has, Grown, Extended, Unextended, Withdrawn, Installed, PageAddr;
      if newsz >= KERNBASE {
        return true, 0;
      }
      if newsz < oldsz {
        return true, oldsz;
      }
      ghost var vm, lo, hi := V(), PageUp(oldsz), PageUp(newsz);
      InvIsTableInv(vm);
      PageUpOrder(oldsz, newsz);
      var a := (oldsz + PGSIZE - 1) / PGSIZE * PGSIZE;
      ghost var k := lo;
      ExtendedNothing(vm, d, lo);
      while a < newsz
        invariant lo <= k <= hi && a == PageAddr(k) && Valid() && Has(V(), d, Dir) && Extended(vm, V(), d, lo, k)
        invariant RangeFree(vm.mem, d, lo, k)
        decreases hi - k
      {
        BelowSize(k, newsz);
        PageStart(k);
        var m := GrowPage(d, a, oldsz, newsz, vm, lo, k, hi);
        if m.Remap? {
          return false, 0;
        }
        if m.NoMemory? {
          if RangeFree(vm.mem, d, lo, hi) {
            WithdrawnNothing(vm, V(), d, lo, hi);
          }
          return true, 0;
        }
        a := a + PGSIZE;
        k := k + 1;
        NextPage(k - 1);
      }
      BelowSize(k, newsz);
      ok, r := true, newsz;
    }

    /** One turn of allocuvm; on failure everything new is taken back. */
    method GrowPage(d: nat, a: nat, oldsz: nat, newsz: nat, ghost vm: PageTable.Vm, ghost lo: nat, ghost k: nat, ghost hi: nat)
      returns (r: Mapping)
      requires Valid() && Has(V(), d, Dir) && Inv(vm) && Has(vm, d, Dir) && d < |vm.mem| && lo <= k < hi <= KPAGES
      requires lo == PageUp(oldsz) && hi == PageUp(newsz) && oldsz < newsz <= KERNBASE
      requires a / PGSIZE == k && a % PGSIZE == 0 && a < KERNBASE && Extended(vm, V(), d, lo, k)
      modifies this`freelist, this`free, this`owner, mem
      ensures Valid()
      ensures r.Complete? ==> Has(V(), d, Dir) && Extended(vm, V(), d, lo, k + 1) && !Present(Lookup(vm.mem, d, k))
      ensures r.NoMemory? ==> Withdrawn(vm, V(), d, lo, hi)
      ensures r.Remap? ==> Present(Lookup(vm.mem, d, k))
    {
      hide Inv, TableInv, FreeList, Lookup, Present, FrameOf, Entry, SameMaps, Has, Grown, Extended, Withdrawn, Installed, PageUp, Unmapped;
      ghost var vm1 := V();
      InvIsTableInv(vm);
      InvIsTableInv(vm1);
      ExtendedUntouched(vm, vm1, d, lo, k);
      var m := ZeroedPage(d);
      if m == 0 {
        var _ := Deallocuvm(d, newsz, oldsz);
        ExtendedUnmapped(vm, vm1, V(), d, lo, k, hi);
        return NoMemory;
      }
      ghost var vm2 := V();
      HeldDirs(vm1, vm2, d, k, m);
      r := InstallPage(d, a, m, PTE_W + PTE_U);
      ghost var vm3 := V();
      if r.Complete? {
        ExtendedMore(vm, vm1, vm2, vm3, d, lo, k, m);
        InstalledDirs(vm2, vm3, d, k, m, PTE_W + PTE_U);
        return;
      }
      if r.Remap? {
        return;
      }
      GrownHas(vm2, vm3, d, m);
      ExtendedWithout(vm, vm1, vm2, vm3, d, lo, k, m);
      var _ := Deallocuvm(d, newsz, oldsz);
      ghost var vm4 := V();
      UnmappedHolds(vm3, vm4, d, lo, hi, m);
      InvIsTableInv(vm4);
      Kfree(m);
      HeldFreed(vm4, V(), m);
      UnmappedThenFreed(vm3, vm4, V(), d, lo, hi, m);
      ExtendedUnmapped(vm, vm3.(owner := vm3.owner[m := Free]), V(), d, lo, k, hi);
    }

    // ----- Copying -----

    /** The page of entry w from kalloc, with the same contents; 0 when kalloc has none. */
    method DuplicatePage(w: nat) returns (m: nat)
      requires Valid() && FrameOf(w) < mem.Length && FrameOf(w) in owner && !owner[FrameOf(w)].Free?
      modifies this`freelist, this`free, this`owner, mem
      ensures Valid()
      ensures m == 0 ==> V() == old(V())
      ensures m != 0 ==> m < mem.Length && m < NPAGES && Has(old(V()), m, Free) && Has(V(), m, Held) && SameMaps(old(V()), V())
      ensures m != 0 ==> V() == Vm(old(V()).mem[m := old(V()).mem[FrameOf(w)]], old(V()).owner[m := Held])
    {
      hide Inv, TableInv, FreeList, Lookup, Present, FrameOf, Entry, SameMaps;
      ghost var vm := V();
      InvIsTableInv(vm);
      m := Kalloc();
      if m == 0 {
        return;
      }
      HeldAndFilled(vm, m, vm.mem[FrameOf(w)], freelist, free);
      mem[m] := mem[FrameOf(w)];
      assert V() == Vm(vm.mem[m := vm.mem[FrameOf(w)]], vm.owner[m := Held]);
    }

    /** copyuvm: a new address space with copies of the first sz bytes' pages, with the same
        flags, on pages of its own; or nothing at all. `there` is false when it panics, because
        one of the pages is missing. */
    method Copyuvm(d: nat, sz: nat, data: nat) returns (there: bool, d2: nat)
      requires Valid() && Has(V(), d, Dir) && d < mem.Length && sz <= KERNBASE && DataOk(data)
      modifies this`freelist, this`free, this`owner, mem
      ensures Valid()
      ensures !there ==> exists u :: 0 <= u < PageUp(sz) && u < NPAGES && !Present(Lookup(old(mem[..]), d, u))
      ensures there && d2 == 0 ==> Restored(old(V()), V())
      ensures there && d2 != 0 ==> forall u :: 0 <= u < PageUp(sz) ==> u < NPAGES && Present(Lookup(old(mem[..]), d, u))
      ensures there && d2 != 0 ==> d2 < mem.Length && Built(old(V()), V(), d2) && Copied(old(V()), V(), d, d2, PageUp(sz), data)
      ensures there ==> Does(data, old(V()), CopyStep(d, d2, sz), V())
    {
      hide Inv, TableInv, FreeList, Lookup, Present, FrameOf, Entry, SameMaps, Has, Built, Restored, Gone, KernelUpTo, Copied, PageUp;
      ghost var vm := V();
      InvIsTableInv(vm);
      there := true;
      d2 := Setupkvm(data);
      if d2 == 0 {
        return;
      }
      CopiedNothing(vm, V(), d, d2, data);
      PageUpBound(sz);
      var i := 0;
      ghost var k := 0;
      while i < sz
        invariant 0 <= k <= PageUp(sz) && i == PageAddr(k) && Valid() && 0 < d2 < mem.Length && there
        invariant Built(vm, V(), d2) && Copied(vm, V(), d, d2, k, data)
        invariant forall u :: 0 <= u < k ==> u < NPAGES && Present(Lookup(vm.mem, d, u))
        decreases PageUp(sz) - k
      {
        BelowSize(k, sz);
        PageStart(k);
        var ok;
        there, ok := CopyPage(d, d2, i, vm, k, data);
        if !there {
          return;
        }
        if !ok {
          ghost var vm1 := V();
          BuiltHas(vm, vm1, d2);
          Freevm(d2);
          BuiltThenGone(vm, vm1, V(), d2);
          d2 := 0;
          return;
        }
        NextPage(k);
        i := i + PGSIZE;
        k := k + 1;
      }
      BelowSize(k, sz);
    }

    /** One turn of copyuvm, up to the jump to `bad`. */
    method CopyPage(d: nat, d2: nat, i: nat, ghost vm: PageTable.Vm, ghost k: nat, ghost data: nat) returns (there: bool, ok: bool)
      requires Valid() && DataOk(data) && Inv(vm) && Has(vm, d, Dir) && d < |vm.mem| && d2 < mem.Length && i < KERNBASE
      requires k == i / PGSIZE < KPAGES && i % PGSIZE == 0 && Built(vm, V(), d2) && Copied(vm, V(), d, d2, k, data)
      modifies this`freelist, this`free, this`owner, mem
      ensures Valid() && Built(vm, V(), d2) && there == Present(Lookup(vm.mem, d, k))
      ensures there && ok ==> Copied(vm, V(), d, d2, k + 1, data)
    {
      hide Inv, TableInv, FreeList, Lookup, Present, FrameOf, Entry, SameMaps, Grown, Built, Copied, Installed;
      ghost var vm1 := V();
      InvIsTableInv(vm);
      InvIsTableInv(vm1);
      SourceSame(vm, vm1, d, d2, k);
      var t := WalkPgdir(d, i, false);
      PageIndex(i);
      if t == 0 {
        NoTableNoEntry(vm1.mem, d, k);
        return false, false;
      }
      TableOf(vm1, d, k);
      var pte := Entry(mem[t], Ptx(i));
      there, ok := Present(pte), false;
      if there {
        SourcePage(vm, vm1, d, d2, k, data);
        ok := CopyEntry(d, d2, i, pte, vm, k, data);
      }
    }

    /** Its second half, for the present entry w. */
    method CopyEntry(d: nat, d2: nat, i: nat, w: nat, ghost vm: PageTable.Vm, ghost k: nat, ghost data: nat) returns (ok: bool)
      requires Valid() && DataOk(data) && Inv(vm) && Has(vm, d, Dir) && d < |vm.mem| && d2 < mem.Length && i < KERNBASE
      requires k == i / PGSIZE < KPAGES && i % PGSIZE == 0 && Built(vm, V(), d2) && Copied(vm, V(), d, d2, k, data)
      requires w == Lookup(vm.mem, d, k) && Present(w)
      modifies this`freelist, this`free, this`owner, mem
      ensures Valid() && Built(vm, V(), d2) && (ok ==> Copied(vm, V(), d, d2, k + 1, data))
    {
      hide Inv, TableInv, FreeList, Lookup, Present, FrameOf, Entry, SameMaps, Grown, Built, Copied, Installed;
      ghost var vm1 := V();
      InvIsTableInv(vm1);
      BuiltHas(vm, vm1, d2);
      SourcePage(vm, vm1, d, d2, k, data);
      var m := DuplicatePage(w);
      if m == 0 {
        return false;
      }
      ghost var vm2 := V();
      HeldDirs(vm1, vm2, d2, k, m);
      var r := InstallPage(d2, i, m, w % PGSIZE);
      ok := r.Complete?;
      ghost var vm3 := V();
      if ok {
        CopiedMore(vm, vm1, vm2, vm3, d, d2, k, m, data);
        BuiltInstalled(vm, vm1, vm2, vm3, d2, k, m, w % PGSIZE);
      } else {
        InvIsTableInv(vm);
        InvIsTableInv(vm2);
        InvIsTableInv(vm3);
        GrownHas(vm2, vm3, d2, m);
        Kfree(m);
        HeldFreed(vm3, V(), m);
        BuiltWithout(vm, vm1, vm2, vm3, V(), d2, m);
      }
    }

    // ----- Writing to user memory -----

    method Uva2ka(d: nat, uva: nat) returns (r: Uva)
      requires Valid() && Has(V(), d, Dir) && d < mem.Length && uva < UINT
      modifies this`freelist, this`free, this`owner, mem
      ensures V() == old(V()) && Valid() && free == old(free)
      ensures r == Translate(V().mem, d, uva / PGSIZE)
    {
      hide Inv, TableInv, FreeList, FrameOf, Entry, SameMaps, Has, Grown;
      ghost var vm := V();
      InvIsTableInv(vm);
      var t := WalkPgdir(d, uva, false);
      PageIndex(uva);
      if t == 0 {
        return NullEntry;
      }
      TableOf(vm, d, uva / PGSIZE);
      var pte := Entry(mem[t], Ptx(uva));
      if !Present(pte) || !UserBit(pte) {
        return NoAccess;
      }
      r := Frame(FrameOf(pte));
    }

    /** copyout: a flat update of the user's bytes, across page boundaries. A bad page stops
        it where that page begins; a missing table makes it follow a null pointer. */
    method Copyout(d: nat, va: nat, src: seq<byte>) returns (r: CopyResult, ghost m: nat)
      requires Valid() && Has(V(), d, Dir) && d < mem.Length && va < UINT && KernelPrivate(V().mem, d)
      modifies this`freelist, this`free, this`owner, mem
      ensures Valid() && m <= |src| && Written(old(V()), V(), d, va, src[..m])
      ensures r.Done? <==> m == |src|
      ensures m < |src| ==> (va + m) / PGSIZE < NPAGES && Translate(old(V().mem), d, (va + m) / PGSIZE)
                            == if r.NullPointer? then NullEntry else NoAccess
      ensures forall data: nat :: DataOk(data) ==> Does(data, old(V()), VmRuns.Store(d, va, src[..m]), V())
    {
      hide Inv, FreeList, Has, Written, KernelPrivate, Translate;
      ghost var vm := V();
      var va', len := va, |src|;
      m := 0;
      var done := 0;
      WrittenNothing(vm, d, va);
      while len > 0
        invariant 0 <= m <= |src| && m == done && len == |src| - m && (len > 0 ==> va' == va + m < UINT)
        invariant Valid() && Has(V(), d, Dir) && Written(vm, V(), d, va, src[..m])
        decreases len
      {
        ghost var vm1 := V();
        TranslateSame(vm, vm1, d, va, src[..m], va' / PGSIZE);
        UserPart(vm.mem, d, va');
        var n;
        r, n := CopyoutPage(d, va', src[done..]);
        if n == 0 {
          return;
        }
        WrittenMore(vm, vm1, V(), d, va, src[..m], src[done..][..n]);
        assert src[..m] + src[done..][..n] == src[..m + n];
        WrittenDirs(vm1, V(), d, va', src[done..][..n]);
        len := len - n;
        done := done + n;
        m := m + n;
        if len > 0 {
          NextStart(va', n);
        }
        va' := (va' - va' % PGSIZE + PGSIZE) % UINT;
      }
      r := Done;
    }

    /** One turn of copyout: n bytes into the page of va, or none. */
    method CopyoutPage(d: nat, va: nat, src: seq<byte>) returns (r: CopyResult, n: nat)
      requires Valid() && Has(V(), d, Dir) && d < mem.Length && va < UINT && |src| > 0
      requires va / PGSIZE < NPAGES && (va / PGSIZE >= KPAGES ==> !Translate(V().mem, d, va / PGSIZE).Frame?)
      modifies this`freelist, this`free, this`owner, mem
      ensures Valid() && n <= |src| && Written(old(V()), V(), d, va, src[..n])
      ensures var t := Translate(old(V().mem), d, va / PGSIZE);
              if t.Frame? then n > 0 && (n == |src| || va % PGSIZE + n == PGSIZE)
              else n == 0 && V() == old(V()) && r == if t.NullEntry? then NullPointer else Failed
    {
      hide Inv, FreeList, Has, Written, Lookup, Entry, Patched;
      ghost var vm := V();
      WrittenNothing(vm, d, va);
      var va0 := va - va % PGSIZE;
      assert va0 / PGSIZE == va / PGSIZE;
      var pa0 := Uva2ka(d, va0);
      if !pa0.Frame? {
        r, n := if pa0.NullEntry? then NullPointer else Failed, 0;
        assert src[..n] == [];
        return;
      }
      n := PGSIZE - (va - va0);
      if n > |src| {
        n := |src|;
      }
      FrameIsUserPage(vm, d, va);
      PatchIsWritten(vm, d, va, src[..n], freelist, free);
      mem[pa0.f] := Patched(mem[pa0.f], va - va0, src[..n]);
      assert V() == vm.(mem := vm.mem[pa0.f := Patched(vm.mem[pa0.f], va % PGSIZE, src[..n])]);
      r := Done;
    }
  }
}
