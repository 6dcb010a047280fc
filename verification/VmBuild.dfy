/** Building address spaces: the kernel's part, new user pages, copies. */
module VmBuild {
  import opened DiskBytes
  import opened PageTable
  import opened VmSpec

  // ----- One user page -----

  ghost predicate ToTable(o: Owner, o': Owner, d: nat) {
    o' == o || (o.Free? && o'.Table? && o'.d == d)
  }

  /** Page m, which was in hand, is page v of d; free pages may have become tables. */
  ghost predicate Installed(vm: PageTable.Vm, vm': PageTable.Vm, d: nat, v: nat, m: nat, perm: nat)
    requires m < NPAGES && perm < PGSIZE
  {
    && |vm'.mem| == |vm.mem| && vm'.owner.Keys == vm.owner.Keys && Has(vm, m, Held) && Has(vm', m, Leaf(d, v))
    && (forall f: nat :: f in vm.owner && f != m ==> ToTable(vm.owner[f], vm'.owner[f], d))
    && (forall f: nat :: f in vm.owner && f < |vm.mem| && (vm.owner[f].Held? || vm.owner[f].Leaf?) ==> vm'.mem[f] == vm.mem[f])
    && (forall e: nat, u: nat :: Has(vm, e, Dir) && u < NPAGES && e < |vm.mem| ==>
          Lookup(vm'.mem, e, u) == if e == d && u == v then MakePte(m, perm) else Lookup(vm.mem, e, u))
  }

  /** After mappages on one page, the page passes to its new owner. */
  lemma InstallIsDone(vm: PageTable.Vm, vm1: PageTable.Vm, d: nat, v: nat, m: nat, perm: nat, head: nat, free: seq<nat>)
    requires Inv(vm) && TableInv(vm1) && FreeList(vm1, head, free) && v < KPAGES && m < NPAGES && perm < PGSIZE
    requires Has(vm, m, Held) && Progress(vm, vm1, d, v, 1, m, perm) && d < |vm.mem| && !Present(Lookup(vm.mem, d, v))
    ensures var vm2 := vm1.(owner := vm1.owner[m := Leaf(d, v)]);
            Inv(vm2) && FreeList(vm2, head, free) && Installed(vm, vm2, d, v, m, perm)
  {
    hide Lookup, Present, FrameOf, Entry, MakePte, TablesOwned, TablesUsed, LeavesOwned, LeavesUsed, FreeList;
    var vm2 := vm1.(owner := vm1.owner[m := Leaf(d, v)]);
    assert Has(vm1, m, Held);
    TableInvKept(vm1, vm2);
    FreeListKept(vm1, vm2, head, free);
    MakePteParts(m, perm);
    forall e: nat, u: nat | Has(vm, e, Dir) && u < NPAGES && e < |vm.mem|
      ensures Lookup(vm2.mem, e, u) == if e == d && u == v then MakePte(m, perm) else Lookup(vm.mem, e, u)
    {
    }
    InstalledInv(vm, vm2, d, v, m, perm);
  }

  lemma InstalledInv(vm: PageTable.Vm, vm2: PageTable.Vm, d: nat, v: nat, m: nat, perm: nat)
    requires Inv(vm) && TableInv(vm2) && v < KPAGES && m < NPAGES && perm < PGSIZE && Has(vm, d, Dir) && d < |vm.mem|
    requires Installed(vm, vm2, d, v, m, perm) && !Present(Lookup(vm.mem, d, v))
    ensures Inv(vm2)
  {
    hide Lookup, Present, FrameOf, Entry, MakePte, TablesOwned, TablesUsed, LeavesOwned, LeavesUsed, SameUserMap;
    MakePteParts(m, perm);
    forall e: nat, u: nat | Has(vm, e, Dir) && u < KPAGES && !(e == d && u == v)
      ensures e < |vm.mem| && e < |vm2.mem| && SameUserMap(vm, vm2, e, u)
    {
      InstalledElsewhere(vm, vm2, d, v, m, perm, e, u);
    }
    LeafAdded(vm, vm2, d, v, m);
  }

  lemma InstalledElsewhere(vm: PageTable.Vm, vm2: PageTable.Vm, d: nat, v: nat, m: nat, perm: nat, e: nat, u: nat)
    requires m < NPAGES && perm < PGSIZE && Installed(vm, vm2, d, v, m, perm) && Has(vm, e, Dir) && u < NPAGES && e < |vm.mem|
    requires !(e == d && u == v)
    ensures SameUserMap(vm, vm2, e, u)
  {
  }

  /** A failed mappages has at most made tables. */
  lemma NothingInstalled(vm: PageTable.Vm, vm1: PageTable.Vm, d: nat, v: nat, m: nat, perm: nat)
    requires Inv(vm) && TableInv(vm1) && m < NPAGES && perm < PGSIZE && Progress(vm, vm1, d, v, 0, m, perm)
    ensures Inv(vm1) && SameMaps(vm, vm1) && Grown(vm, vm1, d)
  {
    hide Lookup, Present, FrameOf, Entry, MakePte, TablesOwned, TablesUsed, LeavesOwned, LeavesUsed;
    forall e: nat, u: nat | Has(vm, e, Dir) && u < KPAGES ensures e < |vm.mem| && e < |vm1.mem| && SameUserMap(vm, vm1, e, u) {
    }
    LeavesKept(vm, vm1);
  }

  /** A range in the kernel's part does not touch the ownership of user pages. */
  lemma KernelProgress(vm: PageTable.Vm, vm1: PageTable.Vm, d: nat, lo: nat, n: nat, f: nat, perm: nat)
    requires Inv(vm) && TableInv(vm1) && f + n <= NPAGES && perm < PGSIZE && lo >= KPAGES && Progress(vm, vm1, d, lo, n, f, perm)
    ensures Inv(vm1)
  {
    hide Lookup, Present, FrameOf, Entry, MakePte, TablesOwned, TablesUsed, LeavesOwned, LeavesUsed;
    forall e: nat, u: nat | Has(vm, e, Dir) && u < KPAGES ensures e < |vm.mem| && e < |vm1.mem| && SameUserMap(vm, vm1, e, u) {
    }
    LeavesKept(vm, vm1);
  }

  // ----- allocuvm -----

  /** Equal, or both not present. */
  ghost predicate SameEntry(w: nat, w': nat) {
    w' == w || (!Present(w) && !Present(w'))
  }

  /** Pages lo up to k of d are new, zeroed, writable user pages; nothing else is translated
      differently and nobody's data has changed. */
  ghost predicate Extended(vm: PageTable.Vm, vm': PageTable.Vm, d: nat, lo: nat, k: nat) {
    && |vm'.mem| == |vm.mem| && vm'.owner.Keys == vm.owner.Keys
    && (forall f: nat :: f in vm.owner ==>
          ToTable(vm.owner[f], vm'.owner[f], d) || (vm.owner[f].Free? && LeafIn(vm'.owner[f], d, lo, k)))
    && (forall f: nat :: f in vm.owner && f < |vm.mem| && (vm.owner[f].Held? || vm.owner[f].Leaf?) ==> vm'.mem[f] == vm.mem[f])
    && (forall e: nat, u: nat :: Has(vm, e, Dir) && u < NPAGES && e < |vm.mem| ==>
          if e == d && lo <= u < k then NewUserPage(vm'.mem, Lookup(vm'.mem, e, u))
          else Lookup(vm'.mem, e, u) == Lookup(vm.mem, e, u))
  }

  ghost predicate NewUserPage(mem: seq<Page>, w: nat) {
    Present(w) && w % PGSIZE == PTE_P + PTE_W + PTE_U && FrameOf(w) < |mem| && mem[FrameOf(w)] == Filled(0)
  }

  /** After an allocuvm that failed: at most tables have been added. */
  ghost predicate Unextended(vm: PageTable.Vm, vm': PageTable.Vm, d: nat) {
    && Grown(vm, vm', d)
    && forall e: nat, u: nat :: Has(vm, e, Dir) && u < NPAGES && e < |vm.mem| ==>
         SameEntry(Lookup(vm.mem, e, u), Lookup(vm'.mem, e, u))
  }

  lemma ExtendedNothing(vm: PageTable.Vm, d: nat, lo: nat)
    ensures Extended(vm, vm, d, lo, lo)
  {
  }

  /** A page m from the free list, zeroed and installed at k. */
  lemma ExtendedMore(vm: PageTable.Vm, vm1: PageTable.Vm, vm2: PageTable.Vm, vm3: PageTable.Vm, d: nat, lo: nat, k: nat, m: nat)
    requires Frames(vm) && lo <= k < KPAGES && m < |vm.mem| && |vm.mem| <= NPAGES && Extended(vm, vm1, d, lo, k)
    requires TableInv(vm1) && Has(vm1, m, Free)
    requires vm2 == Vm(vm1.mem[m := Filled(0)], vm1.owner[m := Held])
    requires Installed(vm2, vm3, d, k, m, PTE_W + PTE_U)
    requires Inv(vm1)
    ensures Extended(vm, vm3, d, lo, k + 1)
  {
    hide Lookup, Present, FrameOf, Entry, MakePte, Filled, Inv, TableInv, NewUserPage, SameMaps, Installed, ToTable, LeafIn;
    forall f: nat | f in vm.owner
      ensures f in vm3.owner && |vm3.mem| == |vm.mem| && vm3.owner.Keys == vm.owner.Keys
      ensures ToTable(vm.owner[f], vm3.owner[f], d) || (vm.owner[f].Free? && LeafIn(vm3.owner[f], d, lo, k + 1))
      ensures f < |vm.mem| && (vm.owner[f].Held? || vm.owner[f].Leaf?) ==> vm3.mem[f] == vm.mem[f]
    {
      ExtendedPage(vm, vm1, vm2, vm3, d, lo, k, m, f);
    }
    forall e: nat, u: nat | Has(vm, e, Dir) && u < NPAGES && e < |vm.mem|
      ensures if e == d && lo <= u < k + 1 then NewUserPage(vm3.mem, Lookup(vm3.mem, e, u))
              else Lookup(vm3.mem, e, u) == Lookup(vm.mem, e, u)
    {
      ExtendedEntry(vm, vm1, vm2, vm3, d, lo, k, m, e, u);
    }
  }

  lemma ExtendedPage(vm: PageTable.Vm, vm1: PageTable.Vm, vm2: PageTable.Vm, vm3: PageTable.Vm, d: nat, lo: nat, k: nat, m: nat, f: nat)
    requires lo <= k < KPAGES && m < |vm.mem| && |vm.mem| <= NPAGES && Extended(vm, vm1, d, lo, k) && Has(vm1, m, Free)
    requires vm2 == Vm(vm1.mem[m := Filled(0)], vm1.owner[m := Held])
    requires Installed(vm2, vm3, d, k, m, PTE_W + PTE_U) && f in vm.owner
    ensures |vm3.mem| == |vm.mem| && vm3.owner.Keys == vm.owner.Keys
    ensures ToTable(vm.owner[f], vm3.owner[f], d) || (vm.owner[f].Free? && LeafIn(vm3.owner[f], d, lo, k + 1))
    ensures f < |vm.mem| && (vm.owner[f].Held? || vm.owner[f].Leaf?) ==> vm3.mem[f] == vm.mem[f]
  {
    hide Lookup, Present, FrameOf, Entry, MakePte, Filled, NewUserPage;
  }

  lemma ExtendedEntry(vm: PageTable.Vm, vm1: PageTable.Vm, vm2: PageTable.Vm, vm3: PageTable.Vm, d: nat, lo: nat, k: nat, m: nat,
                      e: nat, u: nat)
    requires Frames(vm) && lo <= k < KPAGES && m < |vm.mem| && |vm.mem| <= NPAGES && Extended(vm, vm1, d, lo, k)
    requires Inv(vm1) && Has(vm1, m, Free) && Has(vm, e, Dir) && u < NPAGES && e < |vm.mem|
    requires vm2 == Vm(vm1.mem[m := Filled(0)], vm1.owner[m := Held])
    requires Installed(vm2, vm3, d, k, m, PTE_W + PTE_U)
    ensures |vm3.mem| == |vm.mem|
    ensures if e == d && lo <= u < k + 1 then NewUserPage(vm3.mem, Lookup(vm3.mem, e, u))
            else Lookup(vm3.mem, e, u) == Lookup(vm.mem, e, u)
  {
    hide Lookup, Present, FrameOf, Entry, MakePte, Filled, TableInv, LeavesOwned, LeavesUsed, NewUserPage;
    assert Has(vm1, e, Dir);
    ExtendedAt(vm1, vm2, vm3, d, k, m, e, u);
    if e == d && lo <= u < k {
      NewPageStays(vm1, vm2, vm3, d, u, k, m);
    }
  }

  lemma ExtendedAt(vm1: PageTable.Vm, vm2: PageTable.Vm, vm3: PageTable.Vm, d: nat, k: nat, m: nat, e: nat, u: nat)
    requires TableInv(vm1) && Has(vm1, m, Free) && m < |vm1.mem| && m < NPAGES && k < KPAGES
    requires vm2 == Vm(vm1.mem[m := Filled(0)], vm1.owner[m := Held])
    requires Installed(vm2, vm3, d, k, m, PTE_W + PTE_U) && Has(vm1, e, Dir) && u < NPAGES
    ensures e < |vm1.mem| == |vm3.mem|
    ensures if e == d && u == k then NewUserPage(vm3.mem, Lookup(vm3.mem, e, u))
            else Lookup(vm3.mem, e, u) == Lookup(vm1.mem, e, u)
  {
    hide Lookup, Present, FrameOf, Entry, MakePte, Filled, TablesOwned, TablesUsed;
    MakePteParts(m, PTE_W + PTE_U);
    SameTablesSameMaps(vm1, vm2);
    assert Has(vm2, e, Dir);
  }

  lemma NewPageStays(vm1: PageTable.Vm, vm2: PageTable.Vm, vm3: PageTable.Vm, d: nat, u: nat, k: nat, m: nat)
    requires Inv(vm1) && u < k < KPAGES && m < NPAGES && Has(vm1, m, Free) && m < |vm1.mem|
    requires vm2 == Vm(vm1.mem[m := Filled(0)], vm1.owner[m := Held])
    requires Installed(vm2, vm3, d, k, m, PTE_W + PTE_U) && Has(vm1, d, Dir) && d < |vm1.mem|
    requires NewUserPage(vm1.mem, Lookup(vm1.mem, d, u)) && Lookup(vm3.mem, d, u) == Lookup(vm1.mem, d, u)
    ensures NewUserPage(vm3.mem, Lookup(vm3.mem, d, u))
  {
    hide Lookup, Present, FrameOf, Entry, MakePte, Filled, TablesOwned, TablesUsed, LeavesUsed;
    var f := FrameOf(Lookup(vm1.mem, d, u));
    assert Has(vm1, f, Leaf(d, u));
  }

  /** d has no page from lo to hi any more, whether or not it had some; beyond that at most
      tables have been added. */
  ghost predicate Withdrawn(vm: PageTable.Vm, vm': PageTable.Vm, d: nat, lo: nat, hi: nat) {
    && |vm'.mem| == |vm.mem| && vm'.owner.Keys == vm.owner.Keys
    && (forall f: nat :: f in vm.owner ==>
          ToTable(vm.owner[f], vm'.owner[f], d) || (LeafIn(vm.owner[f], d, lo, hi) && vm'.owner[f].Free?))
    && (forall f: nat :: f in vm.owner && f < |vm.mem| && (vm'.owner[f].Held? || vm'.owner[f].Leaf?) ==> vm'.mem[f] == vm.mem[f])
    && (forall e: nat, u: nat :: Has(vm, e, Dir) && u < NPAGES && e < |vm.mem| ==>
          if e == d && lo <= u < hi then !Present(Lookup(vm'.mem, e, u))
          else SameEntry(Lookup(vm.mem, e, u), Lookup(vm'.mem, e, u)))
  }

  /** Taking the new pages back takes every page of the range. */
  lemma ExtendedUnmapped(vm: PageTable.Vm, vm1: PageTable.Vm, vm2: PageTable.Vm, d: nat, lo: nat, k: nat, hi: nat)
    requires Frames(vm) && lo <= k <= hi && Extended(vm, vm1, d, lo, k) && Unmapped(vm1, vm2, d, lo, hi)
    ensures Withdrawn(vm, vm2, d, lo, hi)
  {
    hide Lookup, Present, FrameOf, Entry, MakePte, Filled, NewUserPage;
    assert !Present(0) by {
      ZeroEntry(0);
    }
    forall e: nat, u: nat | Has(vm, e, Dir) && u < NPAGES && e < |vm.mem|
      ensures if e == d && lo <= u < hi then !Present(Lookup(vm2.mem, e, u))
              else SameEntry(Lookup(vm.mem, e, u), Lookup(vm2.mem, e, u))
    {
      assert Has(vm1, e, Dir);
    }
  }

  /** If there were none before, at most tables are left behind. */
  lemma WithdrawnNothing(vm: PageTable.Vm, vm': PageTable.Vm, d: nat, lo: nat, hi: nat)
    requires Inv(vm) && hi <= KPAGES && Withdrawn(vm, vm', d, lo, hi)
    requires Has(vm, d, Dir) && d < |vm.mem| && forall u :: lo <= u < hi ==> !Present(Lookup(vm.mem, d, u))
    ensures Unextended(vm, vm', d)
  {
    hide Lookup, Present, FrameOf, Entry, TablesOwned, TablesUsed, LeavesOwned;
    forall f: nat | f in vm.owner ensures ToTable(vm.owner[f], vm'.owner[f], d) {
      assert vm.owner[f].Leaf? ==> Has(vm, f, Leaf(vm.owner[f].d, vm.owner[f].v));
    }
  }

  // ----- A new address space -----

  /** d is a new address space made of pages that were free; nothing else has changed. */
  ghost predicate Built(vm: PageTable.Vm, vm': PageTable.Vm, d: nat) {
    && |vm'.mem| == |vm.mem| && vm'.owner.Keys == vm.owner.Keys && Has(vm, d, Free) && Has(vm', d, Dir)
    && (forall f: nat :: f in vm.owner ==>
          (vm'.owner[f] == vm.owner[f] && !Part(vm.owner[f], f, d)) || (vm.owner[f].Free? && Part(vm'.owner[f], f, d)))
    && (forall f: nat :: f in vm.owner && f < |vm.mem| && (vm.owner[f].Held? || vm.owner[f].Leaf?) ==> vm'.mem[f] == vm.mem[f])
    && (forall e: nat, u: nat :: Has(vm, e, Dir) && u < NPAGES && e < |vm.mem| ==> Lookup(vm'.mem, e, u) == Lookup(vm.mem, e, u))
  }

  /** Every page is owned as before, free ones included; no translation and no data changed. */
  ghost predicate Restored(vm: PageTable.Vm, vm': PageTable.Vm) {
    && |vm'.mem| == |vm.mem| && vm'.owner == vm.owner
    && (forall f: nat :: f in vm.owner && f < |vm.mem| && (vm.owner[f].Held? || vm.owner[f].Leaf?) ==> vm'.mem[f] == vm.mem[f])
    && (forall e: nat, u: nat :: Has(vm, e, Dir) && u < NPAGES && e < |vm.mem| ==> Lookup(vm'.mem, e, u) == Lookup(vm.mem, e, u))
  }

  /** Building an address space and giving it up is as if nothing had happened. */
  lemma BuiltThenGone(vm: PageTable.Vm, vm1: PageTable.Vm, vm2: PageTable.Vm, d: nat)
    requires Built(vm, vm1, d) && Gone(vm1, vm2, d)
    ensures Restored(vm, vm2)
  {
    hide Lookup;
    forall f: nat | f in vm.owner ensures vm2.owner[f] == vm.owner[f] {
    }
    assert vm2.owner == vm.owner;
    forall e: nat, u: nat | Has(vm, e, Dir) && u < NPAGES && e < |vm.mem|
      ensures Lookup(vm2.mem, e, u) == Lookup(vm.mem, e, u)
    {
      assert Has(vm1, e, Dir) && e != d;
    }
  }

  /** The first page of an address space. */
  lemma BuiltDir(vm: PageTable.Vm, d: nat)
    requires Inv(vm) && Has(vm, d, Free)
    ensures d < |vm.mem|
    ensures var vm' := Vm(vm.mem[d := Filled(0)], vm.owner[d := Dir]);
            Inv(vm') && Built(vm, vm', d) && forall u: nat :: u < NPAGES ==> Lookup(vm'.mem, d, u) == 0
  {
    hide Lookup, Present, FrameOf, Entry, Filled, TablesOwned, LeavesOwned;
    var held := vm.(owner := vm.owner[d := Held]);
    forall f: nat | f in vm.owner ensures !Part(vm.owner[f], f, d) {
      assert Has(vm, f, vm.owner[f]);
    }
    HeldInv(vm, d);
    NewDir(held, d);
    assert held.owner[d := Dir] == vm.owner[d := Dir];
  }

  lemma HeldInv(vm: PageTable.Vm, f: nat)
    requires Inv(vm) && Has(vm, f, Free)
    ensures Inv(vm.(owner := vm.owner[f := Held]))
  {
    hide Lookup, Present, FrameOf, Entry, TablesOwned, TablesUsed, LeavesOwned, LeavesUsed;
    var vm1 := vm.(owner := vm.owner[f := Held]);
    TableInvKept(vm, vm1);
    forall e: nat, u: nat | Has(vm, e, Dir) && u < KPAGES ensures e < |vm.mem| && e < |vm1.mem| && SameUserMap(vm, vm1, e, u) {
    }
    LeavesKept(vm, vm1);
  }

  /** Mapping more of it. */
  lemma BuiltProgress(vm: PageTable.Vm, vm1: PageTable.Vm, vm2: PageTable.Vm, d: nat, lo: nat, n: nat, f: nat, perm: nat)
    requires f + n <= NPAGES && perm < PGSIZE && Built(vm, vm1, d) && Progress(vm1, vm2, d, lo, n, f, perm)
    ensures Built(vm, vm2, d)
  {
    hide Lookup, MakePte;
    forall e: nat, u: nat | Has(vm, e, Dir) && u < NPAGES && e < |vm.mem|
      ensures Lookup(vm2.mem, e, u) == Lookup(vm.mem, e, u)
    {
      assert Has(vm1, e, Dir) && e != d;
    }
  }

  // ----- The kernel's part -----

  const EXTMEM: nat := 0x10_0000
  const PHYSTOP: nat := 0xE00_0000
  const DEVSPACE: nat := 0xFE00_0000
  const KERNLINK: nat := KERNBASE + EXTMEM

  /** struct kmap */
  datatype Kmap = Kmap(virt: nat, start: nat, end: nat, perm: nat) {
    /** phys_end - phys_start, in 32 bits */
    function Size(): nat {
      (end - start) % UINT
    }
  }

  /** `data`, the first address past the kernel's text, as the linker sets it. */
  predicate DataOk(data: nat) {
    KERNLINK < data < KERNBASE + PHYSTOP && data % PGSIZE == 0
  }

  /** The kmap table */
  function Kmaps(data: nat): seq<Kmap>
    requires DataOk(data)
  {
    [Kmap(KERNBASE, 0, EXTMEM, PTE_W),
     Kmap(KERNLINK, KERNLINK - KERNBASE, data - KERNBASE, 0),
     Kmap(data, data - KERNBASE, PHYSTOP, PTE_W),
     Kmap(DEVSPACE, DEVSPACE, 0, PTE_W)]
  }

  /** What page u must translate to: physical memory from KERNBASE on, read-only where the
      kernel's text is, and the devices at their own addresses. */
  function KernelPte(data: nat, u: nat): nat
    requires DataOk(data) && u < NPAGES
  {
    if u < KPAGES then 0
    else if u * PGSIZE < KERNBASE + PHYSTOP then
      MakePte(u - KPAGES, if KERNLINK <= u * PGSIZE < data then 0 else PTE_W)
    else if u * PGSIZE >= DEVSPACE then MakePte(u, PTE_W)
    else 0
  }

  /** The page where entry j of the table starts, and where all of them have been mapped. */
  function Bound(data: nat, j: nat): nat
    requires DataOk(data) && j <= 4
  {
    if j == 0 then KPAGES
    else if j == 1 then KERNLINK / PGSIZE
    else if j == 2 then data / PGSIZE
    else if j == 3 then (KERNBASE + PHYSTOP) / PGSIZE
    else NPAGES
  }

  ghost predicate KernelUpTo(mem: seq<Page>, d: nat, data: nat, j: nat)
    requires d < |mem| && DataOk(data) && j <= 4
  {
    forall u: nat :: u < NPAGES ==> Lookup(mem, d, u) == if u < Bound(data, j) then KernelPte(data, u) else 0
  }

  /** Entry j covers the kernel's pages from Bound(j) to Bound(j + 1), but for a gap before
      the devices, and nothing else. */
  lemma KmapCovers(data: nat, j: nat)
    requires DataOk(data) && j < 4
    ensures |Kmaps(data)| == 4
    ensures var k := Kmaps(data)[j];
            && 0 < k.Size() && k.virt + k.Size() <= UINT && k.start % PGSIZE == 0 && k.perm < PGSIZE
            && k.start / PGSIZE + PagesIn(k.virt, k.Size()) <= NPAGES
            && KPAGES <= Bound(data, j) <= k.virt / PGSIZE && k.virt / PGSIZE + PagesIn(k.virt, k.Size()) == Bound(data, j + 1)
    ensures forall u: nat :: Bound(data, j) <= u < Bound(data, j + 1) ==>
              var k := Kmaps(data)[j];
              && u < NPAGES && k.perm < PGSIZE
              && KernelPte(data, u) == if u < k.virt / PGSIZE then 0 else KmapPte(k, u)
  {
  }

  function KmapPte(k: Kmap, u: nat): nat
    requires k.perm < PGSIZE && k.virt / PGSIZE <= u
  {
    if k.start / PGSIZE + u - k.virt / PGSIZE < NPAGES then MakePte(k.start / PGSIZE + u - k.virt / PGSIZE, k.perm) else 0
  }

  /** A page taken from the list and filled. */
  lemma HeldAndFilled(vm: PageTable.Vm, m: nat, p: Page, head: nat, free: seq<nat>)
    requires Inv(vm) && Has(vm, m, Free) && FreeList(vm.(owner := vm.owner[m := Held]), head, free)
    ensures m < |vm.mem|
    ensures var vm2 := Vm(vm.mem[m := p], vm.owner[m := Held]);
            Inv(vm2) && FreeList(vm2, head, free) && SameMaps(vm, vm2) && Has(vm2, m, Held)
  {
    hide Lookup, Present, FrameOf, Entry, TablesOwned, TablesUsed, LeavesOwned, LeavesUsed, FreeList;
    var vm1, vm2 := vm.(owner := vm.owner[m := Held]), Vm(vm.mem[m := p], vm.owner[m := Held]);
    TableInvKept(vm, vm2);
    forall e: nat, u: nat | Has(vm, e, Dir) && u < KPAGES ensures e < |vm.mem| && e < |vm2.mem| && SameUserMap(vm, vm2, e, u) {
    }
    LeavesKept(vm, vm2);
    FreeListKept(vm1, vm2, head, free);
  }

  /** allocuvm could not map its last page m: without it, it is where it was. */
  lemma ExtendedWithout(vm: PageTable.Vm, vm1: PageTable.Vm, vm2: PageTable.Vm, vm3: PageTable.Vm, d: nat, lo: nat, k: nat, m: nat)
    requires Frames(vm) && Inv(vm1) && lo <= k <= KPAGES && m < |vm.mem| && Extended(vm, vm1, d, lo, k) && Has(vm1, m, Free)
    requires vm2 == Vm(vm1.mem[m := Filled(0)], vm1.owner[m := Held]) && Grown(vm2, vm3, d) && SameMaps(vm2, vm3) && SameMaps(vm1, vm2)
    ensures Extended(vm, vm3.(owner := vm3.owner[m := Free]), d, lo, k)
  {
    hide Lookup, Present, FrameOf, Entry, MakePte, Filled, Inv, NewUserPage, SameMaps;
    forall e: nat, u: nat | Has(vm, e, Dir) && u < NPAGES && e < |vm.mem|
      ensures if e == d && lo <= u < k then NewUserPage(vm3.mem, Lookup(vm3.mem, e, u))
              else Lookup(vm3.mem, e, u) == Lookup(vm.mem, e, u)
    {
      EntryWithout(vm, vm1, vm2, vm3, d, lo, k, m, e, u);
    }
  }

  lemma EntryWithout(vm: PageTable.Vm, vm1: PageTable.Vm, vm2: PageTable.Vm, vm3: PageTable.Vm, d: nat, lo: nat, k: nat, m: nat,
                     e: nat, u: nat)
    requires Frames(vm) && Inv(vm1) && lo <= k <= KPAGES && m < |vm.mem| && Extended(vm, vm1, d, lo, k) && Has(vm1, m, Free)
    requires vm2 == Vm(vm1.mem[m := Filled(0)], vm1.owner[m := Held]) && Grown(vm2, vm3, d) && SameMaps(vm2, vm3) && SameMaps(vm1, vm2)
    requires Has(vm, e, Dir) && u < NPAGES && e < |vm.mem|
    ensures |vm3.mem| == |vm.mem|
    ensures if e == d && lo <= u < k then NewUserPage(vm3.mem, Lookup(vm3.mem, e, u))
            else Lookup(vm3.mem, e, u) == Lookup(vm.mem, e, u)
  {
    hide Lookup, Present, FrameOf, Entry, MakePte, Filled, TableInv, LeavesUsed, NewUserPage;
    assert Has(vm1, e, Dir) && Has(vm2, e, Dir);
    if e == d && lo <= u < k {
      NewPageKept(vm1, vm2, vm3, d, u, m);
    }
  }

  lemma NewPageKept(vm1: PageTable.Vm, vm2: PageTable.Vm, vm3: PageTable.Vm, d: nat, u: nat, m: nat)
    requires Inv(vm1) && u < KPAGES && Has(vm1, m, Free) && m < |vm1.mem| && Has(vm1, d, Dir) && d < |vm1.mem|
    requires vm2 == Vm(vm1.mem[m := Filled(0)], vm1.owner[m := Held]) && Grown(vm2, vm3, d)
    requires NewUserPage(vm1.mem, Lookup(vm1.mem, d, u)) && d < |vm3.mem| && Lookup(vm3.mem, d, u) == Lookup(vm1.mem, d, u)
    ensures NewUserPage(vm3.mem, Lookup(vm3.mem, d, u))
  {
    hide Lookup, Present, FrameOf, Entry, Filled, TablesOwned, TablesUsed, LeavesUsed;
    assert Has(vm1, FrameOf(Lookup(vm1.mem, d, u)), Leaf(d, u));
  }

  /** The page in hand is freed after the others were unmapped. */
  lemma UnmappedThenFreed(vm: PageTable.Vm, vm1: PageTable.Vm, vm2: PageTable.Vm, d: nat, lo: nat, hi: nat, m: nat)
    requires Unmapped(vm, vm1, d, lo, hi) && Has(vm, m, Held) && SameMaps(vm1, vm2)
    requires vm2.owner == vm1.owner[m := Free] && |vm2.mem| == |vm1.mem|
    requires forall x :: 0 <= x < |vm1.mem| && x != m ==> vm2.mem[x] == vm1.mem[x]
    ensures Unmapped(vm.(owner := vm.owner[m := Free]), vm2, d, lo, hi)
  {
    hide Lookup, Present;
    var vm' := vm.(owner := vm.owner[m := Free]);
    forall e: nat, u: nat | Has(vm', e, Dir) && u < NPAGES && e < |vm.mem|
      ensures Lookup(vm2.mem, e, u) ==
              if e == d && lo <= u < hi && Present(Lookup(vm.mem, e, u)) then 0 else Lookup(vm.mem, e, u)
    {
      assert Has(vm, e, Dir) && Has(vm1, e, Dir);
    }
  }

  // ----- copyuvm -----

  /** Entry w' of the copy: the same flags, and a page with the same contents. */
  ghost predicate CopyOf(mem: seq<Page>, w: nat, mem': seq<Page>, w': nat) {
    && Present(w') && w' % PGSIZE == w % PGSIZE && FrameOf(w) < |mem| && FrameOf(w') < |mem'|
    && mem'[FrameOf(w')] == mem[FrameOf(w)]
  }

  /** The first k pages of d2 are copies of those of d; the rest is the kernel's. */
  ghost predicate Copied(vm: PageTable.Vm, vm': PageTable.Vm, d: nat, d2: nat, k: nat, data: nat)
    requires d < |vm.mem| && d2 < |vm'.mem| && DataOk(data)
  {
    forall u: nat :: u < NPAGES ==>
      if u < k then CopyOf(vm.mem, Lookup(vm.mem, d, u), vm'.mem, Lookup(vm'.mem, d2, u))
      else Lookup(vm'.mem, d2, u) == KernelPte(data, u)
  }

  /** Page k is copied to page m and installed. */
  lemma CopiedMore(vm: PageTable.Vm, vm1: PageTable.Vm, vm2: PageTable.Vm, vm3: PageTable.Vm, d: nat, d2: nat, k: nat, m: nat, data: nat)
    requires DataOk(data) && Inv(vm) && Inv(vm1) && Built(vm, vm1, d2) && Has(vm, d, Dir) && k < KPAGES
    requires d < |vm.mem| && d2 < |vm1.mem| && Copied(vm, vm1, d, d2, k, data) && Has(vm1, m, Free) && m < |vm1.mem|
    requires Present(Lookup(vm.mem, d, k)) && FrameOf(Lookup(vm.mem, d, k)) < |vm.mem|
    requires vm2 == Vm(vm1.mem[m := vm.mem[FrameOf(Lookup(vm.mem, d, k))]], vm1.owner[m := Held]) && SameMaps(vm1, vm2)
    requires m < NPAGES && Installed(vm2, vm3, d2, k, m, Lookup(vm.mem, d, k) % PGSIZE)
    ensures Copied(vm, vm3, d, d2, k + 1, data)
  {
    hide Lookup, Present, FrameOf, Entry, MakePte, Filled, TableInv, LeavesUsed, KernelPte;
    forall u: nat | u < NPAGES
      ensures if u < k + 1 then CopyOf(vm.mem, Lookup(vm.mem, d, u), vm3.mem, Lookup(vm3.mem, d2, u))
              else Lookup(vm3.mem, d2, u) == KernelPte(data, u)
    {
      CopiedAt(vm1, vm2, vm3, d2, k, m, Lookup(vm.mem, d, k), u);
      if u < k {
        assert Has(vm1, FrameOf(Lookup(vm1.mem, d2, u)), Leaf(d2, u));
      }
    }
  }

  lemma CopiedAt(vm1: PageTable.Vm, vm2: PageTable.Vm, vm3: PageTable.Vm, d2: nat, k: nat, m: nat, w: nat, u: nat)
    requires Has(vm1, d2, Dir) && d2 < |vm1.mem| && Has(vm1, m, Free) && m < |vm1.mem| && m < NPAGES && u < NPAGES
    requires |vm2.mem| == |vm1.mem| && vm2.owner == vm1.owner[m := Held] && SameMaps(vm1, vm2) && Present(w)
    requires Installed(vm2, vm3, d2, k, m, w % PGSIZE)
    ensures |vm3.mem| == |vm1.mem| && vm3.mem[m] == vm2.mem[m]
    ensures u != k ==> Lookup(vm3.mem, d2, u) == Lookup(vm1.mem, d2, u)
    ensures u == k ==> var w' := Lookup(vm3.mem, d2, u); Present(w') && w' % PGSIZE == w % PGSIZE && FrameOf(w') == m
  {
    assert Has(vm2, d2, Dir);
    assert w % PGSIZE % 2 == 1;
    hide Lookup, Present, FrameOf, Entry, MakePte;
    MakePteParts(m, w % PGSIZE);
  }

  /** The new space stays made of free pages. */
  lemma BuiltInstalled(vm: PageTable.Vm, vm1: PageTable.Vm, vm2: PageTable.Vm, vm3: PageTable.Vm, d2: nat, k: nat, m: nat, perm: nat)
    requires Built(vm, vm1, d2) && Has(vm1, m, Free) && m < |vm1.mem| && m < NPAGES && perm < PGSIZE && |vm2.mem| == |vm1.mem|
    requires vm2.owner == vm1.owner[m := Held] && SameMaps(vm1, vm2) && Installed(vm2, vm3, d2, k, m, perm)
    requires forall x :: 0 <= x < |vm1.mem| && x != m ==> vm2.mem[x] == vm1.mem[x]
    ensures Built(vm, vm3, d2)
  {
    hide Lookup, MakePte, Installed, SameMaps;
    forall f: nat | f in vm.owner
      ensures f in vm3.owner && ((vm3.owner[f] == vm.owner[f] && !Part(vm.owner[f], f, d2)) || (vm.owner[f].Free? && Part(vm3.owner[f], f, d2)))
      ensures f < |vm.mem| && (vm.owner[f].Held? || vm.owner[f].Leaf?) ==> f < |vm3.mem| && vm3.mem[f] == vm.mem[f]
    {
      BuiltInstalledAt(vm, vm1, vm2, vm3, d2, k, m, perm, f);
    }
    BuiltKeys(vm, vm1, vm2, vm3, d2, k, m, perm);
    forall e: nat, u: nat | Has(vm, e, Dir) && u < NPAGES && e < |vm.mem|
      ensures e < |vm3.mem| && Lookup(vm3.mem, e, u) == Lookup(vm.mem, e, u)
    {
      BuiltInstalledMap(vm, vm1, vm2, vm3, d2, k, m, perm, e, u);
    }
  }

  lemma BuiltKeys(vm: PageTable.Vm, vm1: PageTable.Vm, vm2: PageTable.Vm, vm3: PageTable.Vm, d2: nat, k: nat, m: nat, perm: nat)
    requires Built(vm, vm1, d2) && Has(vm1, m, Free) && m < NPAGES && perm < PGSIZE
    requires |vm2.mem| == |vm1.mem| && vm2.owner == vm1.owner[m := Held] && Installed(vm2, vm3, d2, k, m, perm)
    ensures |vm3.mem| == |vm.mem| && vm3.owner.Keys == vm.owner.Keys && Has(vm, d2, Free) && Has(vm3, d2, Dir)
  {
    hide Lookup, MakePte;
  }

  lemma BuiltInstalledAt(vm: PageTable.Vm, vm1: PageTable.Vm, vm2: PageTable.Vm, vm3: PageTable.Vm, d2: nat, k: nat, m: nat, perm: nat, f: nat)
    requires Built(vm, vm1, d2) && Has(vm1, m, Free) && m < |vm1.mem| && m < NPAGES && perm < PGSIZE && |vm2.mem| == |vm1.mem|
    requires vm2.owner == vm1.owner[m := Held] && Installed(vm2, vm3, d2, k, m, perm) && f in vm.owner
    requires forall x :: 0 <= x < |vm1.mem| && x != m ==> vm2.mem[x] == vm1.mem[x]
    ensures f in vm3.owner && ((vm3.owner[f] == vm.owner[f] && !Part(vm.owner[f], f, d2)) || (vm.owner[f].Free? && Part(vm3.owner[f], f, d2)))
    ensures f < |vm.mem| && (vm.owner[f].Held? || vm.owner[f].Leaf?) ==> f < |vm3.mem| && vm3.mem[f] == vm.mem[f]
  {
    hide Lookup, MakePte;
  }

  lemma BuiltInstalledMap(vm: PageTable.Vm, vm1: PageTable.Vm, vm2: PageTable.Vm, vm3: PageTable.Vm, d2: nat, k: nat, m: nat, perm: nat, e: nat, u: nat)
    requires Built(vm, vm1, d2) && Has(vm1, m, Free) && m < NPAGES && perm < PGSIZE && |vm2.mem| == |vm1.mem|
    requires vm2.owner == vm1.owner[m := Held] && SameMaps(vm1, vm2) && Installed(vm2, vm3, d2, k, m, perm)
    requires Has(vm, e, Dir) && u < NPAGES && e < |vm.mem|
    ensures e < |vm3.mem| && Lookup(vm3.mem, e, u) == Lookup(vm.mem, e, u)
  {
    hide Lookup, MakePte;
    assert Has(vm1, e, Dir) && Has(vm2, e, Dir) && e != d2;
  }

  lemma BuiltWithout(vm: PageTable.Vm, vm1: PageTable.Vm, vm2: PageTable.Vm, vm3: PageTable.Vm, vm4: PageTable.Vm, d2: nat, m: nat)
    requires Frames(vm) && Built(vm, vm1, d2) && Has(vm1, m, Free) && m < |vm1.mem| && |vm2.mem| == |vm1.mem|
    requires vm2.owner == vm1.owner[m := Held] && SameMaps(vm1, vm2) && Grown(vm2, vm3, d2) && SameMaps(vm2, vm3)
    requires forall x :: 0 <= x < |vm1.mem| && x != m ==> vm2.mem[x] == vm1.mem[x]
    requires vm4.owner == vm3.owner[m := Free] && |vm4.mem| == |vm3.mem| && SameMaps(vm3, vm4)
    requires forall x :: 0 <= x < |vm3.mem| && x != m ==> vm4.mem[x] == vm3.mem[x]
    ensures Built(vm, vm4, d2)
  {
    hide Lookup, SameMaps, Part;
    forall f: nat | f in vm.owner
      ensures f in vm4.owner && (vm4.owner[f] == vm1.owner[f] || (vm1.owner[f].Free? && vm4.owner[f].Table? && vm4.owner[f].d == d2))
      ensures f < |vm.mem| && (vm.owner[f].Held? || vm.owner[f].Leaf?) ==> vm4.mem[f] == vm.mem[f]
    {
    }
    forall e: nat, u: nat | Has(vm, e, Dir) && u < NPAGES && e < |vm.mem|
      ensures Lookup(vm4.mem, e, u) == Lookup(vm.mem, e, u)
    {
      BuiltWithoutMap(vm, vm1, vm2, vm3, vm4, d2, m, e, u);
    }
    BuiltOwners(vm, vm1, vm4, d2);
  }

  lemma BuiltOwners(vm: PageTable.Vm, vm1: PageTable.Vm, vm4: PageTable.Vm, d2: nat)
    requires Built(vm, vm1, d2) && vm4.owner.Keys == vm.owner.Keys
    requires forall f: nat :: f in vm.owner ==>
               f in vm4.owner && (vm4.owner[f] == vm1.owner[f] || (vm1.owner[f].Free? && vm4.owner[f].Table? && vm4.owner[f].d == d2))
    ensures Has(vm4, d2, Dir) && Has(vm, d2, Free)
    ensures forall f: nat :: f in vm.owner ==>
              (vm4.owner[f] == vm.owner[f] && !Part(vm.owner[f], f, d2)) || (vm.owner[f].Free? && Part(vm4.owner[f], f, d2))
  {
    hide Lookup;
  }

  lemma BuiltWithoutMap(vm: PageTable.Vm, vm1: PageTable.Vm, vm2: PageTable.Vm, vm3: PageTable.Vm, vm4: PageTable.Vm, d2: nat, m: nat, e: nat, u: nat)
    requires Frames(vm) && Built(vm, vm1, d2) && Has(vm1, m, Free) && |vm2.mem| == |vm1.mem|
    requires vm2.owner == vm1.owner[m := Held] && SameMaps(vm1, vm2) && Grown(vm2, vm3, d2) && SameMaps(vm2, vm3) && SameMaps(vm3, vm4)
    requires Has(vm, e, Dir) && u < NPAGES && e < |vm.mem|
    ensures e < |vm4.mem| && Lookup(vm4.mem, e, u) == Lookup(vm.mem, e, u)
  {
    hide Lookup;
    assert Has(vm1, e, Dir) && Has(vm2, e, Dir) && Has(vm3, e, Dir) && e != d2;
  }

  // ----- Steps of setupkvm -----

  lemma RestoredNothing(vm: PageTable.Vm)
    ensures Restored(vm, vm)
  {
  }

  /** The kernel's entries after one more line of the table. */
  lemma KernelUpToMore(vm1: PageTable.Vm, vm2: PageTable.Vm, d: nat, data: nat, j: nat, n: nat)
    requires DataOk(data) && j < 4 && d < |vm1.mem| && Has(vm1, d, Dir) && KernelUpTo(vm1.mem, d, data, j)
    requires var k := Kmaps(data)[j];
             && 0 < k.Size() && n == PagesIn(k.virt, k.Size()) && k.start / PGSIZE + n <= NPAGES && k.perm < PGSIZE
             && Progress(vm1, vm2, d, k.virt / PGSIZE, n, k.start / PGSIZE, k.perm)
    ensures d < |vm2.mem| && KernelUpTo(vm2.mem, d, data, j + 1)
  {
    hide Lookup, Bound, KernelPte, MakePte, Kmaps, PagesIn;
    KmapCovers(data, j);
    forall u: nat | u < NPAGES ensures Lookup(vm2.mem, d, u) == if u < Bound(data, j + 1) then KernelPte(data, u) else 0 {
    }
  }

  /** Nothing is mapped yet where line j goes. */
  lemma KernelNotYet(mem: seq<Page>, d: nat, data: nat, j: nat)
    requires d < |mem| && DataOk(data) && j < 4 && KernelUpTo(mem, d, data, j)
    ensures var k := Kmaps(data)[j];
            && k.Size() > 0 && k.virt + k.Size() <= UINT
            && forall u :: k.virt / PGSIZE <= u < k.virt / PGSIZE + PagesIn(k.virt, k.Size()) ==>
                 u < NPAGES && !Present(Lookup(mem, d, u))
  {
    hide Lookup, Bound, KernelPte, Kmaps, PagesIn;
    KmapCovers(data, j);
    RangeEnds(Kmaps(data)[j].virt, Kmaps(data)[j].Size(), 0);
  }

  lemma OnePage(a: nat, m: nat)
    requires a % PGSIZE == 0 && m < NPAGES
    ensures PagesIn(a, PGSIZE) == 1 && m * PGSIZE % PGSIZE == 0 && m * PGSIZE / PGSIZE == m
  {
  }

  lemma DirFromList(vm: PageTable.Vm, d: nat, head: nat, free: seq<nat>)
    requires Frames(vm) && Has(vm, d, Free) && FreeList(vm.(owner := vm.owner[d := Held]), head, free)
    ensures d < |vm.mem| && FreeList(Vm(vm.mem[d := Filled(0)], vm.owner[d := Dir]), head, free)
  {
    FreeListKept(vm.(owner := vm.owner[d := Held]), Vm(vm.mem[d := Filled(0)], vm.owner[d := Dir]), head, free);
  }

  lemma NoKernelYet(mem: seq<Page>, d: nat, data: nat)
    requires d < |mem| && DataOk(data) && forall u: nat :: u < NPAGES ==> Lookup(mem, d, u) == 0
    ensures KernelUpTo(mem, d, data, 0)
  {
  }

  lemma BuiltHas(vm: PageTable.Vm, vm1: PageTable.Vm, d: nat)
    requires Built(vm, vm1, d)
    ensures Has(vm1, d, Dir)
  {
  }

  // ----- Small steps -----

  lemma PageUpOrder(oldsz: nat, newsz: nat)
    requires oldsz <= newsz < KERNBASE
    ensures (oldsz + PGSIZE - 1) / PGSIZE * PGSIZE == PageAddr(PageUp(oldsz)) && PageUp(oldsz) <= PageUp(newsz) <= KPAGES
  {
  }

  lemma NextPage(k: nat)
    ensures PageAddr(k + 1) == PageAddr(k) + PGSIZE
  {
  }

  lemma ExtendedUntouched(vm: PageTable.Vm, vm1: PageTable.Vm, d: nat, lo: nat, k: nat)
    requires Frames(vm) && Extended(vm, vm1, d, lo, k) && Has(vm, d, Dir) && k < NPAGES
    ensures d < |vm.mem| == |vm1.mem| && Lookup(vm1.mem, d, k) == Lookup(vm.mem, d, k)
  {
  }

  lemma HeldDirs(vm1: PageTable.Vm, vm2: PageTable.Vm, d: nat, v: nat, m: nat)
    requires Has(vm1, d, Dir) && d < |vm1.mem| && v < NPAGES && Has(vm1, m, Free) && vm2.owner == vm1.owner[m := Held] && SameMaps(vm1, vm2)
    ensures Has(vm2, d, Dir) && d < |vm2.mem| && Lookup(vm2.mem, d, v) == Lookup(vm1.mem, d, v)
  {
  }

  lemma InstalledDirs(vm: PageTable.Vm, vm': PageTable.Vm, d: nat, v: nat, m: nat, perm: nat)
    requires m < NPAGES && perm < PGSIZE && Installed(vm, vm', d, v, m, perm)
    ensures forall e: nat :: Has(vm, e, Dir) ==> Has(vm', e, Dir)
  {
    hide Lookup;
  }

  lemma GrownHas(vm: PageTable.Vm, vm': PageTable.Vm, d: nat, m: nat)
    requires Frames(vm) && Grown(vm, vm', d) && Has(vm, m, Held)
    ensures Has(vm', m, Held) && forall e: nat :: Has(vm, e, Dir) ==> Has(vm', e, Dir)
  {
  }

  lemma UnmappedHolds(vm: PageTable.Vm, vm': PageTable.Vm, d: nat, lo: nat, hi: nat, m: nat)
    requires Unmapped(vm, vm', d, lo, hi) && Has(vm, m, Held)
    ensures Has(vm', m, Held)
  {
    hide Lookup;
  }

  lemma CopiedNothing(vm: PageTable.Vm, vm1: PageTable.Vm, d: nat, d2: nat, data: nat)
    requires d < |vm.mem| && d2 < |vm1.mem| && DataOk(data) && KernelUpTo(vm1.mem, d2, data, 4)
    ensures Copied(vm, vm1, d, d2, 0, data)
  {
    hide Lookup, KernelPte;
  }

  lemma PageUpBound(sz: nat)
    requires sz <= KERNBASE
    ensures PageUp(sz) <= KPAGES
  {
  }

  /** What copyuvm finds at page k of the parent, and of the unfinished child. */
  lemma SourcePage(vm: PageTable.Vm, vm1: PageTable.Vm, d: nat, d2: nat, k: nat, data: nat)
    requires Inv(vm) && Built(vm, vm1, d2) && Has(vm, d, Dir) && d < |vm.mem| && d2 < |vm1.mem| && k < KPAGES && DataOk(data)
    requires Present(Lookup(vm.mem, d, k)) && Copied(vm, vm1, d, d2, k, data)
    ensures var f := FrameOf(Lookup(vm.mem, d, k));
            && d < |vm1.mem| && Has(vm1, d, Dir) && d != d2 && Lookup(vm1.mem, d, k) == Lookup(vm.mem, d, k)
            && f < |vm.mem| == |vm1.mem| && f in vm1.owner && !vm1.owner[f].Free? && vm1.mem[f] == vm.mem[f]
    ensures !Present(Lookup(vm1.mem, d2, k))
  {
    hide Lookup, Present, FrameOf, Entry, TablesOwned, TablesUsed, LeavesUsed, Copied, KernelPte;
    NotCopiedYet(vm, vm1, d, d2, k, data);
    assert Has(vm, FrameOf(Lookup(vm.mem, d, k)), Leaf(d, k));
  }

  lemma NotCopiedYet(vm: PageTable.Vm, vm1: PageTable.Vm, d: nat, d2: nat, k: nat, data: nat)
    requires d < |vm.mem| && d2 < |vm1.mem| && k < KPAGES && DataOk(data) && Copied(vm, vm1, d, d2, k, data)
    ensures !Present(Lookup(vm1.mem, d2, k))
  {
    hide Lookup, CopyOf;
  }

  /** The source keeps its translations while the copy is made. */
  lemma SourceSame(vm: PageTable.Vm, vm1: PageTable.Vm, d: nat, d2: nat, k: nat)
    requires Frames(vm) && Built(vm, vm1, d2) && Has(vm, d, Dir) && k < NPAGES
    ensures d < |vm.mem| == |vm1.mem| && Has(vm1, d, Dir) && Lookup(vm1.mem, d, k) == Lookup(vm.mem, d, k)
  {
    hide Lookup;
  }
}
