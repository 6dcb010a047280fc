/** What the steps of kalloc.c and vm.c do to the free list, to the flat maps and to the
    ownership of pages. */
module VmSpec {
  import opened DiskBytes
  import opened PageTable

  // ----- The free list of kalloc.c -----

  function NextFree(free: seq<nat>, i: nat): nat
    requires i < |free|
  {
    if i + 1 < |free| then free[i + 1] else 0
  }

  /** The list through the first words of the free pages holds exactly the free pages. */
  ghost predicate FreeList(vm: PageTable.Vm, head: nat, free: seq<nat>) {
    && head == (if free == [] then 0 else free[0])
    && (forall i :: 0 <= i < |free| ==> free[i] < |vm.mem| && Has(vm, free[i], Free))
    && (forall f: nat :: Has(vm, f, Free) ==> f in free)
    && (forall i, j :: 0 <= i < j < |free| ==> free[i] != free[j])
    && (forall i {:trigger NextFree(free, i)} :: 0 <= i < |free| ==> Entry(vm.mem[free[i]], 0) == NextFree(free, i))
  }

  lemma FreeListKept(vm: PageTable.Vm, vm': PageTable.Vm, head: nat, free: seq<nat>)
    requires FreeList(vm, head, free) && |vm'.mem| == |vm.mem|
    requires forall f: nat :: Has(vm', f, Free) <==> Has(vm, f, Free)
    requires forall f: nat :: Has(vm, f, Free) && f < |vm.mem| ==> vm'.mem[f] == vm.mem[f]
    ensures FreeList(vm', head, free)
  {
    hide Entry;
    forall i {:trigger NextFree(free, i)} | 0 <= i < |free| ensures Entry(vm'.mem[free[i]], 0) == NextFree(free, i) {
      assert Has(vm, free[i], Free);
    }
  }

  lemma FreeListPop(vm: PageTable.Vm, free: seq<nat>, o: Owner)
    requires Frames(vm) && free != [] && FreeList(vm, free[0], free) && !o.Free?
    ensures free[0] < |vm.mem| && Has(vm, free[0], Free)
    ensures FreeList(vm.(owner := vm.owner[free[0] := o]), Entry(vm.mem[free[0]], 0), free[1..])
  {
    hide FreeList, Entry, NextFree, Has;
    var rest, vm' := free[1..], vm.(owner := vm.owner[free[0] := o]);
    FirstFree(vm, free);
    forall i | 0 <= i < |rest| ensures rest[i] < |vm.mem| && Has(vm', rest[i], Free) && Entry(vm.mem[rest[i]], 0) == NextFree(rest, i) {
      RestAt(vm, free, o, i);
    }
    forall f: nat | Has(vm', f, Free) ensures f in rest {
      RestHas(vm, free, o, f);
    }
    IsFreeList(vm', Entry(vm.mem[free[0]], 0), rest);
  }

  lemma FirstFree(vm: PageTable.Vm, free: seq<nat>)
    requires free != [] && FreeList(vm, free[0], free)
    ensures free[0] < |vm.mem| && Has(vm, free[0], Free)
    ensures Entry(vm.mem[free[0]], 0) == if |free| > 1 then free[1] else 0
    ensures forall i, j :: 0 <= i < j < |free| ==> free[i] != free[j]
  {
    hide Entry;
    assert Entry(vm.mem[free[0]], 0) == NextFree(free, 0);
  }

  lemma IsFreeList(vm: PageTable.Vm, head: nat, free: seq<nat>)
    requires head == if free == [] then 0 else free[0]
    requires forall i :: 0 <= i < |free| ==> free[i] < |vm.mem| && Has(vm, free[i], Free) && Entry(vm.mem[free[i]], 0) == NextFree(free, i)
    requires forall f: nat :: Has(vm, f, Free) ==> f in free
    requires forall i, j :: 0 <= i < j < |free| ==> free[i] != free[j]
    ensures FreeList(vm, head, free)
  {
    hide Entry, NextFree;
  }

  lemma RestHas(vm: PageTable.Vm, free: seq<nat>, o: Owner, f: nat)
    requires free != [] && FreeList(vm, free[0], free) && !o.Free?
    requires Has(vm.(owner := vm.owner[free[0] := o]), f, Free)
    ensures f in free[1..]
  {
    hide Entry;
    assert Has(vm, f, Free) && f != free[0];
    var j :| 0 <= j < |free| && free[j] == f;
    assert free[1..][j - 1] == f;
  }

  lemma RestAt(vm: PageTable.Vm, free: seq<nat>, o: Owner, i: nat)
    requires free != [] && FreeList(vm, free[0], free) && !o.Free? && i + 1 < |free|
    ensures free[1..][i] < |vm.mem| && Has(vm.(owner := vm.owner[free[0] := o]), free[1..][i], Free)
    ensures Entry(vm.mem[free[1..][i]], 0) == NextFree(free[1..], i)
  {
    hide Entry;
    assert free[1..][i] == free[i + 1];
    assert Entry(vm.mem[free[i + 1]], 0) == NextFree(free, i + 1);
  }

  lemma FreeListPush(vm: PageTable.Vm, vm': PageTable.Vm, head: nat, free: seq<nat>, f: nat)
    requires Frames(vm) && FreeList(vm, head, free) && f in vm.owner && !vm.owner[f].Free?
    requires vm'.owner == vm.owner[f := Free] && |vm'.mem| == |vm.mem|
    requires forall x :: 0 <= x < |vm.mem| && x != f ==> vm'.mem[x] == vm.mem[x]
    requires f < |vm.mem| && Entry(vm'.mem[f], 0) == head
    ensures FreeList(vm', f, [f] + free)
  {
    hide Entry;
    var all := [f] + free;
    forall i | 0 <= i < |all| ensures all[i] < |vm.mem| && Has(vm', all[i], Free) && Entry(vm'.mem[all[i]], 0) == NextFree(all, i) {
      if i > 0 {
        assert all[i] == free[i - 1] && Has(vm, free[i - 1], Free);
        assert Entry(vm.mem[free[i - 1]], 0) == NextFree(free, i - 1);
      }
    }
    forall x: nat | Has(vm', x, Free) ensures x in all {
      assert x != f ==> Has(vm, x, Free);
    }
  }

  // ----- Address arithmetic -----

  function Pdx(va: nat): nat {
    va / 0x40_0000 % NENTRIES
  }

  function Ptx(va: nat): nat {
    va / PGSIZE % NENTRIES
  }

  lemma PageIndex(va: nat)
    requires va < UINT
    ensures va / PGSIZE < NPAGES && Pdx(va) == va / PGSIZE / NENTRIES && Ptx(va) == va / PGSIZE % NENTRIES
  {
  }

  /** The number of pages that a range of bytes touches. */
  function PagesIn(va: nat, size: nat): (n: nat)
    requires size > 0
    ensures n >= 1 && (va / PGSIZE + n - 1) * PGSIZE <= va + size - 1 < (va / PGSIZE + n) * PGSIZE
  {
    (va + size - 1) / PGSIZE - va / PGSIZE + 1
  }

  /** The address of page k. */
  function PageAddr(k: nat): nat {
    k * PGSIZE
  }

  lemma RangeEnds(va: nat, size: nat, pa: nat)
    requires size > 0 && va + size <= UINT && pa % PGSIZE == 0
    ensures va - va % PGSIZE == PageAddr(va / PGSIZE) && pa == PageAddr(pa / PGSIZE)
    ensures (va + size - 1) - (va + size - 1) % PGSIZE == PageAddr(va / PGSIZE + PagesIn(va, size) - 1)
    ensures va / PGSIZE + PagesIn(va, size) <= NPAGES
  {
  }

  lemma PageStart(k: nat)
    requires k < NPAGES
    ensures PageAddr(k) / PGSIZE == k && PageAddr(k) % PGSIZE == 0 && PageAddr(k) < UINT
    ensures k + 1 < NPAGES ==> (PageAddr(k) + PGSIZE) % UINT == PageAddr(k + 1)
  {
  }

  lemma LastPage(k: nat, l: nat)
    ensures PageAddr(k) == PageAddr(l) <==> k == l
  {
  }

  // ----- What mapping pages costs and changes -----

  /** Free pages may have become tables of d; nobody's data has changed. */
  ghost predicate Grown(vm: PageTable.Vm, vm': PageTable.Vm, d: nat) {
    && |vm'.mem| == |vm.mem| && vm'.owner.Keys == vm.owner.Keys
    && forall f: nat :: f in vm.owner && f < |vm.mem| ==>
         && (vm'.owner[f] == vm.owner[f] || (vm.owner[f].Free? && vm'.owner[f].Table? && vm'.owner[f].d == d))
         && (vm.owner[f].Held? || vm.owner[f].Leaf? ==> vm'.mem[f] == vm.mem[f])
  }

  /** In d, n pages from lo on now translate to the pages from f on; nothing else changed. */
  ghost predicate Mapped(vm: PageTable.Vm, vm': PageTable.Vm, d: nat, lo: nat, n: nat, f: nat, perm: nat)
    requires f + n <= NPAGES && perm < PGSIZE
  {
    && |vm'.mem| == |vm.mem|
    && forall e: nat, u: nat :: Has(vm, e, Dir) && u < NPAGES && e < |vm.mem| ==>
         Lookup(vm'.mem, e, u) == if e == d && lo <= u < lo + n then MakePte(f + u - lo, perm) else Lookup(vm.mem, e, u)
  }

  /** Setting the entry for v maps v, and nothing else. */
  lemma SetPteIsMapped(vm: PageTable.Vm, vm1: PageTable.Vm, d: nat, v: nat, f: nat, perm: nat)
    requires f < NPAGES && perm < PGSIZE && v < NPAGES && TableInv(vm) && TableInv(vm1)
    requires SameMaps(vm, vm1) && HasTable(vm1, d, v) && forall e: nat :: Has(vm1, e, Dir) <==> Has(vm, e, Dir)
    ensures FrameOf(Entry(vm1.mem[d], v / NENTRIES)) < |vm1.mem|
    ensures Mapped(vm, Vm(SetPte(vm1.mem, d, v, MakePte(f, perm)), vm1.owner), d, v, 1, f, perm)
  {
    TableOf(vm1, d, v);
    var w := MakePte(f, perm);
    var mem' := SetPte(vm1.mem, d, v, w);
    hide Lookup, MakePte, SetPte, Entry, FrameOf, Present;
    forall e: nat, u: nat | Has(vm, e, Dir) && u < NPAGES
      ensures Lookup(mem', e, u) == if e == d && v <= u < v + 1 then MakePte(f + u - v, perm) else Lookup(vm.mem, e, u)
    {
      SetPteLookup(vm1, d, v, w, e, u);
    }
  }

  /** n pages of the range are mapped. */
  ghost predicate Progress(vm: PageTable.Vm, vm': PageTable.Vm, d: nat, lo: nat, n: nat, f: nat, perm: nat)
    requires f + n <= NPAGES && perm < PGSIZE
  {
    Frames(vm) && Has(vm, d, Dir) && Grown(vm, vm', d) && Mapped(vm, vm', d, lo, n, f, perm)
  }

  lemma ProgressStart(vm: PageTable.Vm, d: nat, lo: nat, f: nat, perm: nat)
    requires f <= NPAGES && perm < PGSIZE && Frames(vm) && Has(vm, d, Dir)
    ensures Progress(vm, vm, d, lo, 0, f, perm)
  {
  }

  lemma TableInvFrames(vm: PageTable.Vm)
    requires TableInv(vm)
    ensures Frames(vm)
  {
  }

  lemma ProgressMore(vm: PageTable.Vm, vm1: PageTable.Vm, vm2: PageTable.Vm, d: nat, lo: nat, n: nat, f: nat, perm: nat)
    requires f + n < NPAGES && perm < PGSIZE && Progress(vm, vm1, d, lo, n, f, perm)
    requires Grown(vm1, vm2, d) && Mapped(vm1, vm2, d, lo + n, 1, f + n, perm)
    ensures Progress(vm, vm2, d, lo, n + 1, f, perm)
  {
    GrownTransitive(vm, vm1, vm2, d);
    GrownDirs(vm, vm1, d);
    hide Grown, Lookup, MakePte;
  }

  lemma ProgressStops(vm: PageTable.Vm, vm1: PageTable.Vm, vm2: PageTable.Vm, d: nat, lo: nat, n: nat, f: nat, perm: nat)
    requires f + n <= NPAGES && perm < PGSIZE && Progress(vm, vm1, d, lo, n, f, perm)
    requires Grown(vm1, vm2, d) && SameMaps(vm1, vm2)
    ensures Progress(vm, vm2, d, lo, n, f, perm)
  {
    GrownTransitive(vm, vm1, vm2, d);
    GrownDirs(vm, vm1, d);
    hide Grown, Lookup, MakePte;
  }

  lemma ProgressNext(vm: PageTable.Vm, vm1: PageTable.Vm, d: nat, lo: nat, n: nat, f: nat, perm: nat)
    requires f + n < NPAGES && perm < PGSIZE && lo + n < NPAGES && Progress(vm, vm1, d, lo, n, f, perm)
    ensures d < |vm.mem| == |vm1.mem| && Lookup(vm1.mem, d, lo + n) == Lookup(vm.mem, d, lo + n) && Has(vm1, d, Dir)
  {
  }

  // ----- What unmapping does -----

  ghost predicate LeafIn(o: Owner, d: nat, lo: nat, hi: nat) {
    o.Leaf? && o.d == d && lo <= o.v < hi
  }

  /** In d the pages from lo up to hi are unmapped and free; nothing else changed, and
      nobody else's data. */
  ghost predicate Unmapped(vm: PageTable.Vm, vm': PageTable.Vm, d: nat, lo: nat, hi: nat) {
    && |vm'.mem| == |vm.mem| && vm'.owner.Keys == vm.owner.Keys
    && (forall f: nat :: f in vm.owner ==> vm'.owner[f] == if LeafIn(vm.owner[f], d, lo, hi) then Free else vm.owner[f])
    && (forall e: nat, u: nat :: Has(vm, e, Dir) && u < NPAGES && e < |vm.mem| ==>
          Lookup(vm'.mem, e, u) ==
          if e == d && lo <= u < hi && Present(Lookup(vm.mem, e, u)) then 0 else Lookup(vm.mem, e, u))
    && (forall f: nat :: f in vm'.owner && f < |vm.mem| && (vm'.owner[f].Held? || vm'.owner[f].Leaf?) ==> vm'.mem[f] == vm.mem[f])
  }

  lemma UnmappedNothing(vm: PageTable.Vm, d: nat, lo: nat)
    ensures Unmapped(vm, vm, d, lo, lo)
  {
  }

  lemma UnmappedMore(vm: PageTable.Vm, vm1: PageTable.Vm, vm2: PageTable.Vm, d: nat, lo: nat, k: nat, hi: nat)
    requires Frames(vm) && lo <= k <= hi && Unmapped(vm, vm1, d, lo, k) && Unmapped(vm1, vm2, d, k, hi)
    ensures Unmapped(vm, vm2, d, lo, hi)
  {
    hide Lookup, Present;
    assert !Present(0) by {
      ZeroEntry(0);
    }
    forall e: nat, u: nat | Has(vm, e, Dir) && u < NPAGES && e < |vm.mem|
      ensures Lookup(vm2.mem, e, u) ==
              if e == d && lo <= u < hi && Present(Lookup(vm.mem, e, u)) then 0 else Lookup(vm.mem, e, u)
    {
      assert Has(vm1, e, Dir);
    }
  }

  /** Pages without a table, or without an entry, are unmapped already. */
  lemma UnmappedAlready(vm: PageTable.Vm, d: nat, lo: nat, hi: nat)
    requires Inv(vm) && Has(vm, d, Dir) && d < |vm.mem| && hi <= NPAGES
    requires forall u :: lo <= u < hi ==> !Present(Lookup(vm.mem, d, u))
    ensures Unmapped(vm, vm, d, lo, hi)
  {
    hide Lookup, Present, TableInv;
    forall f: nat | f in vm.owner ensures !LeafIn(vm.owner[f], d, lo, hi) {
      assert vm.owner[f].Leaf? ==> Has(vm, f, Leaf(vm.owner[f].d, vm.owner[f].v));
    }
  }

  /** No table: the jump of deallocuvm over the rest of its range misses no page. */
  lemma JumpMissesNothing(vm: PageTable.Vm, d: nat, k: nat, hi: nat)
    requires d < |vm.mem| && k < hi <= NPAGES && hi <= (k / NENTRIES + 1) * NENTRIES
    requires !Present(Entry(vm.mem[d], k / NENTRIES))
    ensures forall u :: k <= u < hi ==> !Present(Lookup(vm.mem, d, u))
  {
    assert !Present(0);
    hide Present, Entry;
    forall u | k <= u < hi ensures Lookup(vm.mem, d, u) == 0 {
      assert u / NENTRIES == k / NENTRIES;
    }
  }

  /** kfree on the page of an entry, before the entry is cleared. */
  lemma FreedUnderEntry(vm: PageTable.Vm, vm1: PageTable.Vm, d: nat, v: nat, f: nat)
    requires Inv(vm) && HasTable(vm, d, v) && v < KPAGES && Present(Lookup(vm.mem, d, v)) && f == FrameOf(Lookup(vm.mem, d, v))
    requires vm1.owner == vm.owner[f := Free] && |vm1.mem| == |vm.mem|
    requires forall x :: 0 <= x < |vm.mem| && x != f ==> vm1.mem[x] == vm.mem[x]
    ensures Has(vm, f, Leaf(d, v)) && TableInv(vm1) && SameMaps(vm, vm1) && HasTable(vm1, d, v) && vm1.mem[d] == vm.mem[d]
  {
    assert Has(vm, f, Leaf(d, v));
    hide Lookup;
    TableInvKept(vm, vm1);
  }

  /** And once it is cleared. */
  lemma EntryCleared(vm: PageTable.Vm, vm1: PageTable.Vm, d: nat, v: nat, f: nat, head: nat, free: seq<nat>)
    requires Inv(vm) && v < KPAGES && Has(vm, d, Dir) && Has(vm, f, Leaf(d, v)) && d < |vm.mem|
    requires vm1.owner == vm.owner[f := Free] && TableInv(vm1) && SameMaps(vm, vm1) && HasTable(vm1, d, v)
    requires FreeList(vm1, head, free) && |vm1.mem| == |vm.mem|
    requires forall x :: 0 <= x < |vm.mem| && x != f ==> vm1.mem[x] == vm.mem[x]
    requires Present(Lookup(vm.mem, d, v))
    ensures FrameOf(Entry(vm1.mem[d], v / NENTRIES)) < |vm1.mem|
    ensures var vm2 := Vm(SetPte(vm1.mem, d, v, 0), vm1.owner);
            FreeList(vm2, head, free) && Inv(vm2) && Unmapped(vm, vm2, d, v, v + 1)
  {
    hide Lookup, Present, SetPte, Entry, FrameOf, FreeList, Inv, TableInv, SameMaps, Cleared, Unmapped, Grown, HasTable;
    InvIsTableInv(vm);
    SetPteKeeps(vm1, d, v, 0, head, free);
    SetPteLength(vm1.mem, d, v, 0);
    ClearedLookups(vm, vm1, d, v);
    ClearedSpace(vm, vm1, Vm(SetPte(vm1.mem, d, v, 0), vm1.owner), d, v, f);
  }

  lemma SetPteLength(mem: seq<Page>, d: nat, v: nat, w: nat)
    requires d < |mem| && v < NPAGES && w < UINT && FrameOf(Entry(mem[d], v / NENTRIES)) < |mem|
    ensures |SetPte(mem, d, v, w)| == |mem|
  {
  }

  lemma ClearedSpace(vm: PageTable.Vm, vm1: PageTable.Vm, vm2: PageTable.Vm, d: nat, v: nat, f: nat)
    requires Inv(vm) && v < KPAGES && Has(vm, d, Dir) && Has(vm, f, Leaf(d, v)) && d < |vm.mem|
    requires vm1.owner == vm.owner[f := Free] && |vm1.mem| == |vm2.mem| == |vm.mem|
    requires forall x :: 0 <= x < |vm.mem| && x != f ==> vm1.mem[x] == vm.mem[x]
    requires Present(Lookup(vm.mem, d, v)) && Cleared(vm, vm2.mem, d, v)
    requires TableInv(vm2) && Grown(vm1, vm2, d) && vm2.owner == vm1.owner
    ensures Inv(vm2) && Unmapped(vm, vm2, d, v, v + 1)
  {
    hide Inv, TableInv, Lookup, Present, Cleared, Unmapped, Grown;
    ClearedInv(vm, vm2, d, v, f);
    ClearedIsUnmapped(vm, vm1, vm2, d, v, f);
  }

  /** The translations differ in one entry only. */
  ghost predicate Cleared(vm: PageTable.Vm, mem2: seq<Page>, d: nat, v: nat) {
    forall e: nat, u: nat {:trigger Lookup(mem2, e, u)} ::
      Has(vm, e, Dir) && u < NPAGES && e < |vm.mem| && e < |mem2| ==>
        Lookup(mem2, e, u) == if e == d && u == v then 0 else Lookup(vm.mem, e, u)
  }

  lemma ClearedLookups(vm: PageTable.Vm, vm1: PageTable.Vm, d: nat, v: nat)
    requires TableInv(vm) && TableInv(vm1) && SameMaps(vm, vm1) && HasTable(vm1, d, v)
    requires forall e: nat :: Has(vm, e, Dir) ==> Has(vm1, e, Dir)
    ensures FrameOf(Entry(vm1.mem[d], v / NENTRIES)) < |vm1.mem|
    ensures Cleared(vm, SetPte(vm1.mem, d, v, 0), d, v)
  {
    hide Lookup, Present, SetPte, Entry, FrameOf, TableInv, SameMaps;
    TableOf(vm1, d, v);
    var mem2 := SetPte(vm1.mem, d, v, 0);
    forall e: nat, u: nat | Has(vm, e, Dir) && u < NPAGES && e < |vm.mem| && e < |mem2|
      ensures Lookup(mem2, e, u) == if e == d && u == v then 0 else Lookup(vm.mem, e, u)
    {
      ClearedLookup(vm, vm1, d, v, e, u);
    }
  }

  lemma ClearedLookup(vm: PageTable.Vm, vm1: PageTable.Vm, d: nat, v: nat, e: nat, u: nat)
    requires TableInv(vm1) && SameMaps(vm, vm1) && HasTable(vm1, d, v)
    requires Has(vm, e, Dir) && Has(vm1, e, Dir) && u < NPAGES && e < |vm.mem|
    ensures FrameOf(Entry(vm1.mem[d], v / NENTRIES)) < |vm1.mem| == |vm.mem|
    ensures Lookup(SetPte(vm1.mem, d, v, 0), e, u) == if e == d && u == v then 0 else Lookup(vm.mem, e, u)
  {
    SetPteLookup(vm1, d, v, 0, e, u);
  }

  lemma ClearedInv(vm: PageTable.Vm, vm2: PageTable.Vm, d: nat, v: nat, f: nat)
    requires Inv(vm) && v < KPAGES && Has(vm, d, Dir) && Has(vm, f, Leaf(d, v))
    requires TableInv(vm2) && vm2.owner == vm.owner[f := Free] && |vm2.mem| == |vm.mem| && Cleared(vm, vm2.mem, d, v)
    ensures Inv(vm2)
  {
    hide TablesOwned, TablesUsed, LeavesOwned, LeavesUsed, Lookup, Present, FrameOf, Entry, Cleared, SameUserMap;
    ZeroEntry(0);
    ClearedOne(vm, vm2, d, v);
    forall e: nat, u: nat | Has(vm, e, Dir) && u < KPAGES && !(e == d && u == v)
      ensures e < |vm.mem| && e < |vm2.mem| && SameUserMap(vm, vm2, e, u)
    {
      ClearedOther(vm, vm2, d, v, e, u);
    }
    LeafDropped(vm, vm2, d, v, f);
  }

  lemma ClearedOther(vm: PageTable.Vm, vm2: PageTable.Vm, d: nat, v: nat, e: nat, u: nat)
    requires Frames(vm) && |vm2.mem| == |vm.mem| && Cleared(vm, vm2.mem, d, v)
    requires Has(vm, e, Dir) && u < KPAGES && !(e == d && u == v)
    ensures e < |vm.mem| && SameUserMap(vm, vm2, e, u)
  {
  }

  lemma ClearedOne(vm: PageTable.Vm, vm2: PageTable.Vm, d: nat, v: nat)
    requires Cleared(vm, vm2.mem, d, v) && Has(vm, d, Dir) && v < NPAGES && d < |vm.mem| == |vm2.mem|
    ensures Lookup(vm2.mem, d, v) == 0
  {
  }

  lemma ClearedIsUnmapped(vm: PageTable.Vm, vm1: PageTable.Vm, vm2: PageTable.Vm, d: nat, v: nat, f: nat)
    requires Inv(vm) && Has(vm, f, Leaf(d, v)) && Cleared(vm, vm2.mem, d, v) && v < NPAGES && d < |vm.mem|
    requires vm1.owner == vm.owner[f := Free] && |vm1.mem| == |vm.mem| && Grown(vm1, vm2, d) && vm2.owner == vm1.owner
    requires forall x :: 0 <= x < |vm.mem| && x != f ==> vm1.mem[x] == vm.mem[x]
    requires Present(Lookup(vm.mem, d, v))
    ensures Unmapped(vm, vm2, d, v, v + 1)
  {
    hide Lookup, Present, Inv;
    LeafUnique(vm, d, v, f);
  }

  lemma UnmappedDirs(vm: PageTable.Vm, vm': PageTable.Vm, d: nat, lo: nat, hi: nat)
    requires Unmapped(vm, vm', d, lo, hi)
    ensures forall e: nat :: Has(vm, e, Dir) ==> Has(vm', e, Dir)
  {
  }

  lemma InvIsTableInv(vm: PageTable.Vm)
    requires Inv(vm)
    ensures TableInv(vm) && Frames(vm)
  {
  }

  /** The page comes back from the program. */
  lemma TakeBack(vm: PageTable.Vm, d: nat, v: nat, f: nat, head: nat, free: seq<nat>)
    requires Inv(vm) && FreeList(vm, head, free) && HasTable(vm, d, v) && v < KPAGES
    requires Present(Lookup(vm.mem, d, v)) && f == FrameOf(Lookup(vm.mem, d, v))
    ensures var vm1 := vm.(owner := vm.owner[f := Held]);
            f < |vm.mem| && Has(vm, f, Leaf(d, v)) && Frames(vm1) && FreeList(vm1, head, free)
  {
    assert Has(vm, f, Leaf(d, v));
    hide Lookup, Present, FrameOf, Entry, TablesOwned, TablesUsed, LeavesOwned, LeavesUsed;
    FreeListKept(vm, vm.(owner := vm.owner[f := Held]), head, free);
  }

  // ----- Giving up an address space -----

  /** Exactly the pages of address space d are free; the others, and their data, are as before. */
  ghost predicate Gone(vm: PageTable.Vm, vm': PageTable.Vm, d: nat) {
    && |vm'.mem| == |vm.mem| && vm'.owner == Released(vm.owner, d, Free)
    && (forall e: nat, u: nat :: Has(vm, e, Dir) && e != d && u < NPAGES && e < |vm.mem| ==>
          Lookup(vm'.mem, e, u) == Lookup(vm.mem, e, u))
    && (forall f: nat :: f in vm'.owner && f < |vm.mem| && (vm'.owner[f].Held? || vm'.owner[f].Leaf?) ==> vm'.mem[f] == vm.mem[f])
  }

  lemma HeldFreed(vm: PageTable.Vm, vm1: PageTable.Vm, f: nat)
    requires Inv(vm) && Has(vm, f, Held) && vm1.owner == vm.owner[f := Free] && |vm1.mem| == |vm.mem|
    requires forall x :: 0 <= x < |vm.mem| && x != f ==> vm1.mem[x] == vm.mem[x]
    ensures Inv(vm1) && SameMaps(vm, vm1)
  {
    hide Lookup, Present, FrameOf, Entry, TablesOwned, TablesUsed, LeavesOwned, LeavesUsed;
    TableInvKept(vm, vm1);
    forall e: nat, u: nat | Has(vm, e, Dir) && u < KPAGES ensures e < |vm.mem| && e < |vm1.mem| && SameUserMap(vm, vm1, e, u) {
    }
    LeavesKept(vm, vm1);
  }

  /** Address space d after its tables below i are freed; vm is what it was before. */
  ghost predicate Giving(vm: PageTable.Vm, vm': PageTable.Vm, d: nat, i: nat) {
    && |vm'.mem| == |vm.mem| && vm'.owner.Keys == vm.owner.Keys
    && (forall f: nat :: f in vm.owner ==>
          vm'.owner[f] ==
          if vm.owner[f].Table? && vm.owner[f].d == d && vm.owner[f].i < i then Free
          else if Part(vm.owner[f], f, d) then Held else vm.owner[f])
    && (forall e: nat, u: nat :: Has(vm, e, Dir) && e != d && u < NPAGES && e < |vm.mem| ==>
          Lookup(vm'.mem, e, u) == Lookup(vm.mem, e, u))
    && (forall f: nat :: f in vm'.owner && f < |vm.mem| && (vm'.owner[f].Held? || vm'.owner[f].Leaf?) ==> vm'.mem[f] == vm.mem[f])
  }

  lemma GivingStarts(vm: PageTable.Vm, d: nat)
    requires Frames(vm)
    ensures Giving(vm, vm.(owner := Released(vm.owner, d, Held)), d, 0)
  {
  }

  lemma NoLeaves(vm: PageTable.Vm, vm1: PageTable.Vm, d: nat)
    requires Inv(vm) && Unmapped(vm, vm1, d, 0, KPAGES)
    ensures forall f: nat, v: nat :: !Has(vm1, f, Leaf(d, v))
  {
    hide TableInv, LeavesOwned, Lookup, Present, FrameOf;
    forall f: nat, v: nat ensures !Has(vm1, f, Leaf(d, v)) {
      assert Has(vm, f, Leaf(d, v)) ==> v < KPAGES;
    }
  }

  lemma ReleasedFree(vm: PageTable.Vm, d: nat, head: nat, free: seq<nat>)
    requires FreeList(vm, head, free)
    ensures FreeList(vm.(owner := Released(vm.owner, d, Held)), head, free)
  {
    FreeListKept(vm, vm.(owner := Released(vm.owner, d, Held)), head, free);
  }

  /** One table is freed. */
  lemma GivingMore(vm: PageTable.Vm, vm1: PageTable.Vm, vm2: PageTable.Vm, d: nat, i: nat, t: nat)
    requires TableInv(vm) && Giving(vm, vm1, d, i) && Has(vm, d, Dir) && i < NENTRIES && d < |vm.mem|
    requires Present(Entry(vm.mem[d], i)) && t == FrameOf(Entry(vm.mem[d], i))
    requires vm2.owner == vm1.owner[t := Free] && |vm2.mem| == |vm1.mem| && SameMaps(vm1, vm2)
    requires forall x :: 0 <= x < |vm.mem| && x != t ==> vm2.mem[x] == vm1.mem[x]
    ensures Giving(vm, vm2, d, i + 1)
  {
    hide Lookup, Present, FrameOf, Entry;
    assert Has(vm, t, Table(d, i));
    forall f: nat | f in vm.owner && vm.owner[f].Table? && vm.owner[f].d == d && vm.owner[f].i == i ensures f == t {
      assert Has(vm, f, Table(d, i));
    }
    forall e: nat, u: nat | Has(vm, e, Dir) && e != d && u < NPAGES && e < |vm.mem|
      ensures Lookup(vm2.mem, e, u) == Lookup(vm.mem, e, u)
    {
      assert Has(vm1, e, Dir);
    }
  }

  lemma GivingSkips(vm: PageTable.Vm, vm1: PageTable.Vm, d: nat, i: nat)
    requires TableInv(vm) && Giving(vm, vm1, d, i) && Has(vm, d, Dir) && i < NENTRIES && d < |vm.mem|
    requires !Present(Entry(vm.mem[d], i))
    ensures Giving(vm, vm1, d, i + 1)
  {
    hide Lookup, Present, FrameOf, Entry;
    forall f: nat | f in vm.owner && vm.owner[f].Table? && vm.owner[f].d == d ensures vm.owner[f].i != i {
      assert Has(vm, f, Table(d, vm.owner[f].i));
    }
  }

  lemma GivingHeld(vm: PageTable.Vm, vm1: PageTable.Vm, d: nat, i: nat)
    requires TableInv(vm) && Giving(vm, vm1, d, i) && Has(vm, d, Dir) && i < NENTRIES
    ensures d < |vm.mem| == |vm1.mem| && vm1.mem[d] == vm.mem[d] && Has(vm1, d, Held)
    ensures Present(Entry(vm.mem[d], i)) ==> Has(vm1, FrameOf(Entry(vm.mem[d], i)), Held)
  {
    hide Lookup;
    assert Present(Entry(vm.mem[d], i)) ==> Has(vm, FrameOf(Entry(vm.mem[d], i)), Table(d, i));
  }

  /** And at last the directory. */
  lemma GivingEnds(vm: PageTable.Vm, vm1: PageTable.Vm, vm2: PageTable.Vm, d: nat)
    requires TableInv(vm) && Giving(vm, vm1, d, NENTRIES) && Has(vm, d, Dir) && SameMaps(vm1, vm2)
    requires forall f: nat, v: nat :: !Has(vm, f, Leaf(d, v))
    requires vm2.owner == vm1.owner[d := Free] && |vm2.mem| == |vm1.mem|
    requires forall x :: 0 <= x < |vm.mem| && x != d ==> vm2.mem[x] == vm1.mem[x]
    ensures Gone(vm, vm2, d)
  {
    hide Lookup, Present, FrameOf, Entry;
    forall f: nat | f in vm.owner ensures vm2.owner[f] == Released(vm.owner, d, Free)[f] {
      assert Has(vm, f, vm.owner[f]);
      assert vm.owner[f].Table? ==> Has(vm, f, Table(vm.owner[f].d, vm.owner[f].i));
      assert vm.owner[f].Leaf? ==> Has(vm, f, Leaf(vm.owner[f].d, vm.owner[f].v));
    }
    assert vm2.owner == Released(vm.owner, d, Free);
    hide Released;
    forall e: nat, u: nat | Has(vm, e, Dir) && e != d && u < NPAGES && e < |vm.mem|
      ensures Lookup(vm2.mem, e, u) == Lookup(vm.mem, e, u)
    {
      assert Has(vm1, e, Dir);
    }
  }

  lemma UnmappedThenGone(vm: PageTable.Vm, vm1: PageTable.Vm, vm2: PageTable.Vm, d: nat)
    requires Inv(vm) && Unmapped(vm, vm1, d, 0, KPAGES) && Gone(vm1, vm2, d)
    ensures Gone(vm, vm2, d)
  {
    hide Lookup, Present, FrameOf, Entry, TablesOwned, TablesUsed, LeavesOwned;
    forall f: nat | f in vm.owner ensures vm2.owner[f] == Released(vm.owner, d, Free)[f] {
      assert Has(vm, f, vm.owner[f]);
    }
    assert vm2.owner == Released(vm.owner, d, Free);
    hide Released;
    forall e: nat, u: nat | Has(vm, e, Dir) && e != d && u < NPAGES && e < |vm.mem|
      ensures Lookup(vm2.mem, e, u) == Lookup(vm.mem, e, u)
    {
      assert Has(vm1, e, Dir);
    }
  }

  // ----- Sizes and pages -----

  lemma PageUps(newsz: nat, oldsz: nat)
    requires newsz < oldsz <= KERNBASE
    ensures (newsz + PGSIZE - 1) / PGSIZE * PGSIZE == PageAddr(PageUp(newsz)) && PageUp(newsz) <= PageUp(oldsz) <= KPAGES
  {
  }

  /** A page address is below the size exactly when the page is. */
  lemma BelowSize(k: nat, sz: nat)
    ensures PageAddr(k) < sz <==> k < PageUp(sz)
  {
  }

  lemma WholeUserPart()
    ensures PageUp(0) == 0 && PageUp(KERNBASE) == KPAGES
  {
  }

  lemma LastHeld(vm: PageTable.Vm, vm1: PageTable.Vm, d: nat)
    requires Giving(vm, vm1, d, NENTRIES) && Has(vm, d, Dir)
    ensures Has(vm1, d, Held)
  {
  }

  /** The first address that the next page table covers, seen from page k. */
  lemma JumpTo(k: nat)
    requires k < KPAGES
    ensures var next := (k / NENTRIES + 1) * NENTRIES;
            && k < next <= KPAGES && (Pdx(PageAddr(k)) + 1) * 0x40_0000 == PageAddr(next) && PageAddr(next) >= PGSIZE
            && PageAddr(k + 1) == PageAddr(k) + PGSIZE
  {
  }

  lemma LeafUnique(vm: PageTable.Vm, d: nat, v: nat, f: nat)
    requires Inv(vm) && Has(vm, f, Leaf(d, v))
    ensures forall x: nat :: x in vm.owner && LeafIn(vm.owner[x], d, v, v + 1) ==> x == f
  {
    hide Lookup, Present, TableInv;
    forall x: nat | x in vm.owner && LeafIn(vm.owner[x], d, v, v + 1) ensures x == f {
      assert Has(vm, x, Leaf(d, v));
    }
  }

  /** Writing an entry of a table of d. */
  lemma SetPteKeeps(vm: PageTable.Vm, d: nat, v: nat, w: nat, head: nat, free: seq<nat>)
    requires TableInv(vm) && HasTable(vm, d, v) && w < UINT && FreeList(vm, head, free)
    ensures FrameOf(Entry(vm.mem[d], v / NENTRIES)) < |vm.mem|
    ensures var vm' := Vm(SetPte(vm.mem, d, v, w), vm.owner);
            FreeList(vm', head, free) && TableInv(vm') && Grown(vm, vm', d)
  {
    SetPteTables(vm, d, v, w, vm.owner);
    TableOf(vm, d, v);
    var vm' := Vm(SetPte(vm.mem, d, v, w), vm.owner);
    hide Entry, PutEntry, FrameOf, Present, TableInv;
    FreeListKept(vm, vm', head, free);
  }

  lemma GrownTransitive(vm: PageTable.Vm, vm1: PageTable.Vm, vm2: PageTable.Vm, d: nat)
    requires Frames(vm) && Grown(vm, vm1, d) && Grown(vm1, vm2, d)
    ensures Grown(vm, vm2, d)
  {
  }

  lemma GrownDirs(vm: PageTable.Vm, vm': PageTable.Vm, d: nat)
    requires Frames(vm) && Grown(vm, vm', d)
    ensures forall e: nat :: Has(vm', e, Dir) <==> Has(vm, e, Dir)
  {
  }

  lemma WalkAdds(vm: PageTable.Vm, held: PageTable.Vm, vm': PageTable.Vm, d: nat, v: nat, t: nat, head: nat, free: seq<nat>)
    requires TableInv(vm) && Has(vm, d, Dir) && d < |vm.mem| && v < NPAGES && !Present(Entry(vm.mem[d], v / NENTRIES))
    requires Has(vm, t, Free) && t < |vm.mem| && held == vm.(owner := vm.owner[t := Held])
    requires FreeList(held, head, free)
    requires vm'.owner == held.owner[t := Table(d, v / NENTRIES)]
    requires vm'.mem == vm.mem[t := Filled(0)][d := PutEntry(vm.mem[d], v / NENTRIES, MakePte(t, PTE_P + PTE_W + PTE_U))]
    ensures FreeList(vm', head, free) && TableInv(vm') && Grown(vm, vm', d) && SameMaps(vm, vm')
    ensures HasTable(vm', d, v) && t == FrameOf(Entry(vm'.mem[d], v / NENTRIES))
  {
    hide Entry, PutEntry, Present, FrameOf, MakePte, Filled, Lookup;
    TableInvKept(vm, held);
    AddTable(held, d, v, t, vm'.mem);
    PutEntryAt(vm.mem[d], v / NENTRIES, MakePte(t, PTE_P + PTE_W + PTE_U), v / NENTRIES);
    MakePteParts(t, PTE_P + PTE_W + PTE_U);
    hide TableInv, HasTable;
    FreeListKept(held, vm', head, free);
  }
}
