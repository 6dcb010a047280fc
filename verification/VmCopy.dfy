/** User memory as a flat array of bytes, and writes to it. */
module VmCopy {
  import opened DiskBytes
  import opened PageTable
  import opened VmSpec

  predicate UserBit(w: nat) {
    w / PTE_U % 2 == 1
  }

  /** What uva2ka finds: a null entry pointer, which it reads through; a page the user may
      not use; or a physical page. */
  datatype Uva = NullEntry | NoAccess | Frame(f: nat)

  function Translate(mem: seq<Page>, d: nat, v: nat): Uva
    requires d < |mem| && v < NPAGES
  {
    if !Present(Entry(mem[d], v / NENTRIES)) then NullEntry
    else if !Present(Lookup(mem, d, v)) || !UserBit(Lookup(mem, d, v)) then NoAccess
    else Frame(FrameOf(Lookup(mem, d, v)))
  }

  /** The kernel's own entries are not for the user. */
  ghost predicate KernelPrivate(mem: seq<Page>, d: nat)
    requires d < |mem|
  {
    forall v: nat :: KPAGES <= v < NPAGES ==> !Translate(mem, d, v).Frame?
  }

  ghost predicate UserPage(vm: Vm, d: nat, a: nat) {
    Has(vm, d, Dir) && d < |vm.mem| && a < KERNBASE && Present(Lookup(vm.mem, d, a / PGSIZE)) &&
    FrameOf(Lookup(vm.mem, d, a / PGSIZE)) < |vm.mem|
  }

  ghost function UserByte(vm: Vm, d: nat, a: nat): byte
    requires UserPage(vm, d, a)
  {
    vm.mem[FrameOf(Lookup(vm.mem, d, a / PGSIZE))][a % PGSIZE]
  }

  /** In the user memory of every address space exactly the bytes of d from va on have changed. */
  ghost predicate Written(vm: Vm, vm': Vm, d: nat, va: nat, bytes: seq<byte>) {
    && vm'.owner == vm.owner && SameTables(vm, vm') && SameMaps(vm, vm')
    && (forall f: nat :: Has(vm, f, Held) && f < |vm.mem| ==> vm'.mem[f] == vm.mem[f])
    && (forall e: nat, a: nat :: UserPage(vm, e, a) ==>
          && UserPage(vm', e, a)
          && UserByte(vm', e, a) == if e == d && va <= a < va + |bytes| then bytes[a - va] else UserByte(vm, e, a))
  }

  lemma WrittenNothing(vm: Vm, d: nat, va: nat)
    ensures Written(vm, vm, d, va, [])
  {
  }

  lemma WrittenMore(vm: Vm, vm1: Vm, vm2: Vm, d: nat, va: nat, bs: seq<byte>, cs: seq<byte>)
    requires Written(vm, vm1, d, va, bs) && Written(vm1, vm2, d, va + |bs|, cs)
    ensures Written(vm, vm2, d, va, bs + cs)
  {
    hide UserPage, UserByte, Lookup;
    forall e: nat, a: nat | UserPage(vm, e, a)
      ensures UserPage(vm2, e, a)
      ensures UserByte(vm2, e, a) == if e == d && va <= a < va + |bs + cs| then (bs + cs)[a - va] else UserByte(vm, e, a)
    {
      assert UserPage(vm1, e, a);
    }
    assert SameMaps(vm, vm2);
  }

  /** memmove into a page */
  function Patched(p: Page, off: nat, bytes: seq<byte>): (r: Page)
    requires off + |bytes| <= PGSIZE
  {
    p[..off] + bytes + p[off + |bytes|..]
  }

  lemma PatchedAt(p: Page, off: nat, bytes: seq<byte>, i: nat)
    requires off + |bytes| <= PGSIZE && i < PGSIZE
    ensures Patched(p, off, bytes)[i] == if off <= i < off + |bytes| then bytes[i - off] else p[i]
  {
  }

  lemma InPage(va: nat, a: nat, n: nat)
    requires va % PGSIZE + n <= PGSIZE
    ensures va <= a < va + n <==> a / PGSIZE == va / PGSIZE && va % PGSIZE <= a % PGSIZE < va % PGSIZE + n
    ensures va <= a < va + n ==> a % PGSIZE - va % PGSIZE == a - va
  {
  }

  /** A write inside one user page is seen there and nowhere else, because no two user pages
      share memory. */
  lemma PatchIsWritten(vm: Vm, d: nat, va: nat, bytes: seq<byte>, head: nat, free: seq<nat>)
    requires Inv(vm) && UserPage(vm, d, va) && va % PGSIZE + |bytes| <= PGSIZE && FreeList(vm, head, free)
    ensures var f := FrameOf(Lookup(vm.mem, d, va / PGSIZE));
            var vm1 := vm.(mem := vm.mem[f := Patched(vm.mem[f], va % PGSIZE, bytes)]);
            Inv(vm1) && FreeList(vm1, head, free) && Written(vm, vm1, d, va, bytes)
  {
    hide Lookup, Present, FrameOf, Entry, TablesOwned, TablesUsed, LeavesUsed, Patched, FreeList;
    var v := va / PGSIZE;
    var f := FrameOf(Lookup(vm.mem, d, v));
    var vm1 := vm.(mem := vm.mem[f := Patched(vm.mem[f], va % PGSIZE, bytes)]);
    PageBelow(va);
    assert Has(vm, f, Leaf(d, v));
    TableInvKept(vm, vm1);
    FreeListKept(vm, vm1, head, free);
    forall e: nat, u: nat | Has(vm, e, Dir) && u < KPAGES ensures e < |vm.mem| && e < |vm1.mem| && SameUserMap(vm, vm1, e, u) {
    }
    LeavesKept(vm, vm1);
    forall e: nat, a: nat | UserPage(vm, e, a)
      ensures UserPage(vm1, e, a)
      ensures UserByte(vm1, e, a) == if e == d && va <= a < va + |bytes| then bytes[a - va] else UserByte(vm, e, a)
    {
      PatchSeen(vm, vm1, d, va, bytes, e, a);
    }
  }

  lemma PageBelow(a: nat)
    requires a < KERNBASE
    ensures a / PGSIZE < KPAGES
  {
  }

  lemma PatchSeen(vm: Vm, vm1: Vm, d: nat, va: nat, bytes: seq<byte>, e: nat, a: nat)
    requires Inv(vm) && UserPage(vm, d, va) && va % PGSIZE + |bytes| <= PGSIZE && UserPage(vm, e, a) && SameMaps(vm, vm1)
    requires var f := FrameOf(Lookup(vm.mem, d, va / PGSIZE));
             vm1 == vm.(mem := vm.mem[f := Patched(vm.mem[f], va % PGSIZE, bytes)])
    ensures UserPage(vm1, e, a)
    ensures UserByte(vm1, e, a) == if e == d && va <= a < va + |bytes| then bytes[a - va] else UserByte(vm, e, a)
  {
    hide Lookup, Present, FrameOf, Entry, TableInv, LeavesUsed, Patched;
    PageBelow(va);
    PageBelow(a);
    InPage(va, a, |bytes|);
    var f := FrameOf(Lookup(vm.mem, d, va / PGSIZE));
    assert Has(vm, f, Leaf(d, va / PGSIZE));
    assert Has(vm, FrameOf(Lookup(vm.mem, e, a / PGSIZE)), Leaf(e, a / PGSIZE));
    PatchedAt(vm.mem[f], va % PGSIZE, bytes, a % PGSIZE);
    assert Lookup(vm1.mem, e, a / PGSIZE) == Lookup(vm.mem, e, a / PGSIZE);
  }

  // ----- Who owns what -----

  /** No physical page is used twice: not by two pages, nor by a page and a table. */
  lemma NoSharing(vm: Vm, d: nat, v: nat, e: nat, u: nat)
    requires Inv(vm) && Has(vm, d, Dir) && Has(vm, e, Dir) && v < KPAGES && u < KPAGES
    ensures d < |vm.mem| && e < |vm.mem|
    ensures Present(Lookup(vm.mem, d, v)) && Present(Lookup(vm.mem, e, u)) && FrameOf(Lookup(vm.mem, d, v)) == FrameOf(Lookup(vm.mem, e, u)) ==>
              d == e && v == u
    ensures Present(Lookup(vm.mem, d, v)) && Present(Entry(vm.mem[e], u / NENTRIES)) ==>
              FrameOf(Lookup(vm.mem, d, v)) != FrameOf(Entry(vm.mem[e], u / NENTRIES)) && FrameOf(Lookup(vm.mem, d, v)) != e
  {
    hide Lookup, Present, FrameOf, Entry, LeavesUsed;
    assert Present(Lookup(vm.mem, d, v)) ==> Has(vm, FrameOf(Lookup(vm.mem, d, v)), Leaf(d, v));
    assert Present(Lookup(vm.mem, e, u)) ==> Has(vm, FrameOf(Lookup(vm.mem, e, u)), Leaf(e, u));
    assert Present(Entry(vm.mem[e], u / NENTRIES)) ==> Has(vm, FrameOf(Entry(vm.mem[e], u / NENTRIES)), Table(e, u / NENTRIES));
  }

  /** Where all pages are in hand, there is no address space and the free list is empty. */
  lemma NobodyYet(vm: Vm)
    requires Frames(vm) && forall f: nat :: f in vm.owner ==> vm.owner[f].Held?
    ensures Inv(vm) && FreeList(vm, 0, [])
  {
    hide Lookup, Entry;
  }

  // ----- Small steps -----

  lemma FrameIsUserPage(vm: Vm, d: nat, va: nat)
    requires Inv(vm) && Has(vm, d, Dir) && d < |vm.mem| && va < UINT && va / PGSIZE < KPAGES && Translate(vm.mem, d, va / PGSIZE).Frame?
    ensures UserPage(vm, d, va)
  {
    hide Lookup, Present, FrameOf, Entry, TablesOwned, TablesUsed, LeavesUsed;
    assert Has(vm, FrameOf(Lookup(vm.mem, d, va / PGSIZE)), Leaf(d, va / PGSIZE));
  }

  lemma WrittenDirs(vm: Vm, vm': Vm, d: nat, va: nat, bytes: seq<byte>)
    requires Written(vm, vm', d, va, bytes)
    ensures forall e: nat :: Has(vm, e, Dir) ==> Has(vm', e, Dir)
  {
  }

  lemma TranslateSame(vm: Vm, vm': Vm, d: nat, va: nat, bytes: seq<byte>, v: nat)
    requires Written(vm, vm', d, va, bytes) && Has(vm, d, Dir) && d < |vm.mem| && v < NPAGES
    ensures |vm'.mem| == |vm.mem| && Translate(vm'.mem, d, v) == Translate(vm.mem, d, v)
  {
    hide Lookup, Present, FrameOf, Entry, UserPage, UserByte;
  }

  lemma UserPart(mem: seq<Page>, d: nat, a: nat)
    requires d < |mem| && KernelPrivate(mem, d) && a < UINT
    ensures a / PGSIZE < NPAGES && (a / PGSIZE >= KPAGES ==> !Translate(mem, d, a / PGSIZE).Frame?)
  {
    hide Translate;
  }

  /** After a full page, the next address is where the next page starts. */
  lemma NextStart(va: nat, n: nat)
    requires va / PGSIZE < KPAGES && va % PGSIZE + n == PGSIZE
    ensures (va - va % PGSIZE + PGSIZE) % UINT == va + n
  {
  }
}
