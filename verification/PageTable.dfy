/** Two-level page tables in physical memory (vm.c; Intel SDM Volume 3A, section 4.3), seen
    as a flat map from page numbers to entries. A pointer to a physical page is its page
    number: P2V and V2P, which add and subtract KERNBASE, are left out. */
module PageTable {
  import opened DiskBytes

  const PGSIZE: nat := 4096
  const NENTRIES: nat := 1024       // NPDENTRIES and NPTENTRIES
  const NPAGES: nat := 0x10_0000    // pages in 32 bits of address space
  const KPAGES: nat := 0x8_0000     // KERNBASE / PGSIZE
  const KERNBASE: nat := 0x8000_0000
  const PTE_P: nat := 1
  const PTE_W: nat := 2
  const PTE_U: nat := 4

  type Page = p: seq<byte> | |p| == PGSIZE witness seq(PGSIZE, _ => 0)

  /** A page read as an array of little-endian words. */
  function Entry(p: Page, i: nat): (w: nat)
    requires i < NENTRIES
    ensures w < UINT
  {
    FourBytes(p[4 * i], p[4 * i + 1], p[4 * i + 2], p[4 * i + 3])
  }

  function PutEntry(p: Page, i: nat, w: nat): (r: Page)
    requires i < NENTRIES && w < UINT
    ensures Entry(r, i) == w
    ensures forall j :: 0 <= j < NENTRIES && j != i ==> Entry(r, j) == Entry(p, j)
  {
    p[..4 * i] + [w % 0x100, w / 0x100 % 0x100, w / 0x100 / 0x100 % 0x100, w / 0x100 / 0x100 / 0x100] + p[4 * i + 4..]
  }

  /** A page with the same byte everywhere. */
  function Filled(c: byte): (p: Page)
    ensures c == 0 ==> forall i :: 0 <= i < NENTRIES ==> Entry(p, i) == 0
    ensures forall i :: 0 <= i < PGSIZE ==> p[i] == c
  {
    seq(PGSIZE, _ => c)
  }

  predicate Present(w: nat) {
    w % 2 == 1
  }

  /** The physical page that an entry names. */
  function FrameOf(w: nat): nat {
    w / PGSIZE
  }

  /** A present entry for physical page f with the given permissions. */
  function MakePte(f: nat, perm: nat): (w: nat)
    requires f < NPAGES && perm < PGSIZE
    ensures w < UINT && Present(w) && FrameOf(w) == f && w % PGSIZE == perm + 1 - perm % 2
  {
    f * PGSIZE + perm + 1 - perm % 2
  }

  lemma PutEntryAt(p: Page, i: nat, w: nat, j: nat)
    requires i < NENTRIES && w < UINT && j < NENTRIES
    ensures Entry(PutEntry(p, i, w), j) == if j == i then w else Entry(p, j)
  {
  }

  lemma ZeroEntry(i: nat)
    requires i < NENTRIES
    ensures Entry(Filled(0), i) == 0 && !Present(0)
  {
  }

  lemma MakePteParts(f: nat, perm: nat)
    requires f < NPAGES && perm < PGSIZE
    ensures Present(MakePte(f, perm)) && FrameOf(MakePte(f, perm)) == f && MakePte(f, perm) % PGSIZE == perm + 1 - perm % 2
  {
  }

  function PageUp(a: nat): nat {
    (a + PGSIZE - 1) / PGSIZE
  }

  // ----- Who owns a physical page -----

  /** Held pages are in the hands of code that has them from kalloc: kernel stacks, pipes,
      or a page on its way into or out of a page table. */
  datatype Owner = Free | Held | Dir | Table(d: nat, i: nat) | Leaf(d: nat, v: nat)

  /** `owner` is defined on the pages that kalloc hands out. */
  datatype Vm = Vm(mem: seq<Page>, owner: map<nat, Owner>)

  ghost predicate Has(vm: Vm, f: nat, o: Owner) {
    f in vm.owner && vm.owner[f] == o
  }

  /** The entry that translates page v, or 0. */
  function Lookup(mem: seq<Page>, d: nat, v: nat): nat
    requires d < |mem| && v < NPAGES
  {
    var pde := Entry(mem[d], v / NENTRIES);
    if Present(pde) && FrameOf(pde) < |mem| then Entry(mem[FrameOf(pde)], v % NENTRIES) else 0
  }

  ghost predicate Frames(vm: Vm) {
    |vm.mem| <= NPAGES && forall f :: f in vm.owner ==> 0 < f < |vm.mem|
  }

  ghost predicate TablesOwned(vm: Vm) {
    Frames(vm) && forall d: nat, i: nat :: Has(vm, d, Dir) && i < NENTRIES && Present(Entry(vm.mem[d], i)) ==>
      Has(vm, FrameOf(Entry(vm.mem[d], i)), Table(d, i))
  }

  ghost predicate TablesUsed(vm: Vm) {
    Frames(vm) && forall f: nat, d: nat, i: nat :: Has(vm, f, Table(d, i)) ==>
      Has(vm, d, Dir) && i < NENTRIES && Present(Entry(vm.mem[d], i)) && FrameOf(Entry(vm.mem[d], i)) == f
  }

  ghost predicate LeavesOwned(vm: Vm) {
    Frames(vm) && forall d: nat, v: nat :: Has(vm, d, Dir) && v < KPAGES && Present(Lookup(vm.mem, d, v)) ==>
      Has(vm, FrameOf(Lookup(vm.mem, d, v)), Leaf(d, v))
  }

  ghost predicate LeavesUsed(vm: Vm) {
    Frames(vm) && forall f: nat, d: nat, v: nat :: Has(vm, f, Leaf(d, v)) ==>
      Has(vm, d, Dir) && v < KPAGES && Present(Lookup(vm.mem, d, v)) && FrameOf(Lookup(vm.mem, d, v)) == f
  }

  ghost predicate TableInv(vm: Vm) {
    Frames(vm) && TablesOwned(vm) && TablesUsed(vm)
  }

  /** Every page is owned once, and every page in use is used by its owner. */
  ghost predicate Inv(vm: Vm) {
    TableInv(vm) && LeavesOwned(vm) && LeavesUsed(vm)
  }

  // ----- Changes that no translation can see -----

  ghost predicate SameMaps(vm: Vm, vm': Vm) {
    && |vm'.mem| == |vm.mem|
    && forall d: nat, v: nat :: Has(vm, d, Dir) && v < NPAGES && d < |vm.mem| ==> Lookup(vm'.mem, d, v) == Lookup(vm.mem, d, v)
  }

  predicate Structural(o: Owner) {
    o.Dir? || o.Table?
  }

  /** The pages of the page tables are the same. */
  ghost predicate SameTables(vm: Vm, vm': Vm) {
    && |vm'.mem| == |vm.mem|
    && forall f :: f in vm.owner && f < |vm.mem| && Structural(vm.owner[f]) ==> vm'.mem[f] == vm.mem[f]
  }

  lemma SameTablesSameMaps(vm: Vm, vm': Vm)
    requires TablesOwned(vm) && SameTables(vm, vm')
    ensures SameMaps(vm, vm')
  {
    forall d: nat, v: nat | Has(vm, d, Dir) && v < NPAGES ensures Lookup(vm'.mem, d, v) == Lookup(vm.mem, d, v) {
      var pde := Entry(vm.mem[d], v / NENTRIES);
      assert Present(pde) ==> Has(vm, FrameOf(pde), Table(d, v / NENTRIES));
    }
  }

  /** Pages change hands, but no directory or table is made or lost. */
  ghost predicate SameStructure(vm: Vm, vm': Vm) {
    && vm'.owner.Keys == vm.owner.Keys
    && forall f :: f in vm.owner && (Structural(vm.owner[f]) || Structural(vm'.owner[f])) ==> vm'.owner[f] == vm.owner[f]
  }

  lemma TableInvKept(vm: Vm, vm': Vm)
    requires TableInv(vm) && SameTables(vm, vm') && SameStructure(vm, vm')
    ensures TableInv(vm') && SameMaps(vm, vm')
  {
    SameTablesSameMaps(vm, vm');
    assert forall f: nat, o :: Structural(o) ==> (Has(vm', f, o) <==> Has(vm, f, o));
    hide SameMaps, SameStructure, Entry, Present, FrameOf;
  }

  // ----- One entry changes -----

  /** The table entry of page v in directory d is stored. */
  function SetPte(mem: seq<Page>, d: nat, v: nat, w: nat): (r: seq<Page>)
    requires d < |mem| && v < NPAGES && w < UINT && FrameOf(Entry(mem[d], v / NENTRIES)) < |mem|
    ensures |r| == |mem|
  {
    var t := FrameOf(Entry(mem[d], v / NENTRIES));
    mem[t := PutEntry(mem[t], v % NENTRIES, w)]
  }

  ghost predicate HasTable(vm: Vm, d: nat, v: nat) {
    Has(vm, d, Dir) && d < |vm.mem| && v < NPAGES && Present(Entry(vm.mem[d], v / NENTRIES))
  }

  lemma TableOf(vm: Vm, d: nat, v: nat)
    requires TableInv(vm) && HasTable(vm, d, v)
    ensures var t := FrameOf(Entry(vm.mem[d], v / NENTRIES));
            t < |vm.mem| && Has(vm, t, Table(d, v / NENTRIES)) && Lookup(vm.mem, d, v) == Entry(vm.mem[t], v % NENTRIES)
  {
  }

  lemma SetPteLookup(vm: Vm, d: nat, v: nat, w: nat, d': nat, v': nat)
    requires TableInv(vm) && HasTable(vm, d, v) && w < UINT && Has(vm, d', Dir) && v' < NPAGES
    ensures FrameOf(Entry(vm.mem[d], v / NENTRIES)) < |vm.mem| && d' < |vm.mem|
    ensures Lookup(SetPte(vm.mem, d, v, w), d', v') == if d' == d && v' == v then w else Lookup(vm.mem, d', v')
  {
    TableOf(vm, d, v);
    var t := FrameOf(Entry(vm.mem[d], v / NENTRIES));
    var mem' := SetPte(vm.mem, d, v, w);
    assert d' != t && mem'[d'] == vm.mem[d'];
    var pde' := Entry(vm.mem[d'], v' / NENTRIES);
    if Present(pde') {
      TableOf(vm, d', v');
      if FrameOf(pde') == t {
        assert d' == d && v' / NENTRIES == v / NENTRIES;
        assert v' != v ==> v' % NENTRIES != v % NENTRIES;
      }
    }
  }

  /** Writing one entry of a table leaves directories and tables in place. */
  lemma SetPteTables(vm: Vm, d: nat, v: nat, w: nat, owner: map<nat, Owner>)
    requires TableInv(vm) && HasTable(vm, d, v) && w < UINT
    ensures FrameOf(Entry(vm.mem[d], v / NENTRIES)) < |vm.mem|
    ensures SameStructure(vm, vm.(owner := owner)) ==> TableInv(Vm(SetPte(vm.mem, d, v, w), owner))
  {
    TableOf(vm, d, v);
    var vm' := Vm(SetPte(vm.mem, d, v, w), owner);
    if SameStructure(vm, vm') {
      assert forall x: nat :: Has(vm, x, Dir) ==> vm'.mem[x] == vm.mem[x];
      assert forall f: nat, o :: Structural(o) ==> (Has(vm', f, o) <==> Has(vm, f, o));
      hide SetPte, Entry, Present, FrameOf;
    }
  }

  /** Directory entry i receives a page t of zeroes as its table: no translation changes. */
  lemma AddTable(vm: Vm, d: nat, v: nat, t: nat, mem': seq<Page>)
    requires TableInv(vm) && Has(vm, d, Dir) && d < |vm.mem| && v < NPAGES && !Present(Entry(vm.mem[d], v / NENTRIES))
    requires Has(vm, t, Held) && t < |vm.mem|
    requires mem' == vm.mem[t := Filled(0)][d := PutEntry(vm.mem[d], v / NENTRIES, MakePte(t, PTE_P + PTE_W + PTE_U))]
    ensures var vm' := Vm(mem', vm.owner[t := Table(d, v / NENTRIES)]);
            TableInv(vm') && HasTable(vm', d, v) && SameMaps(vm, vm')
  {
    var i := v / NENTRIES;
    var vm' := Vm(mem', vm.owner[t := Table(d, i)]);
    var w := MakePte(t, PTE_P + PTE_W + PTE_U);
    assert forall j :: 0 <= j < NENTRIES ==> Entry(mem'[d], j) == if j == i then w else Entry(vm.mem[d], j);
    hide PutEntry, Entry, MakePte, Present, FrameOf, Filled;
    assert forall x: nat, o :: x != t ==> (Has(vm', x, o) <==> Has(vm, x, o));
    assert TablesOwned(vm');
    assert TablesUsed(vm');
    forall d': nat, u: nat | Has(vm, d', Dir) && u < NPAGES ensures Lookup(mem', d', u) == Lookup(vm.mem, d', u) {
      AddTableLookup(vm, d, v, t, mem', d', u);
    }
  }

  lemma AddTableLookup(vm: Vm, d: nat, v: nat, t: nat, mem': seq<Page>, d': nat, u: nat)
    requires TableInv(vm) && Has(vm, d, Dir) && d < |vm.mem| && v < NPAGES && !Present(Entry(vm.mem[d], v / NENTRIES))
    requires Has(vm, t, Held) && t < |vm.mem| && Has(vm, d', Dir) && u < NPAGES
    requires mem' == vm.mem[t := Filled(0)][d := PutEntry(vm.mem[d], v / NENTRIES, MakePte(t, PTE_P + PTE_W + PTE_U))]
    ensures d' < |vm.mem| == |mem'| && Lookup(mem', d', u) == Lookup(vm.mem, d', u)
  {
    hide PutEntry, Entry, MakePte, Present, FrameOf, Filled;
    var w, i, j := MakePte(t, PTE_P + PTE_W + PTE_U), v / NENTRIES, u / NENTRIES;
    PutEntryAt(vm.mem[d], i, w, j);
    ZeroEntry(u % NENTRIES);
    MakePteParts(t, PTE_P + PTE_W + PTE_U);
    if Present(Entry(vm.mem[d'], j)) {
      TableOf(vm, d', u);
    }
    hide TablesOwned, TablesUsed;
  }

  // ----- The leaves: user pages -----

  ghost predicate SameLeaves(vm: Vm, vm': Vm) {
    forall f: nat, o: Owner :: o.Dir? || o.Leaf? ==> (Has(vm', f, o) <==> Has(vm, f, o))
  }

  ghost predicate SameUserMap(vm: Vm, vm': Vm, d: nat, v: nat)
    requires d < |vm.mem| && d < |vm'.mem| && v < NPAGES
  {
    Lookup(vm'.mem, d, v) == Lookup(vm.mem, d, v)
  }

  lemma LeavesKept(vm: Vm, vm': Vm)
    requires Inv(vm) && TableInv(vm') && SameLeaves(vm, vm')
    requires forall d: nat, v: nat :: Has(vm, d, Dir) && v < KPAGES ==>
               d < |vm.mem| && d < |vm'.mem| && SameUserMap(vm, vm', d, v)
    ensures Inv(vm')
  {
    hide Lookup, Present, FrameOf, TablesOwned, TablesUsed;
    forall e: nat, u: nat | Has(vm', e, Dir) && u < KPAGES && Present(Lookup(vm'.mem, e, u))
      ensures Has(vm', FrameOf(Lookup(vm'.mem, e, u)), Leaf(e, u))
    {
      assert SameUserMap(vm, vm', e, u);
    }
    forall x: nat, e: nat, u: nat | Has(vm', x, Leaf(e, u))
      ensures Has(vm', e, Dir) && u < KPAGES && Present(Lookup(vm'.mem, e, u)) && FrameOf(Lookup(vm'.mem, e, u)) == x
    {
      assert Has(vm, x, Leaf(e, u));
      assert SameUserMap(vm, vm', e, u);
    }
  }

  /** Page f enters the map of d at v. */
  lemma LeafAdded(vm: Vm, vm': Vm, d: nat, v: nat, f: nat)
    requires Inv(vm) && TableInv(vm') && Has(vm, d, Dir) && v < KPAGES && Has(vm, f, Held) && Has(vm', f, Leaf(d, v))
    requires forall x: nat, o: Owner :: (o.Dir? || o.Leaf?) && x != f ==> (Has(vm', x, o) <==> Has(vm, x, o))
    requires forall e: nat, u: nat :: Has(vm, e, Dir) && u < KPAGES && !(e == d && u == v) ==>
               e < |vm.mem| && e < |vm'.mem| && SameUserMap(vm, vm', e, u)
    requires d < |vm.mem| && d < |vm'.mem|
    requires !Present(Lookup(vm.mem, d, v))
    requires Present(Lookup(vm'.mem, d, v)) && FrameOf(Lookup(vm'.mem, d, v)) == f
    ensures Inv(vm')
  {
    hide Lookup, Present, FrameOf, TablesOwned, TablesUsed;
    assert LeavesOwned(vm') by {
      hide LeavesUsed;
      forall e: nat, u: nat | Has(vm', e, Dir) && u < KPAGES && Present(Lookup(vm'.mem, e, u))
        ensures Has(vm', FrameOf(Lookup(vm'.mem, e, u)), Leaf(e, u))
      {
        if !(e == d && u == v) {
          assert SameUserMap(vm, vm', e, u);
        }
      }
    }
    hide LeavesOwned;
    forall x: nat, e: nat, u: nat | Has(vm', x, Leaf(e, u))
      ensures Has(vm', e, Dir) && u < KPAGES && Present(Lookup(vm'.mem, e, u)) && FrameOf(Lookup(vm'.mem, e, u)) == x
    {
      if x != f {
        assert Has(vm, x, Leaf(e, u));
        assert !(e == d && u == v);
        assert SameUserMap(vm, vm', e, u);
      }
    }
  }

  /** Page f leaves it. */
  lemma LeafDropped(vm: Vm, vm': Vm, d: nat, v: nat, f: nat)
    requires Inv(vm) && TableInv(vm') && Has(vm, f, Leaf(d, v)) && f in vm'.owner && (vm'.owner[f].Held? || vm'.owner[f].Free?)
    requires forall x: nat, o: Owner :: (o.Dir? || o.Leaf?) && x != f ==> (Has(vm', x, o) <==> Has(vm, x, o))
    requires forall e: nat, u: nat :: Has(vm, e, Dir) && u < KPAGES && !(e == d && u == v) ==>
               e < |vm.mem| && e < |vm'.mem| && SameUserMap(vm, vm', e, u)
    requires v < KPAGES && d < |vm'.mem| && !Present(Lookup(vm'.mem, d, v))
    ensures Inv(vm')
  {
    hide Lookup, Present, FrameOf, TablesOwned, TablesUsed;
    forall e: nat, u: nat | Has(vm', e, Dir) && u < KPAGES && Present(Lookup(vm'.mem, e, u))
      ensures Has(vm', FrameOf(Lookup(vm'.mem, e, u)), Leaf(e, u))
    {
      assert SameUserMap(vm, vm', e, u);
    }
    forall x: nat, e: nat, u: nat | Has(vm', x, Leaf(e, u))
      ensures Has(vm', e, Dir) && u < KPAGES && Present(Lookup(vm'.mem, e, u)) && FrameOf(Lookup(vm'.mem, e, u)) == x
    {
      assert Has(vm, x, Leaf(e, u));
      assert !(e == d && u == v);
      assert SameUserMap(vm, vm', e, u);
    }
  }

  /** A zeroed page becomes a directory that maps nothing. */
  lemma NewDir(vm: Vm, d: nat)
    requires Inv(vm) && Has(vm, d, Held)
    ensures d < |vm.mem|
    ensures var vm' := Vm(vm.mem[d := Filled(0)], vm.owner[d := Dir]);
            Inv(vm') && SameMaps(vm, vm') && forall v: nat :: v < NPAGES ==> Lookup(vm'.mem, d, v) == 0
  {
    var vm' := Vm(vm.mem[d := Filled(0)], vm.owner[d := Dir]);
    hide Entry, Present, FrameOf, Filled, Lookup;
    forall v: nat | v < NPAGES ensures Lookup(vm'.mem, d, v) == 0 && !Present(0) {
      ZeroEntry(v / NENTRIES);
      NoTable(vm'.mem, d, v);
    }
    forall i: nat | i < NENTRIES ensures !Present(Entry(vm'.mem[d], i)) {
      ZeroEntry(i);
    }
    SameTablesSameMaps(vm, vm');
    assert forall x: nat, o :: x != d ==> (Has(vm', x, o) <==> Has(vm, x, o));
    assert TablesOwned(vm') && TablesUsed(vm') by {
      hide LeavesOwned, LeavesUsed;
    }
    hide TablesOwned, TablesUsed;
    assert LeavesOwned(vm') && LeavesUsed(vm');
  }

  lemma NoTable(mem: seq<Page>, d: nat, v: nat)
    requires d < |mem| && v < NPAGES && !Present(Entry(mem[d], v / NENTRIES))
    ensures Lookup(mem, d, v) == 0
  {
  }

  /** The pages that make up address space d. */
  predicate Part(o: Owner, f: nat, d: nat) {
    match o
    case Dir => f == d
    case Table(e, _) => e == d
    case Leaf(e, _) => e == d
    case _ => false
  }

  function Released(owner: map<nat, Owner>, d: nat, to: Owner): map<nat, Owner> {
    map f | f in owner :: if Part(owner[f], f, d) then to else owner[f]
  }

  /** Directory d and its tables are given up at once. */
  lemma DropDir(vm: Vm, d: nat)
    requires Inv(vm) && forall f: nat, v: nat :: !Has(vm, f, Leaf(d, v))
    ensures Inv(Vm(vm.mem, Released(vm.owner, d, Held)))
  {
    var vm' := Vm(vm.mem, Released(vm.owner, d, Held));
    assert forall f: nat, o: Owner :: !o.Held? ==> (Has(vm', f, o) <==> Has(vm, f, o) && !Part(o, f, d));
    hide Released;
    hide Entry, Present, FrameOf, Lookup;
    assert TablesOwned(vm') && TablesUsed(vm');
    hide TablesOwned, TablesUsed;
    assert LeavesOwned(vm') && LeavesUsed(vm');
  }
}
