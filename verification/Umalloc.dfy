/** free, morecore and malloc of umalloc.c, on an array of headers indexed by unit address. */
module Umalloc {
  import opened HeapSpec

  const HEADER: nat := 8           // sizeof(Header)
  const UINT: nat := 0x1_0000_0000 // one past the largest uint

  lemma LiveBlock(h: Heap, a: nat)
    requires Inv(h) && a in h.live
    ensures BASE < a < |h.mem| && h.mem[a].size >= 1 && End(h.mem, a) <= h.brk <= |h.mem|
  {
    SizeOfBlock(h, a);
  }

  lemma SparedIfInv(h: Heap)
    requires Inv(h)
    ensures Spared(h, h, h.live)
  {
    SparedReflexive(h, h.live);
  }

  /** What free leaves: the block inserted after position k, then coalesced both ways. */
  ghost function Freed(h: Heap, bp: nat, k: nat): Heap
    requires k < |h.ring| && h.ring[k] < |h.mem| && bp < |h.mem|
  {
    MergeIf(MergeIf(Insert(h, bp, k), k + 1), k)
  }

  lemma MergeIfLength(h: Heap, i: nat)
    ensures |MergeIf(h, i).ring| >= if |h.ring| > i + 1 then i + 1 else |h.ring|
    ensures forall j :: 0 <= j <= i && j < |h.ring| ==> j < |MergeIf(h, i).ring| && MergeIf(h, i).ring[j] == h.ring[j]
  {
    if Touching(h, i) {
      RemoveAtIndex(h.ring, i + 1);
    }
  }

  lemma CoalesceBoth(h: Heap, k: nat)
    requires Sound(h) && Coalesced(h.mem, h.ring, {k, k + 1}) && k + 1 < |h.ring|
    ensures var h' := MergeIf(MergeIf(h, k + 1), k);
            Inv(h') && h'.live == h.live && h'.brk == h.brk && h'.home.Keys == h.home.Keys
  {
    hide Sound, Coalesced, MergeIf;
    MergeIfLength(h, k + 1);
    MergeIfSound(h, k + 1, {k, k + 1});
    assert {k, k + 1} - {k + 1} == {k};
    MergeIfSound(MergeIf(h, k + 1), k, {k});
    var none: set<int> := {};
    assert {k} - {k} == none;
  }

  lemma FreedInv(h: Heap, bp: nat, k: nat)
    requires Inv(h) && bp in h.live && Between(h.ring, bp, k)
    ensures bp < |h.mem| && Inv(Freed(h, bp, k))
    ensures var h' := Freed(h, bp, k);
            h'.live == h.live - {bp} && h'.brk == h.brk && h'.home.Keys == h.home.Keys
  {
    InsertSound(h, bp, k);
    InsertAtIndex(h.ring, k, bp);
    CoalesceBoth(Insert(h, bp, k), k);
  }

  /** The two tests of free, on the headers: first the block above, then the one below. */
  function Upper(m: seq<Header>, p: nat, bp: nat): (r: seq<Header>)
    requires p < |m| && bp < |m| && m[p].ptr < |m|
    ensures |r| == |m|
  {
    var n := m[p].ptr;
    if End(m, bp) == n then m[bp := Header(m[n].ptr, m[bp].size + m[n].size)]
    else m[bp := m[bp].(ptr := n)]
  }

  function Lower(m: seq<Header>, p: nat, bp: nat): (r: seq<Header>)
    requires p < |m| && bp < |m|
    ensures |r| == |m|
  {
    if End(m, p) == bp then m[p := Header(m[bp].ptr, m[p].size + m[bp].size)]
    else m[p := m[p].(ptr := bp)]
  }

  lemma UpperIsMerge(h: Heap, bp: nat, k: nat)
    requires Linked(h.mem, h.ring) && Between(h.ring, bp, k) && BASE < bp < |h.mem|
    requires forall i, j :: 0 <= i < j < |h.ring| ==> h.ring[i] < h.ring[j]
    requires h.mem[bp].size > 0
    ensures var p := h.ring[k];
            && p < |h.mem| && h.mem[p].ptr < |h.mem|
            && var m := Upper(h.mem, p, bp);
               MergeIf(Insert(h, bp, k), k + 1).mem == m[p := m[p].(ptr := bp)]
  {
    var p, n := h.ring[k], Next(h.ring, k);
    assert h.mem[p].ptr == n;
    hide Linked;
    InsertAtIndex(h.ring, k, bp);
    var h1 := Insert(h, bp, k);
    hide InsertAt;
    assert h1.ring[k + 1] == bp && (k + 1 < |h.ring| ==> h1.ring[k + 2] == n);
    assert Touching(h1, k + 1) <==> End(h.mem, bp) == n;
  }

  lemma LowerIsMerge(h: Heap, m: seq<Header>, p: nat, bp: nat, k: nat)
    requires k + 1 < |h.ring| && h.ring[k] == p && h.ring[k + 1] == bp && p < |m| && bp < |m| && p != bp
    requires h.mem == m[p := m[p].(ptr := bp)]
    ensures MergeIf(h, k).mem == Lower(m, p, bp)
  {
  }

  /** They make exactly Freed, and the rover freep is on its list. */
  lemma FreedHeaders(h: Heap, bp: nat, k: nat)
    requires Inv(h) && bp in h.live && Between(h.ring, bp, k) && bp < |h.mem|
    ensures var p := h.ring[k];
            && p < |h.mem| && h.mem[p].ptr < |h.mem|
            && Freed(h, bp, k).mem == Lower(Upper(h.mem, p, bp), p, bp)
            && k < |Freed(h, bp, k).ring| && Freed(h, bp, k).ring[k] == p
  {
    var p := h.ring[k];
    RingIncreases(h.mem, h.ring);
    SizeOfBlock(h, bp);
    UpperIsMerge(h, bp, k);
    var h1 := Insert(h, bp, k);
    InsertAtIndex(h.ring, k, bp);
    assert h1.ring[k] == p && h1.ring[k + 1] == bp;
    MergeIfLength(h1, k + 1);
    var h2 := MergeIf(h1, k + 1);
    assert h2.ring[k] == p && h2.ring[k + 1] == bp;
    MergeIfLength(h2, k);
    hide Inv, MergeIf, Insert, Upper, Lower;
    LowerIsMerge(h2, Upper(h.mem, p, bp), p, bp, k);
  }

  /** Blocks in the program's hands are not written. */
  lemma FreedSpares(h: Heap, bp: nat, k: nat)
    requires Inv(h) && bp in h.live && Between(h.ring, bp, k) && bp < |h.mem|
    ensures Spared(h, Freed(h, bp, k), h.live - {bp})
  {
    hide Sound, MergeIf, Coalesced, Spared, InsertAt;
    var h1 := Insert(h, bp, k);
    var h2 := MergeIf(h1, k + 1);
    InsertSound(h, bp, k);
    InsertSpares(h, bp, k);
    InsertAtIndex(h.ring, k, bp);
    MergeIfLength(h1, k + 1);
    MergeIfSpares(h1, k + 1);
    MergeIfSound(h1, k + 1, {k, k + 1});
    MergeIfSpares(h2, k);
    SparedTransitive(h, h1, h2, h.live - {bp}, h.live - {bp});
    SparedTransitive(h, h2, Freed(h, bp, k), h.live - {bp}, h.live - {bp});
  }

  /** The freed space is in the block freep points to, or in the next one. */
  lemma FreedFits(h: Heap, bp: nat, k: nat)
    requires Inv(h) && bp in h.live && Between(h.ring, bp, k)
    ensures bp < |h.mem| && h.ring[k] < |h.mem| == |Freed(h, bp, k).mem|
    ensures var m := Freed(h, bp, k).mem;
            var p := h.ring[k];
            m[p].size >= h.mem[bp].size || (m[p].ptr == bp && m[bp].size >= h.mem[bp].size)
  {
    SizeOfBlock(h, bp);
    FreedHeaders(h, bp, k);
    assert h.ring[k] != bp;
  }

  // ----- The request arithmetic, in 32 bits -----

  /** The units for nbytes bytes rounded up and a header, in unsigned arithmetic. */
  function Nunits(nbytes: nat): nat {
    (nbytes + HEADER - 1) % UINT / HEADER + 1
  }

  /** A block of that many units has room for the request exactly up to this size: just
      below 2^32 the addition wraps, and a request for 4 GB is met by a bare header. */
  lemma RequestFitsIff(nbytes: nat)
    requires nbytes < UINT
    ensures (Nunits(nbytes) - 1) * HEADER >= nbytes <==> nbytes <= UINT - HEADER
  {
  }

  /** sbrk takes a signed byte count: from 2^28 units on the product is negative or wraps. */
  function SbrkArgument(nu: nat): int {
    var bytes := nu * HEADER % UINT;
    if bytes < UINT / 2 then bytes else bytes - UINT
  }

  lemma SbrkArgumentIff(nbytes: nat)
    requires nbytes < UINT
    ensures SbrkArgument(Nunits(nbytes)) == Nunits(nbytes) * HEADER <==> Nunits(nbytes) < UINT / 2 / HEADER
  {
  }

  function AtLeast(nu: nat): nat {
    if nu < 4096 then 4096 else nu
  }

  /** malloc finds n units at its rover, or one step further. */
  ghost predicate Holds(m: seq<Header>, freep: nat, n: nat) {
    freep < |m| && (m[freep].size >= n || (m[freep].ptr < |m| && m[m[freep].ptr].size >= n))
  }

  /** What malloc makes of the block at position k. */
  function Served(h: Heap, k: nat, n: nat): Heap
    requires 0 < k < |h.ring| && h.ring[k] < |h.mem| && h.ring[k - 1] < |h.mem|
    requires n <= h.mem[h.ring[k]].size && End(h.mem, h.ring[k]) <= |h.mem| && n > 0
  {
    if h.mem[h.ring[k]].size == n then Take(h, k) else Split(h, h.ring[k], n)
  }

  /** Block `a`, which the program did not have, is the program's, with n units. */
  ghost predicate Granted(h: Heap, h': Heap, a: nat, n: nat) {
    && a < |h.mem| == |h'.mem| && a !in h.live && h'.live == h.live + {a} && h'.mem[a].size == n
    && h'.home.Keys == h.home.Keys && h'.brk == h.brk
  }

  lemma FreeAt(h: Heap, k: nat)
    requires Inv(h) && 0 < k < |h.ring|
    ensures 0 < h.ring[k - 1] < |h.mem| && h.ring[k] < |h.mem| && h.ring[k] in h.free && h.ring[k - 1] != h.ring[k]
    ensures End(h.mem, h.ring[k]) <= |h.mem|
  {
    RingIncreases(h.mem, h.ring);
    assert h.ring[k] in h.free;
    SizeOfBlock(h, h.ring[k]);
  }

  lemma ServedInv(h: Heap, k: nat, n: nat)
    requires Inv(h) && 0 < k < |h.ring| && h.ring[k] < |h.mem| && 0 < n <= h.mem[h.ring[k]].size
    ensures 0 < h.ring[k - 1] < |h.mem| && End(h.mem, h.ring[k]) <= |h.mem|
    ensures Inv(Served(h, k, n)) && h.ring[k - 1] in Served(h, k, n).ring
    ensures Granted(h, Served(h, k, n), End(h.mem, h.ring[k]) - n, n)
  {
    hide Inv, Linked, RemoveAt;
    FreeAt(h, k);
    if h.mem[h.ring[k]].size == n {
      TakeInv(h, k);
      RemoveAtIndex(h.ring, k);
      assert Take(h, k).ring[k - 1] == h.ring[k - 1];
    } else {
      SplitInv(h, h.ring[k], n);
    }
  }

  lemma ServedSpares(h: Heap, k: nat, n: nat)
    requires Inv(h) && 0 < k < |h.ring| && h.ring[k] < |h.mem| && 0 < n <= h.mem[h.ring[k]].size
    requires h.ring[k - 1] < |h.mem| && End(h.mem, h.ring[k]) <= |h.mem|
    ensures Spared(h, Served(h, k, n), h.live)
  {
    FreeAt(h, k);
    TakeSpares(h, k);
    if h.mem[h.ring[k]].size != n {
      SplitSpares(h, h.ring[k], n);
    }
  }

  function OwnedBy(h: Heap, blocks: set<nat>): set<nat> {
    set u | u in h.home && h.home[u] in blocks
  }

  /** Conservation: the units obtained from sbrk are the free ones and the live ones, each
      counted once, and a block has exactly the units its header claims. */
  lemma UnitsAreConserved(h: Heap)
    requires Inv(h)
    ensures OwnedBy(h, h.live) !! OwnedBy(h, h.free)
    ensures |OwnedBy(h, h.live)| + |OwnedBy(h, h.free)| == |h.home.Keys|
    ensures forall a :: a in h.live + h.free ==> a < |h.mem| && OwnedBy(h, {a}) == Units(a, h.mem[a].size)
  {
    assert OwnedBy(h, h.live) + OwnedBy(h, h.free) == h.home.Keys by {
      hide Linked, Ordered, Members, AtHome;
    }
    assert OwnedBy(h, h.live) !! OwnedBy(h, h.free) by {
      hide Linked, Ordered, Members, Tiles;
    }
    hide Inv, OwnedBy;
    forall a | a in h.live + h.free ensures a < |h.mem| && OwnedBy(h, {a}) == Units(a, h.mem[a].size) {
      OwnUnits(h, a);
    }
  }

  lemma OwnUnits(h: Heap, a: nat)
    requires Inv(h) && a in h.live + h.free
    ensures a < |h.mem| && OwnedBy(h, {a}) == Units(a, h.mem[a].size)
  {
    hide Units, Sound;
    InvIsSound(h);
    SizeOfBlock(h, a);
    UnitsAt(a, h.mem[a].size);
    forall u: nat ensures u in OwnedBy(h, {a}) <==> u in Units(a, h.mem[a].size) {
      HomeIsBlock(h, a, u);
    }
  }

  lemma InvIsSound(h: Heap)
    requires Inv(h)
    ensures Sound(h)
  {
    hide Sound;
  }

  lemma HomeIsBlock(h: Heap, a: nat, u: nat)
    requires Sound(h) && a in h.live + h.free && a < |h.mem|
    ensures u in h.home && h.home[u] == a <==> a <= u < a + h.mem[a].size
  {
    hide Linked, Ordered, Members;
    assert End(h.mem, a) == a + h.mem[a].size;
  }

  lemma UnitsAt(a: nat, n: nat)
    ensures forall u :: u in Units(a, n) <==> a <= u < a + n
  {
  }

  // ----- malloc's walk round the list -----

  function Before(n: nat, k: nat): nat
    requires k < n
  {
    if k == 0 then n - 1 else k - 1
  }

  ghost predicate NoneFits(h: Heap, n: nat) {
    forall a :: a in h.free ==> a < |h.mem| && h.mem[a].size < n
  }

  /** The blocks after position f up to but not including position k are too small. */
  ghost predicate Small(h: Heap, f: nat, k: nat, n: nat) {
    forall i :: 0 <= i < |h.ring| && (if k <= f then f < i || i < k else f < i < k) ==>
      h.ring[i] < |h.mem| && h.mem[h.ring[i]].size < n
  }

  lemma SmallStep(h: Heap, f: nat, k: nat, j: nat, n: nat)
    requires f < |h.ring| && j < |h.ring| && k == Before(|h.ring|, j) && h.ring[k] < |h.mem|
    requires k == f || (Small(h, f, k, n) && h.mem[h.ring[k]].size < n)
    ensures Small(h, f, j, n)
  {
  }

  lemma IndexOf(ring: seq<nat>, a: nat) returns (k: nat)
    requires a in ring
    ensures k < |ring| && ring[k] == a
  {
    k :| 0 <= k < |ring| && ring[k] == a;
  }

  lemma Follow(h: Heap, k: nat) returns (j: nat)
    requires Inv(h) && k < |h.ring|
    ensures h.ring[k] < |h.mem| && j < |h.ring| && k == Before(|h.ring|, j) && h.mem[h.ring[k]].ptr == h.ring[j] < |h.mem|
  {
    j := if k + 1 < |h.ring| then k + 1 else 0;
    assert h.mem[h.ring[k]].ptr == Next(h.ring, k);
  }

  lemma BaseIsEmpty(h: Heap, k: nat)
    requires Inv(h) && k < |h.ring|
    ensures h.ring[k] < |h.mem| && (h.mem[h.ring[k]].size > 0 ==> k > 0)
  {
  }

  lemma SameIndex(h: Heap, k: nat, f: nat)
    requires Inv(h) && k < |h.ring| && f < |h.ring| && h.ring[k] == h.ring[f]
    ensures k == f
  {
    RingIncreases(h.mem, h.ring);
  }

  /** Back at the start, every block has been seen. */
  lemma WholeLap(h: Heap, f: nat, n: nat)
    requires Inv(h) && f < |h.ring| && Small(h, f, f, n) && h.ring[f] < |h.mem| && h.mem[h.ring[f]].size < n
    ensures NoneFits(h, n)
  {
    forall a | a in h.free ensures a < |h.mem| && h.mem[a].size < n {
      var i := IndexOf(h.ring, a);
    }
  }

  // ----- The allocator -----

  /** malloc returns a pointer or null; Overflow is a call of sbrk with the wrong count. */
  datatype Result = Ptr(p: nat) | Null | Overflow

  class Allocator {
    /** All memory the process may ever have, as headers. */
    const mem: array<Header>
    var brk: nat
    var freep: nat

    ghost var ring: seq<nat>
    ghost var free: set<nat>
    ghost var live: set<nat>
    ghost var home: map<nat, nat>

    ghost function H(): Heap
      reads this, mem
    {
      Heap(mem[..], brk, ring, free, live, home)
    }

    ghost predicate Valid()
      reads this, mem
    {
      if freep == 0 then BASE < brk <= mem.Length && live == {} && free == {} && home == map[]
      else Inv(H()) && freep in ring
    }

    ghost method Become(h: Heap)
      modifies this`ring, this`free, this`live, this`home
      ensures ring == h.ring && free == h.free && live == h.live && home == h.home
    {
      ring, free, live, home := h.ring, h.free, h.live, h.home;
    }

    constructor (mem: array<Header>, brk: nat)
      requires BASE < brk <= mem.Length
      ensures Valid() && this.mem == mem && this.brk == brk && freep == 0
    {
      this.mem, this.brk, freep := mem, brk, 0;
      ring, free, live, home := [], {}, {}, map[];
    }

    lemma FindSlot(bp: nat) returns (t: nat)
      requires Inv(H()) && bp in live
      ensures Between(ring, bp, t)
    {
      SizeOfBlock(H(), bp);
      RingIncreases(mem[..], ring);
      t := 0;
      while t + 1 < |ring| && ring[t + 1] <= bp
        invariant t < |ring| && ring[t] < bp
      {
        assert ring[t + 1] in free;
        t := t + 1;
      }
    }

    /** The for loop of free, from the rover to the two list neighbours of bp. */
    method FindPlace(bp: nat) returns (p: nat, ghost k: nat)
      requires Valid() && freep != 0 && bp in live
      ensures Between(ring, bp, k) && 0 < ring[k] == p < mem.Length
    {
      ghost var t := FindSlot(bp);
      RingIncreases(mem[..], ring);
      p := freep;
      k :| 0 <= k < |ring| && ring[k] == p;
      while !(bp > p && bp < mem[p].ptr)
        invariant k < |ring| && ring[k] == p
        decreases if k <= t then t - k else |ring| - k + t
      {
        assert mem[..][ring[k]].ptr == Next(ring, k);
        if p >= mem[p].ptr && (bp > p || bp < mem[p].ptr) {
          break;
        }
        p := mem[p].ptr;
        k := if k + 1 < |ring| then k + 1 else 0;
      }
      assert mem[..][ring[k]].ptr == Next(ring, k);
    }

    /** free(ap): the block in front of ap goes back; the other live blocks stay as they are
        and the units obtained from sbrk stay accounted for. */
    method Free(ap: nat)
      requires Valid() && freep != 0 && ap > 0 && ap - 1 in live
      modifies this`freep, this`ring, this`free, this`live, this`home, mem
      ensures Valid() && freep != 0
      ensures live == old(live) - {ap - 1} && home.Keys == old(home.Keys)
      ensures Spared(old(H()), H(), live)
      ensures ap <= mem.Length && freep < mem.Length
      ensures var n := old(mem[ap - 1].size);
              mem[freep].size >= n || (mem[freep].ptr == ap - 1 && mem[ap - 1].size >= n)
    {
      hide Inv, Freed, Upper, Lower, Members, Tiles;
      var bp := ap - 1;
      ghost var h := H();
      LiveBlock(h, bp);
      var p;
      ghost var k;
      p, k := FindPlace(bp);
      FreedInv(h, bp, k);
      FreedHeaders(h, bp, k);
      FreedFits(h, bp, k);
      ghost var h' := Freed(h, bp, k);
      FreedSpares(h, bp, k);
      CoalesceHeaders(p, bp);
      freep := p;
      Become(h');
      assert H() == h';
    }

    /** The two tests at the end of free. */
    method CoalesceHeaders(p: nat, bp: nat)
      requires p < mem.Length && bp < mem.Length && mem[p].ptr < mem.Length && p != bp
      modifies mem
      ensures mem[..] == Lower(Upper(old(mem[..]), p, bp), p, bp)
    {
      var n := mem[p].ptr;
      if bp + mem[bp].size == n {
        mem[bp] := mem[bp].(size := mem[bp].size + mem[n].size);
        mem[bp] := mem[bp].(ptr := mem[n].ptr);
      } else {
        mem[bp] := mem[bp].(ptr := n);
      }
      if p + mem[p].size == bp {
        mem[p] := mem[p].(size := mem[p].size + mem[bp].size);
        mem[p] := mem[p].(ptr := mem[bp].ptr);
      } else {
        mem[p] := mem[p].(ptr := bp);
      }
    }

    /** sbrk(nu units): the kernel may refuse, and it must when the memory is used up. */
    method Sbrk(nu: nat) returns (p: nat)
      requires brk > 0
      modifies this`brk
      ensures p == 0 ==> brk == old(brk)
      ensures p != 0 ==> p == old(brk) && brk == old(brk) + nu <= mem.Length
    {
      p := 0;
      if brk + nu <= mem.Length {
        if * {
          p := brk;
          brk := brk + nu;
        }
      }
    }

    method Morecore(nunits: nat) returns (p: nat, overflow: bool)
      requires Valid() && freep != 0 && 0 < nunits < UINT / HEADER + 1
      modifies this, mem
      ensures Valid() && freep != 0 && live == old(live)
      ensures Spared(old(H()), H(), live)
      ensures overflow ==> p == 0
      ensures overflow <==> SbrkArgument(AtLeast(nunits)) != AtLeast(nunits) * HEADER
      ensures p == 0 ==> H() == old(H()) && freep == old(freep)
      ensures p != 0 ==> brk == old(brk) + AtLeast(nunits) && home.Keys == old(home.Keys) + Units(old(brk), AtLeast(nunits))
      ensures p != 0 ==> p == freep && Holds(mem[..], freep, nunits)
    {
      hide Inv, Units, SbrkArgument, Spared;
      ghost var h := H();
      SparedIfInv(h);
      var nu := AtLeast(nunits);
      assert nu >= nunits;
      hide AtLeast;
      if SbrkArgument(nu) != nu * HEADER {
        return 0, true;
      }
      overflow := false;
      var hp := NewBlock(nu);
      if hp == 0 {
        return 0, false;
      }
      ghost var h1 := H();
      Free(hp + 1);
      p := freep;
      assert live == h.live;
      SparedTransitive(h, h1, H(), h.live, h.live);
      assert Holds(mem[..], freep, nunits);
    }

    /** The part of morecore before the call of free. */
    method NewBlock(nu: nat) returns (hp: nat)
      requires Valid() && freep != 0 && 0 < nu
      modifies this`brk, this`ring, this`free, this`live, this`home, mem
      ensures Valid()
      ensures hp == 0 ==> H() == old(H())
      ensures hp != 0 ==> hp == old(brk) < mem.Length && hp !in old(live) && live == old(live) + {hp} && mem[hp].size == nu
      ensures hp != 0 ==> brk == hp + nu && home.Keys == old(home.Keys) + Units(hp, nu)
      ensures Spared(old(H()), H(), old(live))
    {
      ghost var h := H();
      hp := Sbrk(nu);
      if hp != 0 {
        mem[hp] := mem[hp].(size := nu);
        GrowInv(h, nu);
        GrowSpares(h, nu);
        ghost var h' := Grow(h, nu);
        Become(h');
        assert H() == h';
      }
    }

    /** The first call makes the list of base alone. */
    method Start()
      requires Valid() && freep == 0
      modifies this`freep, this`ring, this`free, this`live, this`home, mem
      ensures Valid() && freep == BASE && ring == [BASE]
      ensures live == old(live) && free == old(free) && home == old(home)
    {
      mem[BASE] := Header(BASE, 0);
      freep := BASE;
      ring := [BASE];
      assert Linked(mem[..], ring);
    }

    /** A block is found at position k: all of it, or its tail, goes to the program. */
    method Serve(p: nat, prevp: nat, ghost k: nat, nunits: nat) returns (q: nat)
      requires Valid() && freep != 0 && nunits > 0
      requires 0 < k < |ring| && ring[k] == p && ring[k - 1] == prevp && p < mem.Length && mem[p].size >= nunits
      modifies this`freep, this`ring, this`free, this`live, this`home, mem
      ensures Valid() && freep == prevp != 0
      ensures 0 < q <= mem.Length && q - 1 !in old(live) && live == old(live) + {q - 1} && mem[q - 1].size == nunits
      ensures Spared(old(H()), H(), old(live))
      ensures home.Keys == old(home.Keys)
    {
      hide Inv, Served, Spared;
      ghost var h := H();
      ServedInv(h, k, nunits);
      ServedSpares(h, k, nunits);
      ghost var h' := Served(h, k, nunits);
      q := ServeHeaders(p, prevp, nunits, h, k);
      Become(h');
      assert H() == h';
      freep := prevp;
    }

    /** The inner if of malloc. */
    method ServeHeaders(p: nat, prevp: nat, nunits: nat, ghost h: Heap, ghost k: nat) returns (q: nat)
      requires mem[..] == h.mem && 0 < k < |h.ring| && h.ring[k] == p && h.ring[k - 1] == prevp
      requires p < mem.Length && prevp < mem.Length && 0 < nunits <= mem[p].size && p + mem[p].size <= mem.Length
      modifies mem
      ensures mem[..] == Served(h, k, nunits).mem
      ensures q == old(p + mem[p].size) - nunits + 1
    {
      q := p;
      if mem[p].size == nunits {
        mem[prevp] := mem[prevp].(ptr := mem[p].ptr);
      } else {
        mem[p] := mem[p].(size := mem[p].size - nunits);
        q := q + mem[p].size;
        mem[q] := mem[q].(size := nunits);
      }
      q := q + 1;
    }

    /** malloc(nbytes): a block the program did not have, of the size asked for; its other
        blocks stay as they are. One lap of the list, at most one call of morecore, and that
        only when no free block is large enough. */
    method Malloc(nbytes: nat) returns (r: Result)
      requires Valid() && nbytes < UINT
      modifies this, mem
      ensures Valid() && freep != 0
      ensures r.Ptr? ==> 0 < r.p <= mem.Length && r.p - 1 !in old(live) && live == old(live) + {r.p - 1}
      ensures r.Ptr? ==> mem[r.p - 1].size == Nunits(nbytes)
      ensures Spared(old(H()), H(), old(live))
      ensures r.Ptr? && brk == old(brk) ==> home.Keys == old(home.Keys)
      ensures brk != old(brk) ==> r.Ptr? && brk == old(brk) + AtLeast(Nunits(nbytes)) && NoneFits(old(H()), Nunits(nbytes))
      ensures brk != old(brk) ==> home.Keys == old(home.Keys) + Units(old(brk), AtLeast(Nunits(nbytes)))
      ensures !r.Ptr? ==> live == old(live) && free == old(free) && home == old(home) && NoneFits(old(H()), Nunits(nbytes))
      ensures r.Overflow? ==> SbrkArgument(AtLeast(Nunits(nbytes))) != AtLeast(Nunits(nbytes)) * HEADER
      ensures r.Null? ==> SbrkArgument(AtLeast(Nunits(nbytes))) == AtLeast(Nunits(nbytes)) * HEADER
    {
      if freep == 0 {
        Start();
      }
      r := Search(Nunits(nbytes));
    }

    /** The rest of malloc, with base on the list. */
    method Search(nunits: nat) returns (r: Result)
      requires Valid() && freep != 0 && 0 < nunits < UINT / HEADER + 1
      modifies this, mem
      ensures Valid() && freep != 0
      ensures r.Ptr? ==> 0 < r.p <= mem.Length && r.p - 1 !in old(live) && live == old(live) + {r.p - 1}
      ensures r.Ptr? ==> mem[r.p - 1].size == nunits
      ensures Spared(old(H()), H(), old(live))
      ensures r.Ptr? && brk == old(brk) ==> home.Keys == old(home.Keys)
      ensures brk != old(brk) ==> r.Ptr? && brk == old(brk) + AtLeast(nunits) && NoneFits(old(H()), nunits)
      ensures brk != old(brk) ==> home.Keys == old(home.Keys) + Units(old(brk), AtLeast(nunits))
      ensures !r.Ptr? ==> live == old(live) && free == old(free) && home == old(home) && NoneFits(old(H()), nunits)
      ensures r.Overflow? ==> SbrkArgument(AtLeast(nunits)) != AtLeast(nunits) * HEADER
      ensures r.Null? ==> SbrkArgument(AtLeast(nunits)) == AtLeast(nunits) * HEADER
    {
      hide Inv, Units, SbrkArgument, AtLeast, Spared, NoneFits, Small;
      var prevp := freep;
      ghost var h := H();
      SparedIfInv(h);
      ghost var f: nat := IndexOf(ring, freep);
      ghost var k: nat := Follow(h, f);
      SmallStep(h, f, f, k, nunits);
      var p := mem[prevp].ptr;
      ghost var grown := false;
      while true
        invariant Valid() && freep != 0 && f < |ring| && ring[f] == freep
        invariant k < |ring| && ring[k] == p < mem.Length && prevp == ring[Before(|ring|, k)]
        invariant live == h.live && Spared(h, H(), live)
        invariant !grown ==> H() == h && Small(h, f, k, nunits)
        invariant grown ==> brk == h.brk + AtLeast(nunits) && home.Keys == h.home.Keys + Units(h.brk, AtLeast(nunits))
        invariant grown ==> NoneFits(h, nunits)
        invariant grown ==> freep < mem.Length && (mem[freep].size >= nunits || (p == mem[freep].ptr && mem[p].size >= nunits))
        decreases if grown then 0 else 1, if k <= f then f - k else |ring| - k + f
      {
        ghost var now := H();
        if mem[p].size >= nunits {
          BaseIsEmpty(H(), k);
          var q := Serve(p, prevp, k, nunits);
          SparedTransitive(h, now, H(), h.live, h.live);
          return Ptr(q);
        }
        if p == freep {
          SameIndex(H(), k, f);
          if !grown {
            WholeLap(h, f, nunits);
          }
          var overflow;
          p, overflow := Morecore(nunits);
          if p == 0 {
            return if overflow then Overflow else Null;
          }
          SparedTransitive(h, now, H(), h.live, h.live);
          grown := true;
          f := IndexOf(ring, freep);
          k := f;
        }
        prevp := p;
        p := mem[p].ptr;
        ghost var j := Follow(H(), k);
        if !grown {
          SmallStep(h, f, k, j, nunits);
        }
        k := j;
      }
    }
  }
}
