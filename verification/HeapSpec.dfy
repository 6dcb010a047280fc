/** The heap of umalloc.c: what the free list and the blocks look like between calls, and
    what its pieces do to them.

    Addresses count units of sizeof(Header); 0 is the null pointer, `base` lies below the
    heap that sbrk hands out. */
module HeapSpec {

  /** union header */
  datatype Header = Header(ptr: nat, size: nat)

  const BASE: nat := 1

  /** `ring` is the free list in address order from base on and `free` its blocks; `live`
      are the blocks in the program's hands; `home` says for every unit obtained from sbrk
      which block it belongs to. */
  datatype Heap = Heap(mem: seq<Header>, brk: nat, ring: seq<nat>, free: set<nat>, live: set<nat>, home: map<nat, nat>)

  function Next(ring: seq<nat>, i: nat): nat
    requires i < |ring|
  {
    if i + 1 < |ring| then ring[i + 1] else ring[0]
  }

  function End(m: seq<Header>, a: nat): nat
    requires a < |m|
  {
    a + m[a].size
  }

  /** One circle through all free blocks, starting at base. */
  ghost predicate Linked(m: seq<Header>, ring: seq<nat>) {
    && |ring| > 0 && ring[0] == BASE
    && (forall i :: 0 <= i < |ring| ==> ring[i] < |m|)
    && (forall i {:trigger Next(ring, i)} :: 0 <= i < |ring| ==> m[ring[i]].ptr == Next(ring, i))
  }

  /** In address order, hence with a single wrap point, and without overlap. */
  ghost predicate Ordered(m: seq<Header>, ring: seq<nat>)
    requires Linked(m, ring)
  {
    && m[BASE].size == 0
    && (forall i :: 1 <= i < |ring| ==> BASE < ring[i] && m[ring[i]].size >= 1)
    && (forall i, j :: 0 <= i < j < |ring| ==> End(m, ring[i]) <= ring[j])
  }

  /** No free block ends where the next one begins, except perhaps at the positions in `ex`. */
  ghost predicate Coalesced(m: seq<Header>, ring: seq<nat>, ex: set<int>)
    requires Linked(m, ring)
  {
    forall i, j :: 0 <= i < j < |ring| && j == i + 1 && i !in ex ==> End(m, ring[i]) != ring[j]
  }

  ghost predicate Members(ring: seq<nat>, free: set<nat>) {
    && (forall i :: 1 <= i < |ring| ==> ring[i] in free)
    && (forall a :: a in free ==> a in ring && a != BASE)
  }

  /** The blocks partition the units obtained. */
  ghost predicate Tiles(m: seq<Header>, brk: nat, blocks: set<nat>, home: map<nat, nat>) {
    && (forall a :: a in blocks ==> BASE < a < |m| && m[a].size >= 1)
    && InBlocks(m, brk, blocks, home) && AtHome(m, blocks, home)
  }

  ghost predicate InBlocks(m: seq<Header>, brk: nat, blocks: set<nat>, home: map<nat, nat>) {
    forall u :: u in home ==> home[u] in blocks && home[u] < |m| && home[u] <= u < End(m, home[u]) <= brk
  }

  ghost predicate AtHome(m: seq<Header>, blocks: set<nat>, home: map<nat, nat>) {
    forall a: nat, u: nat :: a in blocks && a <= u && a < |m| && u < End(m, a) ==> u in home && home[u] == a
  }

  ghost predicate Sound(h: Heap) {
    && BASE < h.brk <= |h.mem|
    && Linked(h.mem, h.ring) && Ordered(h.mem, h.ring)
    && Members(h.ring, h.free) && h.live !! h.free
    && Tiles(h.mem, h.brk, h.live + h.free, h.home)
  }

  ghost predicate Inv(h: Heap) {
    Sound(h) && Coalesced(h.mem, h.ring, {})
  }

  // ----- What the invariant says about blocks -----

  lemma SizeOfBlock(h: Heap, a: nat)
    requires Sound(h) && a in h.live + h.free
    ensures a < |h.mem| && h.mem[a].size >= 1 && BASE < a && End(h.mem, a) <= h.brk
    ensures a in h.home && h.home[a] == a
  {
    assert h.home[a] == a;
  }

  /** Any two blocks, free or live, are disjoint. */
  lemma BlocksDisjoint(h: Heap, a: nat, b: nat)
    requires Sound(h) && a in h.live + h.free && b in h.live + h.free && a < b
    ensures b < |h.mem| && a < |h.mem| && End(h.mem, a) <= b && End(h.mem, b) <= h.brk
  {
    SizeOfBlock(h, a);
    SizeOfBlock(h, b);
    assert h.home[b] != a;
  }

  lemma RingIncreases(m: seq<Header>, ring: seq<nat>)
    requires Linked(m, ring) && Ordered(m, ring)
    ensures forall i, j :: 0 <= i < j < |ring| ==> ring[i] < ring[j]
  {
    forall i, j | 0 <= i < j < |ring| ensures ring[i] < ring[j] {
      assert End(m, ring[i]) <= ring[j];
    }
  }

  // ----- free: insert, then coalesce upwards and downwards -----

  function InsertAt(ring: seq<nat>, k: nat, bp: nat): seq<nat>
    requires k < |ring|
  {
    ring[..k + 1] + [bp] + ring[k + 1..]
  }

  function RemoveAt(ring: seq<nat>, k: nat): seq<nat>
    requires k < |ring|
  {
    ring[..k] + ring[k + 1..]
  }

  lemma InsertAtIndex(ring: seq<nat>, k: nat, bp: nat)
    requires k < |ring|
    ensures |InsertAt(ring, k, bp)| == |ring| + 1
    ensures forall i :: 0 <= i < |ring| + 1 ==>
              InsertAt(ring, k, bp)[i] == if i <= k then ring[i] else if i == k + 1 then bp else ring[i - 1]
  {
  }

  lemma RemoveAtIndex(ring: seq<nat>, k: nat)
    requires k < |ring|
    ensures |RemoveAt(ring, k)| == |ring| - 1
    ensures forall i :: 0 <= i < |ring| - 1 ==> RemoveAt(ring, k)[i] == if i < k then ring[i] else ring[i + 1]
  {
  }

  /** The live block bp joins the list after position k. */
  function Insert(h: Heap, bp: nat, k: nat): Heap
    requires k < |h.ring| && h.ring[k] < |h.mem| && bp < |h.mem|
  {
    var m := h.mem[bp := h.mem[bp].(ptr := Next(h.ring, k))];
    h.(mem := m[h.ring[k] := m[h.ring[k]].(ptr := bp)],
       ring := InsertAt(h.ring, k, bp),
       free := h.free + {bp}, live := h.live - {bp})
  }

  /** bp belongs between position k and the next. */
  ghost predicate Between(ring: seq<nat>, bp: nat, k: nat) {
    k < |ring| && ring[k] < bp && (k + 1 < |ring| ==> bp < ring[k + 1])
  }

  lemma InsertLinked(h: Heap, bp: nat, k: nat)
    requires Linked(h.mem, h.ring) && Between(h.ring, bp, k) && bp < |h.mem|
    requires forall i, j :: 0 <= i < j < |h.ring| ==> h.ring[i] < h.ring[j]
    ensures Linked(Insert(h, bp, k).mem, Insert(h, bp, k).ring)
    ensures |Insert(h, bp, k).mem| == |h.mem|
    ensures forall a :: 0 <= a < |h.mem| ==> Insert(h, bp, k).mem[a].size == h.mem[a].size
  {
    InsertAtIndex(h.ring, k, bp);
    var h' := Insert(h, bp, k);
    hide InsertAt;
    assert forall i :: 0 <= i < |h'.ring| ==> h'.ring[i] < |h'.mem|;
    hide Insert;
    forall i {:trigger Next(h'.ring, i)} | 0 <= i < |h'.ring| ensures h'.mem[h'.ring[i]].ptr == Next(h'.ring, i) {
      LinkAfterInsert(h, bp, k, i);
    }
  }

  lemma LinkAfterInsert(h: Heap, bp: nat, k: nat, i: nat)
    requires Linked(h.mem, h.ring) && Between(h.ring, bp, k) && bp < |h.mem| && i < |h.ring| + 1
    requires forall i, j :: 0 <= i < j < |h.ring| ==> h.ring[i] < h.ring[j]
    ensures var h' := Insert(h, bp, k);
            i < |h'.ring| && h'.ring[i] < |h'.mem| && h'.mem[h'.ring[i]].ptr == Next(h'.ring, i)
  {
    InsertAtIndex(h.ring, k, bp);
    var h' := Insert(h, bp, k);
    hide InsertAt;
    if i != k && i != k + 1 {
      var o := if i < k then i else i - 1;
      assert h'.ring[i] == h.ring[o] && h.ring[o] != h.ring[k] && h.ring[o] != bp;
      assert Next(h'.ring, i) == Next(h.ring, o) == h.mem[h.ring[o]].ptr;
    }
  }

  /** Where the live block stands among the free ones. */
  lemma AroundBlock(h: Heap, bp: nat, k: nat)
    requires Sound(h) && bp in h.live && Between(h.ring, bp, k)
    ensures bp < |h.mem| && h.mem[bp].size >= 1
    ensures forall i :: 0 <= i < |h.ring| ==>
              if i <= k then End(h.mem, h.ring[i]) <= bp else End(h.mem, bp) <= h.ring[i]
  {
    SizeOfBlock(h, bp);
    RingIncreases(h.mem, h.ring);
    hide Tiles;
    forall i | 0 <= i < |h.ring|
      ensures if i <= k then End(h.mem, h.ring[i]) <= bp else End(h.mem, bp) <= h.ring[i]
    {
      if 0 < i <= k {
        assert h.ring[i] <= h.ring[k];
        BlocksDisjoint(h, h.ring[i], bp);
      } else if i > k {
        assert h.ring[k + 1] <= h.ring[i];
        BlocksDisjoint(h, bp, h.ring[i]);
      }
    }
  }

  /** Ends and starts of the list's blocks before and after bp joins. */
  lemma InsertEnds(h: Heap, bp: nat, k: nat, i: nat)
    requires Linked(h.mem, h.ring) && k < |h.ring| && bp < |h.mem| && i < |h.ring| + 1
    ensures var h' := Insert(h, bp, k);
            var a := if i <= k then h.ring[i] else if i == k + 1 then bp else h.ring[i - 1];
            && |h'.ring| == |h.ring| + 1 && |h'.mem| == |h.mem| && h'.ring[i] == a < |h.mem|
            && h'.mem[a].size == h.mem[a].size && End(h'.mem, a) == End(h.mem, a)
  {
  }

  lemma InsertPair(h: Heap, bp: nat, k: nat, i: nat, j: nat)
    requires Linked(h.mem, h.ring) && Ordered(h.mem, h.ring) && k < |h.ring| && bp < |h.mem|
    requires i < j < |h.ring| + 1
    requires forall x :: 0 <= x < |h.ring| ==>
               if x <= k then End(h.mem, h.ring[x]) <= bp else End(h.mem, bp) <= h.ring[x]
    ensures var h' := Insert(h, bp, k);
            |h'.ring| == |h.ring| + 1 && h'.ring[i] < |h'.mem| && End(h'.mem, h'.ring[i]) <= h'.ring[j]
  {
    InsertEnds(h, bp, k, i);
    InsertEnds(h, bp, k, j);
    hide Insert, Linked, End;
  }

  lemma InsertOrdered(h: Heap, bp: nat, k: nat)
    requires Sound(h) && bp in h.live && Between(h.ring, bp, k) && bp < |h.mem|
    requires Linked(Insert(h, bp, k).mem, Insert(h, bp, k).ring)
    ensures Ordered(Insert(h, bp, k).mem, Insert(h, bp, k).ring)
  {
    AroundBlock(h, bp, k);
    SizeOfBlock(h, bp);
    var h' := Insert(h, bp, k);
    InsertEnds(h, bp, k, 0);
    forall i | 1 <= i < |h'.ring| ensures BASE < h'.ring[i] && h'.mem[h'.ring[i]].size >= 1 {
      InsertEnds(h, bp, k, i);
    }
    hide Insert, Linked, Tiles, Members, Between, End;
    forall i, j | 0 <= i < j < |h'.ring| ensures End(h'.mem, h'.ring[i]) <= h'.ring[j] {
      InsertPair(h, bp, k, i, j);
    }
  }

  lemma InsertCoalesced(h: Heap, bp: nat, k: nat)
    requires Linked(h.mem, h.ring) && Coalesced(h.mem, h.ring, {}) && k < |h.ring| && bp < |h.mem|
    requires Linked(Insert(h, bp, k).mem, Insert(h, bp, k).ring)
    ensures Coalesced(Insert(h, bp, k).mem, Insert(h, bp, k).ring, {k, k + 1})
  {
    var h' := Insert(h, bp, k);
    hide Insert, Linked;
    InsertEnds(h, bp, k, 0);
    forall i, j | 0 <= i < j < |h'.ring| && j == i + 1 && i !in {k, k + 1}
      ensures End(h'.mem, h'.ring[i]) != h'.ring[j]
    {
      InsertEnds(h, bp, k, i);
      InsertEnds(h, bp, k, j);
    }
  }

  lemma InsertMembers(h: Heap, bp: nat, k: nat)
    requires Members(h.ring, h.free) && k < |h.ring| && h.ring[k] < |h.mem| && BASE < bp < |h.mem|
    ensures Members(Insert(h, bp, k).ring, Insert(h, bp, k).free)
  {
    InsertAtIndex(h.ring, k, bp);
    var r := InsertAt(h.ring, k, bp);
    hide InsertAt;
    forall a | a in h.free + {bp} ensures a in r && a != BASE {
      InsertMember(h.ring, bp, k, a);
    }
  }

  lemma SameSizesTile(m: seq<Header>, m': seq<Header>, brk: nat, blocks: set<nat>, home: map<nat, nat>)
    requires Tiles(m, brk, blocks, home) && |m'| == |m|
    requires forall a :: 0 <= a < |m| ==> m'[a].size == m[a].size
    ensures Tiles(m', brk, blocks, home)
  {
    assert forall a :: 0 <= a < |m| ==> End(m', a) == End(m, a);
    hide End;
  }

  lemma InsertSound(h: Heap, bp: nat, k: nat)
    requires Inv(h) && bp in h.live && Between(h.ring, bp, k)
    ensures bp < |h.mem| && Sound(Insert(h, bp, k))
    ensures Coalesced(Insert(h, bp, k).mem, Insert(h, bp, k).ring, {k, k + 1})
  {
    hide Linked, Ordered, Coalesced, Members, Tiles;
    RingIncreases(h.mem, h.ring);
    RingInside(h.mem, h.ring);
    SizeOfBlock(h, bp);
    InsertLinked(h, bp, k);
    InsertOrdered(h, bp, k);
    InsertCoalesced(h, bp, k);
    InsertMembers(h, bp, k);
    var h' := Insert(h, bp, k);
    assert h'.live + h'.free == h.live + h.free;
    SameSizesTile(h.mem, h'.mem, h.brk, h.live + h.free, h.home);
  }

  lemma RingInside(m: seq<Header>, ring: seq<nat>)
    requires Linked(m, ring)
    ensures forall i :: 0 <= i < |ring| ==> ring[i] < |m|
  {
  }

  lemma InsertMember(ring: seq<nat>, bp: nat, k: nat, a: nat)
    requires k < |ring| && (a in ring || a == bp)
    ensures a in InsertAt(ring, k, bp)
  {
    assert ring == ring[..k + 1] + ring[k + 1..];
  }

  // ----- Coalescing -----

  /** Position i swallows position i + 1. */
  ghost function Merge(h: Heap, i: nat): Heap
    requires i + 1 < |h.ring| && h.ring[i] < |h.mem| && h.ring[i + 1] < |h.mem|
  {
    var a, b := h.ring[i], h.ring[i + 1];
    h.(mem := h.mem[a := Header(h.mem[b].ptr, h.mem[a].size + h.mem[b].size)],
       ring := RemoveAt(h.ring, i + 1),
       free := h.free - {b},
       home := Rehome(h.home, b, a))
  }

  ghost predicate Touching(h: Heap, i: nat) {
    && i + 1 < |h.ring| && h.ring[i] < |h.mem| && h.ring[i + 1] < |h.mem|
    && End(h.mem, h.ring[i]) == h.ring[i + 1]
  }

  lemma MergeEnds(h: Heap, i: nat, j: nat)
    requires Linked(h.mem, h.ring) && Touching(h, i) && j < |h.ring| - 1
    requires forall x, y :: 0 <= x < y < |h.ring| ==> h.ring[x] < h.ring[y]
    ensures var h' := Merge(h, i);
            var o := if j <= i then j else j + 1;
            && |h'.ring| == |h.ring| - 1 && |h'.mem| == |h.mem| && h'.ring[j] == h.ring[o] < |h.mem|
            && h'.mem[h.ring[o]].size >= h.mem[h.ring[o]].size
            && h'.mem[h.ring[o]].ptr == h.mem[if j == i then h.ring[i + 1] else h.ring[o]].ptr
            && (j != i ==> h'.mem[h.ring[o]].size == h.mem[h.ring[o]].size)
            && End(h'.mem, h.ring[o]) == End(h.mem, if j == i then h.ring[i + 1] else h.ring[o])
  {
    RemoveAtIndex(h.ring, i + 1);
  }

  lemma MergeLinked(h: Heap, i: nat)
    requires Linked(h.mem, h.ring) && Touching(h, i)
    requires forall x, y :: 0 <= x < y < |h.ring| ==> h.ring[x] < h.ring[y]
    ensures Linked(Merge(h, i).mem, Merge(h, i).ring)
  {
    var h' := Merge(h, i);
    MergeEnds(h, i, 0);
    RemoveAtIndex(h.ring, i + 1);
    hide Merge;
    forall j | 0 <= j < |h'.ring| ensures h'.ring[j] < |h'.mem| {
      MergeEnds(h, i, j);
    }
    forall j {:trigger Next(h'.ring, j)} | 0 <= j < |h'.ring| ensures h'.mem[h'.ring[j]].ptr == Next(h'.ring, j) {
      MergeEnds(h, i, j);
      var o := if j < i then j else j + 1;
      assert h.mem[h.ring[o]].ptr == Next(h.ring, o);
      if j + 1 < |h'.ring| {
        MergeEnds(h, i, j + 1);
      }
    }
  }

  lemma MergePair(h: Heap, i: nat, j: nat, l: nat)
    requires Linked(h.mem, h.ring) && Ordered(h.mem, h.ring) && Touching(h, i) && j < l < |h.ring| - 1
    requires forall x, y :: 0 <= x < y < |h.ring| ==> h.ring[x] < h.ring[y]
    ensures var h' := Merge(h, i);
            |h'.ring| == |h.ring| - 1 && h'.ring[j] < |h'.mem| && End(h'.mem, h'.ring[j]) <= h'.ring[l]
  {
    MergeEnds(h, i, j);
    MergeEnds(h, i, l);
    hide Merge, Linked, End;
  }

  lemma MergeOrdered(h: Heap, i: nat)
    requires Linked(h.mem, h.ring) && Ordered(h.mem, h.ring) && 0 < i && Touching(h, i)
    requires forall x, y :: 0 <= x < y < |h.ring| ==> h.ring[x] < h.ring[y]
    requires Linked(Merge(h, i).mem, Merge(h, i).ring)
    ensures Ordered(Merge(h, i).mem, Merge(h, i).ring)
  {
    var h' := Merge(h, i);
    MergeEnds(h, i, 0);
    hide Merge, Linked, End;
    forall j | 1 <= j < |h'.ring| ensures BASE < h'.ring[j] && h'.mem[h'.ring[j]].size >= 1 {
      MergeEnds(h, i, j);
    }
    forall j, l | 0 <= j < l < |h'.ring| ensures End(h'.mem, h'.ring[j]) <= h'.ring[l] {
      MergePair(h, i, j, l);
    }
  }

  lemma MergeCoalesced(h: Heap, i: nat, ex: set<int>)
    requires Linked(h.mem, h.ring) && Touching(h, i) && Coalesced(h.mem, h.ring, ex) && ex <= {i - 1, i}
    requires forall x, y :: 0 <= x < y < |h.ring| ==> h.ring[x] < h.ring[y]
    requires Linked(Merge(h, i).mem, Merge(h, i).ring)
    ensures Coalesced(Merge(h, i).mem, Merge(h, i).ring, ex - {i})
  {
    var h' := Merge(h, i);
    MergeEnds(h, i, 0);
    hide Merge, Linked, End;
    forall j, l | 0 <= j < l < |h'.ring| && l == j + 1 && j !in ex - {i}
      ensures End(h'.mem, h'.ring[j]) != h'.ring[l]
    {
      MergeEnds(h, i, j);
      MergeEnds(h, i, l);
      var o := if j < i then j else j + 1;
      assert o !in ex;
    }
  }

  /** Taking position k off the list takes exactly that block out of `free`. */
  lemma RemovedMembers(ring: seq<nat>, free: set<nat>, k: nat)
    requires Members(ring, free) && 0 < k < |ring|
    requires forall x, y :: 0 <= x < y < |ring| ==> ring[x] < ring[y]
    ensures ring[k] in free && Members(RemoveAt(ring, k), free - {ring[k]})
  {
    RemoveAtIndex(ring, k);
    var cut := RemoveAt(ring, k);
    hide RemoveAt;
    forall a | a in free - {ring[k]} ensures a in cut && a != BASE {
      assert a in ring;
      var j :| 0 <= j < |ring| && ring[j] == a;
      assert cut[if j < k then j else j - 1] == a;
    }
  }

  function Rehome(home: map<nat, nat>, b: nat, a: nat): map<nat, nat> {
    map u | u in home :: if home[u] == b then a else home[u]
  }

  lemma RehomeAt(home: map<nat, nat>, b: nat, a: nat)
    ensures forall u :: u in Rehome(home, b, a) <==> u in home
    ensures forall u :: u in home ==> Rehome(home, b, a)[u] == if home[u] == b then a else home[u]
  {
  }

  lemma MergeInBlocks(m: seq<Header>, brk: nat, blocks: set<nat>, home: map<nat, nat>, a: nat, b: nat, m': seq<Header>)
    requires InBlocks(m, brk, blocks, home) && a in blocks && a != b && b in home && home[b] == b
    requires a < |m| == |m'| && b < |m| && End(m, a) == b && a < b
    requires End(m', a) == End(m, b) && forall x :: 0 <= x < |m| && x != a ==> End(m', x) == End(m, x)
    ensures InBlocks(m', brk, blocks - {b}, Rehome(home, b, a))
  {
    hide End;
  }

  lemma MergeAtHome(m: seq<Header>, blocks: set<nat>, home: map<nat, nat>, a: nat, b: nat, m': seq<Header>)
    requires AtHome(m, blocks, home) && a in blocks && b in blocks && a != b
    requires a < |m| == |m'| && b < |m| && End(m, a) == b
    requires End(m', a) == End(m, b) && forall x :: 0 <= x < |m| && x != a ==> End(m', x) == End(m, x)
    ensures AtHome(m', blocks - {b}, Rehome(home, b, a))
  {
    RehomeAt(home, b, a);
    hide Rehome, End;
    forall x: nat, u: nat | x in blocks - {b} && x <= u && x < |m'| && u < End(m', x)
      ensures u in Rehome(home, b, a) && Rehome(home, b, a)[u] == x
    {
      var owner := if x == a && u >= b then b else x;
      assert owner in blocks && owner <= u < End(m, owner);
      assert u in home && home[u] == owner;
    }
  }

  lemma MergeTiles(m: seq<Header>, brk: nat, blocks: set<nat>, home: map<nat, nat>, a: nat, b: nat, m': seq<Header>)
    requires Tiles(m, brk, blocks, home) && a in blocks && b in blocks && a != b
    requires a < |m| == |m'| && b < |m| && End(m, a) == b
    requires End(m', a) == End(m, b) && forall x :: 0 <= x < |m| && x != a ==> m'[x].size == m[x].size
    ensures Tiles(m', brk, blocks - {b}, Rehome(home, b, a))
  {
    assert forall x :: 0 <= x < |m| && x != a ==> End(m', x) == End(m, x);
    assert m'[a].size >= 1 && b in home && home[b] == b;
    hide InBlocks, AtHome, Rehome;
    MergeInBlocks(m, brk, blocks, home, a, b, m');
    MergeAtHome(m, blocks, home, a, b, m');
  }

  /** The two tests at the end of free. */
  ghost function MergeIf(h: Heap, i: nat): Heap {
    if Touching(h, i) then Merge(h, i) else h
  }

  lemma MergeSound(h: Heap, i: nat, ex: set<int>)
    requires Sound(h) && Touching(h, i) && Coalesced(h.mem, h.ring, ex) && ex <= {i - 1, i}
    ensures 0 < i && Sound(Merge(h, i)) && Coalesced(Merge(h, i).mem, Merge(h, i).ring, ex - {i})
  {
    RingIncreases(h.mem, h.ring);
    var a, b := h.ring[i], h.ring[i + 1];
    var h' := Merge(h, i);
    assert 0 < i && a in h.free && b in h.free && a != b;
    hide Tiles;
    assert Linked(h'.mem, h'.ring) by { MergeLinked(h, i); }
    assert Ordered(h'.mem, h'.ring) by { MergeOrdered(h, i); }
    assert Coalesced(h'.mem, h'.ring, ex - {i}) by { MergeCoalesced(h, i, ex); }
    assert Members(h'.ring, h'.free) by { RemovedMembers(h.ring, h.free, i + 1); }
    hide Linked, Ordered, Coalesced, Members, Rehome;
    MergeTiles(h.mem, h.brk, h.live + h.free, h.home, a, b, h'.mem);
    assert h'.live + h'.free == h.live + h.free - {b};
  }

  lemma MergeIfSound(h: Heap, i: nat, ex: set<int>)
    requires Sound(h) && i < |h.ring| && Coalesced(h.mem, h.ring, ex) && ex <= {i - 1, i}
    ensures Sound(MergeIf(h, i)) && Coalesced(MergeIf(h, i).mem, MergeIf(h, i).ring, ex - {i})
    ensures MergeIf(h, i).live == h.live && MergeIf(h, i).brk == h.brk && MergeIf(h, i).home.Keys == h.home.Keys
  {
    if Touching(h, i) {
      MergeSound(h, i, ex);
      hide Sound, Coalesced;
    }
  }

  // ----- malloc: take a whole block, or the tail of one; and sbrk -----

  /** The block at position k leaves the list. */
  function Take(h: Heap, k: nat): Heap
    requires 0 < k < |h.ring| && h.ring[k] < |h.mem| && h.ring[k - 1] < |h.mem|
  {
    var p, prev := h.ring[k], h.ring[k - 1];
    h.(mem := h.mem[prev := h.mem[prev].(ptr := h.mem[p].ptr)],
       ring := RemoveAt(h.ring, k),
       free := h.free - {p}, live := h.live + {p})
  }

  lemma TakeEnds(h: Heap, k: nat, j: nat)
    requires Linked(h.mem, h.ring) && 0 < k < |h.ring| && j < |h.ring| - 1
    requires forall x, y :: 0 <= x < y < |h.ring| ==> h.ring[x] < h.ring[y]
    ensures var h' := Take(h, k);
            var o := if j < k then j else j + 1;
            && |h'.ring| == |h.ring| - 1 && |h'.mem| == |h.mem| && h'.ring[j] == h.ring[o] < |h.mem|
            && h'.mem[h.ring[o]].size == h.mem[h.ring[o]].size
            && h'.mem[h.ring[o]].ptr == h.mem[if j == k - 1 then h.ring[k] else h.ring[o]].ptr
            && End(h'.mem, h.ring[o]) == End(h.mem, h.ring[o])
  {
    RemoveAtIndex(h.ring, k);
  }

  lemma TakeLinked(h: Heap, k: nat)
    requires Linked(h.mem, h.ring) && 0 < k < |h.ring|
    requires forall x, y :: 0 <= x < y < |h.ring| ==> h.ring[x] < h.ring[y]
    ensures Linked(Take(h, k).mem, Take(h, k).ring)
  {
    var h' := Take(h, k);
    TakeEnds(h, k, 0);
    hide Take;
    forall j | 0 <= j < |h'.ring| ensures h'.ring[j] < |h'.mem| {
      TakeEnds(h, k, j);
    }
    forall j {:trigger Next(h'.ring, j)} | 0 <= j < |h'.ring| ensures h'.mem[h'.ring[j]].ptr == Next(h'.ring, j) {
      TakeEnds(h, k, j);
      var o := if j < k - 1 then j else j + 1;
      assert h.mem[h.ring[o]].ptr == Next(h.ring, o);
      if j + 1 < |h'.ring| {
        TakeEnds(h, k, j + 1);
      }
    }
  }

  lemma TakePair(h: Heap, k: nat, j: nat, l: nat)
    requires Linked(h.mem, h.ring) && Ordered(h.mem, h.ring) && 0 < k < |h.ring| && j < l < |h.ring| - 1
    requires forall x, y :: 0 <= x < y < |h.ring| ==> h.ring[x] < h.ring[y]
    ensures var h' := Take(h, k);
            && |h'.ring| == |h.ring| - 1 && h'.ring[j] < |h'.mem| && h'.ring[l] < |h'.mem|
            && End(h'.mem, h'.ring[j]) <= h'.ring[l]
            && BASE < h'.ring[l] && h'.mem[h'.ring[l]].size >= 1
            && (Coalesced(h.mem, h.ring, {}) ==> End(h'.mem, h'.ring[j]) != h'.ring[l])
  {
    TakeEnds(h, k, j);
    TakeEnds(h, k, l);
    var x, y := if j < k then j else j + 1, if l < k then l else l + 1;
    hide Take, Linked, End;
    if Coalesced(h.mem, h.ring, {}) {
      assert End(h.mem, h.ring[x]) <= h.ring[x + 1] <= h.ring[y];
    }
  }

  lemma TakeOrdered(h: Heap, k: nat)
    requires Linked(h.mem, h.ring) && Ordered(h.mem, h.ring) && Coalesced(h.mem, h.ring, {}) && 0 < k < |h.ring|
    requires forall x, y :: 0 <= x < y < |h.ring| ==> h.ring[x] < h.ring[y]
    requires Linked(Take(h, k).mem, Take(h, k).ring)
    ensures Ordered(Take(h, k).mem, Take(h, k).ring) && Coalesced(Take(h, k).mem, Take(h, k).ring, {})
  {
    var h' := Take(h, k);
    TakeEnds(h, k, 0);
    assert h'.mem[BASE].size == 0;
    hide Take, Linked, End;
    forall j, l | 0 <= j < l < |h'.ring|
      ensures End(h'.mem, h'.ring[j]) <= h'.ring[l] && End(h'.mem, h'.ring[j]) != h'.ring[l]
      ensures BASE < h'.ring[l] && h'.mem[h'.ring[l]].size >= 1
    {
      TakePair(h, k, j, l);
    }
    forall l | 1 <= l < |h'.ring| ensures BASE < h'.ring[l] && h'.mem[h'.ring[l]].size >= 1 {
      TakePair(h, k, 0, l);
    }
  }

  lemma TakeInv(h: Heap, k: nat)
    requires Inv(h) && 0 < k < |h.ring|
    ensures h.ring[k] < |h.mem| && h.ring[k - 1] < |h.mem| && Inv(Take(h, k))
    ensures h.ring[k] !in h.live && h.ring[k] in h.free
  {
    RingIncreases(h.mem, h.ring);
    var h' := Take(h, k);
    hide Tiles;
    assert Linked(h'.mem, h'.ring) by { TakeLinked(h, k); }
    assert Ordered(h'.mem, h'.ring) && Coalesced(h'.mem, h'.ring, {}) by { TakeOrdered(h, k); }
    assert Members(h'.ring, h'.free) && h.ring[k] in h.free by { RemovedMembers(h.ring, h.free, k); }
    hide Linked, Ordered, Coalesced, Members;
    SameSizesTile(h.mem, h'.mem, h.brk, h.live + h.free, h.home);
    assert h'.live + h'.free == h.live + h.free;
  }

  /** The units of block p from q on move to a block of their own. */
  function Carve(home: map<nat, nat>, p: nat, q: nat): map<nat, nat> {
    map u | u in home :: if home[u] == p && u >= q then q else home[u]
  }

  /** The last n units of free block p become a block of their own. */
  function Split(h: Heap, p: nat, n: nat): Heap
    requires p < |h.mem| && n < h.mem[p].size && End(h.mem, p) - n < |h.mem|
  {
    var q := End(h.mem, p) - n;
    var m := h.mem[p := h.mem[p].(size := h.mem[p].size - n)];
    h.(mem := m[q := m[q].(size := n)], live := h.live + {q}, home := Carve(h.home, p, q))
  }

  lemma CarveAt(home: map<nat, nat>, p: nat, q: nat)
    ensures forall u :: u in Carve(home, p, q) <==> u in home
    ensures forall u :: u in home ==> Carve(home, p, q)[u] == if home[u] == p && u >= q then q else home[u]
  {
  }

  lemma CarveInBlocks(m: seq<Header>, brk: nat, blocks: set<nat>, home: map<nat, nat>, p: nat, q: nat, m': seq<Header>)
    requires InBlocks(m, brk, blocks, home) && p < |m| == |m'| && p < q < |m|
    requires End(m', p) == q && End(m', q) == End(m, p)
    requires forall x :: 0 <= x < |m| && x != p && x != q ==> End(m', x) == End(m, x)
    requires q !in blocks && q < End(m, p)
    ensures InBlocks(m', brk, blocks + {q}, Carve(home, p, q))
  {
    hide End;
  }

  lemma CarveAtHome(m: seq<Header>, blocks: set<nat>, home: map<nat, nat>, p: nat, q: nat, m': seq<Header>)
    requires AtHome(m, blocks, home) && p in blocks && q !in blocks && p < |m| == |m'| && p < q < |m| && q < End(m, p)
    requires End(m', p) == q && End(m', q) == End(m, p)
    requires forall x :: 0 <= x < |m| && x != p && x != q ==> End(m', x) == End(m, x)
    ensures AtHome(m', blocks + {q}, Carve(home, p, q))
  {
    CarveAt(home, p, q);
    hide Carve, End;
    forall x: nat, u: nat | x in blocks + {q} && x <= u && x < |m'| && u < End(m', x)
      ensures u in Carve(home, p, q) && Carve(home, p, q)[u] == x
    {
      var owner := if x == q then p else x;
      assert owner in blocks && owner <= u < End(m, owner);
      assert u in home && home[u] == owner;
    }
  }

  lemma CarveTiles(m: seq<Header>, brk: nat, blocks: set<nat>, home: map<nat, nat>, p: nat, q: nat, m': seq<Header>)
    requires Tiles(m, brk, blocks, home) && p in blocks && q !in blocks
    requires p < |m| == |m'| && p < q < |m| && q < End(m, p)
    requires End(m', p) == q && End(m', q) == End(m, p)
    requires forall x :: 0 <= x < |m| && x != p && x != q ==> m'[x].size == m[x].size
    ensures Tiles(m', brk, blocks + {q}, Carve(home, p, q))
  {
    assert forall x :: 0 <= x < |m| && x != p && x != q ==> End(m', x) == End(m, x);
    assert m'[p].size >= 1 && m'[q].size >= 1;
    hide End;
    CarveInBlocks(m, brk, blocks, home, p, q, m');
    assert forall x :: x in blocks + {q} ==> BASE < x < |m'| && m'[x].size >= 1;
    hide InBlocks;
    CarveAtHome(m, blocks, home, p, q, m');
  }

  /** The header that malloc carves lies inside a free block, so it is nobody's yet. */
  lemma InsideBlock(h: Heap, p: nat, q: nat)
    requires Sound(h) && p in h.free && p < |h.mem| && p < q < End(h.mem, p)
    ensures q < |h.mem| && q !in h.live + h.free && q !in h.ring
  {
    SizeOfBlock(h, p);
    assert h.home[q] == p;
    assert h.home[q] != q;
    hide Tiles, Linked, Ordered;
    assert q in h.ring ==> q in h.free || q == BASE;
  }

  lemma SplitList(h: Heap, p: nat, n: nat)
    requires Inv(h) && p in h.free && 0 < n && p < |h.mem| && n < h.mem[p].size && End(h.mem, p) - n < |h.mem|
    requires End(h.mem, p) - n !in h.ring
    ensures var h' := Split(h, p, n);
            Linked(h'.mem, h'.ring) && Ordered(h'.mem, h'.ring) && Coalesced(h'.mem, h'.ring, {})
  {
    var q := End(h.mem, p) - n;
    var h' := Split(h, p, n);
    RingIncreases(h.mem, h.ring);
    hide Tiles;
    forall i {:trigger Next(h.ring, i)} | 0 <= i < |h.ring| ensures h'.mem[h.ring[i]].ptr == Next(h.ring, i) {
      assert h.mem[h.ring[i]].ptr == Next(h.ring, i);
    }
    assert Linked(h'.mem, h'.ring);
    forall i | 0 <= i < |h.ring|
      ensures End(h'.mem, h.ring[i]) <= End(h.mem, h.ring[i])
      ensures h'.mem[h.ring[i]].size <= h.mem[h.ring[i]].size && (h.mem[h.ring[i]].size > 0 ==> h'.mem[h.ring[i]].size > 0)
    {
    }
    assert h'.ring == h.ring;
    hide Linked, End, Split, Members;
    forall i, j | 0 <= i < j < |h.ring| ensures End(h'.mem, h.ring[i]) <= h.ring[j] {
      assert End(h.mem, h.ring[i]) <= h.ring[j];
    }
  }

  lemma SplitInv(h: Heap, p: nat, n: nat)
    requires Inv(h) && p in h.free && 0 < n && p < |h.mem| && n < h.mem[p].size
    ensures p < End(h.mem, p) - n < |h.mem| && Inv(Split(h, p, n))
    ensures End(h.mem, p) - n !in h.live
  {
    var q := End(h.mem, p) - n;
    InsideBlock(h, p, q);
    var h' := Split(h, p, n);
    SplitList(h, p, n);
    hide Linked, Ordered, Coalesced, Members;
    CarveTiles(h.mem, h.brk, h.live + h.free, h.home, p, q, h'.mem);
    assert h'.live + h'.free == h.live + h.free + {q};
  }

  function Units(a: nat, n: nat): (r: set<nat>)
    ensures forall u :: u in r <==> a <= u < a + n
  {
    if n == 0 then {} else Units(a, n - 1) + {a + n - 1}
  }

  function Extend(home: map<nat, nat>, b: nat, n: nat): map<nat, nat> {
    map u | u in home.Keys + Units(b, n) :: if u in home then home[u] else b
  }

  /** sbrk hands out n more units, which morecore makes a block before it frees it. */
  function Grow(h: Heap, n: nat): Heap
    requires h.brk < |h.mem|
  {
    h.(mem := h.mem[h.brk := h.mem[h.brk].(size := n)], brk := h.brk + n,
       live := h.live + {h.brk}, home := Extend(h.home, h.brk, n))
  }

  lemma ExtendAt(home: map<nat, nat>, b: nat, n: nat)
    requires forall u :: u in home ==> u < b
    ensures forall u :: u in Extend(home, b, n) <==> u in home || b <= u < b + n
    ensures forall u :: u in Extend(home, b, n) ==> Extend(home, b, n)[u] == if u < b then home[u] else b
  {
  }

  lemma GrowInBlocks(m: seq<Header>, b: nat, blocks: set<nat>, home: map<nat, nat>, n: nat, m': seq<Header>, home': map<nat, nat>)
    requires InBlocks(m, b, blocks, home) && b < |m| == |m'| && (forall a :: a in blocks ==> a < b)
    requires End(m', b) == b + n && forall x :: 0 <= x < |m| && x != b ==> End(m', x) == End(m, x)
    requires forall u :: u in home' <==> u in home || b <= u < b + n
    requires forall u :: u in home' ==> home'[u] == if u < b then home[u] else b
    requires forall u :: u in home ==> u < b
    ensures InBlocks(m', b + n, blocks + {b}, home')
  {
    hide End;
  }

  lemma GrowAtHome(m: seq<Header>, b: nat, blocks: set<nat>, home: map<nat, nat>, n: nat, m': seq<Header>, home': map<nat, nat>)
    requires AtHome(m, blocks, home) && b < |m| == |m'| && (forall u :: u in home ==> u < b) && b !in blocks
    requires End(m', b) == b + n && forall x :: 0 <= x < |m| && x != b ==> End(m', x) == End(m, x)
    requires forall u :: u in home' <==> u in home || b <= u < b + n
    requires forall u :: u in home' ==> home'[u] == if u < b then home[u] else b
    ensures AtHome(m', blocks + {b}, home')
  {
    hide End;
    forall x: nat, u: nat | x in blocks + {b} && x <= u && x < |m'| && u < End(m', x)
      ensures u in home' && home'[u] == x
    {
      if x != b {
        assert u in home && home[u] == x;
      }
    }
  }

  lemma GrowTiles(m: seq<Header>, b: nat, blocks: set<nat>, home: map<nat, nat>, n: nat, m': seq<Header>, home': map<nat, nat>)
    requires Tiles(m, b, blocks, home) && BASE < b < |m| == |m'| && n > 0
    requires forall a :: a in blocks ==> a < b
    requires m'[b].size == n && forall x :: 0 <= x < |m| && x != b ==> m'[x].size == m[x].size
    requires forall u :: u in home ==> u < b
    requires forall u :: u in home' <==> u in home || b <= u < b + n
    requires forall u :: u in home' ==> home'[u] == if u < b then home[u] else b
    ensures Tiles(m', b + n, blocks + {b}, home')
  {
    assert forall x :: 0 <= x < |m| && x != b ==> End(m', x) == End(m, x);
    assert End(m', b) == b + n;
    hide InBlocks, AtHome;
    GrowInBlocks(m, b, blocks, home, n, m', home');
    GrowAtHome(m, b, blocks, home, n, m', home');
  }

  lemma HomeBelow(h: Heap)
    requires Sound(h)
    ensures forall u :: u in h.home ==> u < h.brk
  {
  }

  lemma BlocksBelow(h: Heap)
    requires Sound(h)
    ensures forall a :: a in h.live + h.free ==> a < h.brk
    ensures forall i :: 0 <= i < |h.ring| ==> h.ring[i] < h.brk
  {
    forall a | a in h.live + h.free ensures a < h.brk {
      SizeOfBlock(h, a);
    }
  }

  lemma GrowList(h: Heap, n: nat)
    requires Inv(h) && 0 < n && h.brk + n <= |h.mem|
    requires forall i :: 0 <= i < |h.ring| ==> h.ring[i] < h.brk
    ensures var h' := Grow(h, n);
            Linked(h'.mem, h'.ring) && Ordered(h'.mem, h'.ring) && Coalesced(h'.mem, h'.ring, {})
  {
    hide Tiles, Members, Extend;
    var h' := Grow(h, n);
    forall i {:trigger Next(h.ring, i)} | 0 <= i < |h.ring| ensures h'.mem[h.ring[i]].ptr == Next(h.ring, i) {
      assert h.mem[h.ring[i]].ptr == Next(h.ring, i);
    }
    forall i | 0 <= i < |h.ring| ensures End(h'.mem, h.ring[i]) == End(h.mem, h.ring[i]) {
    }
  }

  lemma GrowInv(h: Heap, n: nat)
    requires Inv(h) && 0 < n && h.brk + n <= |h.mem|
    ensures Inv(Grow(h, n)) && h.brk !in h.home && h.brk !in h.live
    ensures Grow(h, n).home.Keys == h.home.Keys + Units(h.brk, n)
  {
    BlocksBelow(h);
    HomeBelow(h);
    GrowList(h, n);
    var h' := Grow(h, n);
    hide Linked, Ordered, Coalesced, Members, Units;
    assert h.live + h.free + {h.brk} == h'.live + h'.free;
    ExtendAt(h.home, h.brk, n);
    GrowTiles(h.mem, h.brk, h.live + h.free, h.home, n, h'.mem, h'.home);
  }

  // ----- What the program keeps in its blocks -----

  /** The units of the blocks in `keep` still belong to the same block and hold the same data. */
  ghost predicate Spared(h: Heap, h': Heap, keep: set<nat>) {
    forall u :: u in h.home && h.home[u] in keep ==>
      u < |h.mem| == |h'.mem| && h'.mem[u] == h.mem[u] && u in h'.home && h'.home[u] == h.home[u]
  }

  lemma SparedTransitive(h: Heap, h1: Heap, h2: Heap, keep1: set<nat>, keep: set<nat>)
    requires Spared(h, h1, keep1) && Spared(h1, h2, keep) && keep <= keep1
    ensures Spared(h, h2, keep)
  {
  }

  lemma SparedReflexive(h: Heap, keep: set<nat>)
    requires Sound(h)
    ensures Spared(h, h, keep)
  {
    HomesInside(h);
  }

  /** A header that may be written: base, or the head of a block outside `keep`. */
  lemma OutsideKept(h: Heap, w: nat, keep: set<nat>)
    requires Sound(h) && keep <= h.live && (w == BASE || (w in h.live + h.free && w !in keep))
    ensures forall u :: u in h.home && h.home[u] in keep ==> u != w
  {
    if w != BASE {
      SizeOfBlock(h, w);
    }
  }

  lemma HomesInside(h: Heap)
    requires Sound(h)
    ensures forall u :: u in h.home ==> u < |h.mem|
  {
  }

  lemma InsertSpares(h: Heap, bp: nat, k: nat)
    requires Sound(h) && bp in h.live && k < |h.ring| && bp < |h.mem|
    ensures Spared(h, Insert(h, bp, k), h.live - {bp})
  {
    OutsideKept(h, bp, h.live - {bp});
    OutsideKept(h, h.ring[k], h.live - {bp});
    HomesInside(h);
  }

  lemma MergeIfSpares(h: Heap, i: nat)
    requires Sound(h) && i < |h.ring|
    ensures Spared(h, MergeIf(h, i), h.live)
  {
    OutsideKept(h, h.ring[i], h.live);
    HomesInside(h);
    if Touching(h, i) {
      assert h.ring[i + 1] in h.free;
    }
  }

  lemma TakeSpares(h: Heap, k: nat)
    requires Sound(h) && 0 < k < |h.ring|
    ensures h.ring[k] < |h.mem| && h.ring[k - 1] < |h.mem| && Spared(h, Take(h, k), h.live)
  {
    OutsideKept(h, h.ring[k - 1], h.live);
    HomesInside(h);
  }

  lemma SplitSpares(h: Heap, p: nat, n: nat)
    requires Sound(h) && p in h.free && p < |h.mem| && 0 < n < h.mem[p].size && End(h.mem, p) - n < |h.mem|
    ensures Spared(h, Split(h, p, n), h.live)
  {
    hide Carve, Sound;
    UnitOfBlock(h, p, End(h.mem, p) - n);
    NotLive(h, p);
    OutsideKept(h, p, h.live);
    HomesInside(h);
    CarveAt(h.home, p, End(h.mem, p) - n);
  }

  lemma UnitOfBlock(h: Heap, p: nat, u: nat)
    requires Sound(h) && p in h.live + h.free && p < |h.mem| && p <= u < End(h.mem, p)
    ensures u in h.home && h.home[u] == p
  {
    hide Linked, Ordered, Members, InBlocks;
  }

  lemma NotLive(h: Heap, p: nat)
    requires Sound(h) && p in h.free
    ensures p !in h.live
  {
    hide Linked, Ordered, Members, Tiles;
  }

  lemma GrowSpares(h: Heap, n: nat)
    requires Sound(h) && h.brk < |h.mem|
    ensures Spared(h, Grow(h, n), h.live)
  {
    HomesInside(h);
    HomeBelow(h);
    ExtendAt(h.home, h.brk, n);
    hide Extend;
  }
}
