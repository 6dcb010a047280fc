/** File contents as the trees define them, and what growing a tree or writing a data block
    does to the contents of every file. */
module FsContent {
  import opened DiskBytes
  import opened FsTree

  /** Byte k of a file; a block that bmap has not allocated yet reads as zeros. */
  ghost function ByteAt(l: Layout, t: Trees, ino: nat, k: nat): byte
    requires Shaped(l, t) && ino < |t.addrs| && k / BSIZE < l.MaxFile()
  {
    PathOfIsLeaf(l, k / BSIZE);
    var a := Addr(l, t, ino, l.PathOf(k / BSIZE));
    if 0 < a < l.size then t.disk[a][k % BSIZE] else 0
  }

  ghost predicate SameBytes(l: Layout, t: Trees, t': Trees)
    requires Shaped(l, t) && Shaped(l, t') && |t.addrs| == |t'.addrs|
  {
    forall i, k :: 0 <= i < |t.addrs| && 0 <= k < l.MaxFile() * BSIZE ==> ByteAt(l, t', i, k) == ByteAt(l, t, i, k)
  }

  /** bmap's effect on the trees: positions on the way to `path` in inode `ino` may have
      been filled in; everything else, and every byte of every file, is as it was. */
  ghost predicate Grew(l: Layout, t: Trees, t': Trees, ino: nat, path: Path)
    requires Shaped(l, t)
  {
    && Shaped(l, t') && |t'.addrs| == |t.addrs|
    && (forall i, p :: 0 <= i < |t.addrs| && l.IsPath(p) ==>
          Addr(l, t', i, p) == Addr(l, t, i, p) || (Addr(l, t, i, p) == 0 && i == ino && p <= path))
    && SameBytes(l, t, t')
  }

  lemma GrewTransitive(l: Layout, t1: Trees, t2: Trees, t3: Trees, ino: nat, path: Path)
    requires Shaped(l, t1) && Grew(l, t1, t2, ino, path) && Grew(l, t2, t3, ino, path)
    ensures Grew(l, t1, t3, ino, path)
  {
    hide Addr, ByteAt;
    forall i: nat, p | i < |t1.addrs| && l.IsPath(p)
      ensures Addr(l, t3, i, p) == Addr(l, t1, i, p) || (Addr(l, t1, i, p) == 0 && i == ino && p <= path)
    {
      assert Addr(l, t2, i, p) == Addr(l, t1, i, p) || (Addr(l, t1, i, p) == 0 && i == ino && p <= path);
    }
    forall i, k: nat | 0 <= i < |t1.addrs| && k < l.MaxFile() * BSIZE
      ensures ByteAt(l, t3, i, k) == ByteAt(l, t1, i, k)
    {
      assert ByteAt(l, t2, i, k) == ByteAt(l, t1, i, k);
    }
  }

  /** What was there before bmap is there afterwards. */
  lemma StillThere(l: Layout, t: Trees, t': Trees, ino: nat, path: Path, p: Path)
    requires Shaped(l, t) && Grew(l, t, t', ino, path) && ino < |t.addrs| && l.IsPath(p)
    ensures Addr(l, t, ino, p) != 0 ==> Addr(l, t', ino, p) == Addr(l, t, ino, p)
  {
  }

  lemma GrewNothing(l: Layout, t: Trees, ino: nat, path: Path)
    requires Shaped(l, t)
    ensures Grew(l, t, t, ino, path)
  {
  }

  /** One step of bmap: allocate a block and link it at an empty position whose index block
      exists. */
  ghost function Grown(l: Layout, t: Trees, owner: map<nat, Key>, k: Key, b: nat): Trees
    requires Forest(l, t, owner) && l.datastart <= b < l.size && !Used(l, t.disk, b)
    requires IsKey(l, t, k) && Addr(l, t, k.ino, k.path) == 0
    requires |k.path| > 1 ==> Addr(l, t, k.ino, Parent(k.path)) != 0
  {
    var t1 := t.(disk := Allocate(l, t.disk, b));
    AllocateKeepsForest(l, t, owner, b);
    AllocateKeepsAddr(l, t, owner, b, k.ino, k.path);
    if |k.path| > 1 then
      AllocateKeepsAddr(l, t, owner, b, k.ino, Parent(k.path));
      LinkKeepsForest(l, t1, owner, k, b);
      SetSlot(l, t1, k.ino, k.path, b)
    else
      SetSlot(l, t1, k.ino, k.path, b)
  }

  lemma GrownKeepsForest(l: Layout, t: Trees, owner: map<nat, Key>, k: Key, b: nat)
    requires Forest(l, t, owner) && l.datastart <= b < l.size && !Used(l, t.disk, b)
    requires IsKey(l, t, k) && Addr(l, t, k.ino, k.path) == 0
    requires |k.path| > 1 ==> Addr(l, t, k.ino, Parent(k.path)) != 0
    ensures var t' := Grown(l, t, owner, k, b);
            && Forest(l, t', owner[b := k]) && |t'.addrs| == |t.addrs|
            && (forall i, p :: 0 <= i < |t.addrs| && l.IsPath(p) ==>
                  Addr(l, t', i, p) == if Key(i, p) == k then b else Addr(l, t, i, p))
  {
    var t1 := t.(disk := Allocate(l, t.disk, b));
    AllocateKeepsForest(l, t, owner, b);
    AllocateKeepsAddr(l, t, owner, b, k.ino, k.path);
    if |k.path| > 1 {
      AllocateKeepsAddr(l, t, owner, b, k.ino, Parent(k.path));
    }
    LinkKeepsForest(l, t1, owner, k, b);
    hide Addr, Used, SetSlot, Allocate;
    forall i: nat, p | i < |t.addrs| && l.IsPath(p)
      ensures Addr(l, t1, i, p) == Addr(l, t, i, p)
    {
      AllocateKeepsAddr(l, t, owner, b, i, p);
    }
  }

  /** The blocks other than the new one, the free map and the index block above keep their
      contents. */
  lemma GrownElsewhere(l: Layout, t: Trees, owner: map<nat, Key>, k: Key, b: nat, i: nat, p: Path)
    requires Forest(l, t, owner) && l.datastart <= b < l.size && !Used(l, t.disk, b)
    requires IsKey(l, t, k) && Addr(l, t, k.ino, k.path) == 0
    requires |k.path| > 1 ==> Addr(l, t, k.ino, Parent(k.path)) != 0
    requires i < |t.addrs| && l.IsLeaf(p) && Addr(l, t, i, p) != 0
    ensures var a := Addr(l, t, i, p);
            0 < a < l.size == |Grown(l, t, owner, k, b).disk| && Grown(l, t, owner, k, b).disk[a] == t.disk[a]
  {
    var a := Addr(l, t, i, p);
    assert OwnsBlock(l, t, owner, i, p);
    if |k.path| > 1 {
      var up := Addr(l, t, k.ino, Parent(k.path));
      assert OwnsBlock(l, t, owner, k.ino, Parent(k.path));
      AllocateKeepsAddr(l, t, owner, b, k.ino, Parent(k.path));
      ParentIsPath(l, k.path);
      assert a != up;
    }
  }

  lemma GrownKeepsBytes(l: Layout, t: Trees, owner: map<nat, Key>, k: Key, b: nat)
    requires Forest(l, t, owner) && l.datastart <= b < l.size && !Used(l, t.disk, b)
    requires IsKey(l, t, k) && Addr(l, t, k.ino, k.path) == 0
    requires |k.path| > 1 ==> Addr(l, t, k.ino, Parent(k.path)) != 0
    ensures var t' := Grown(l, t, owner, k, b);
            Shaped(l, t') && |t'.addrs| == |t.addrs| && SameBytes(l, t, t')
  {
    var t' := Grown(l, t, owner, k, b);
    GrownKeepsForest(l, t, owner, k, b);
    forall i: nat, x: nat | i < |t.addrs| && x < l.MaxFile() * BSIZE
      ensures ByteAt(l, t', i, x) == ByteAt(l, t, i, x)
    {
      var p := l.PathOf(x / BSIZE);
      PathOfIsLeaf(l, x / BSIZE);
      if Addr(l, t, i, p) != 0 {
        GrownElsewhere(l, t, owner, k, b, i, p);
      } else if Key(i, p) == k {
        GrownLeafIsZero(l, t, owner, k, b);
      }
    }
  }

  lemma GrownLeafIsZero(l: Layout, t: Trees, owner: map<nat, Key>, k: Key, b: nat)
    requires Forest(l, t, owner) && l.datastart <= b < l.size && !Used(l, t.disk, b)
    requires IsKey(l, t, k) && Addr(l, t, k.ino, k.path) == 0
    requires |k.path| > 1 ==> Addr(l, t, k.ino, Parent(k.path)) != 0
    ensures |Grown(l, t, owner, k, b).disk| == l.size && Grown(l, t, owner, k, b).disk[b] == ZeroBlock()
  {
    if |k.path| > 1 {
      AllocateKeepsAddr(l, t, owner, b, k.ino, Parent(k.path));
      assert OwnsBlock(l, t, owner, k.ino, Parent(k.path));
    }
  }

  /** What the two kinds of steps write. */
  ghost function RootGrown(l: Layout, t: Trees, ino: nat, slot: nat, b: nat): Trees
    requires Shaped(l, t) && ino < |t.addrs| && slot < l.Slots() && b < l.size
  {
    var slots: seq<nat> := t.addrs[ino][slot := b];
    Trees(Allocate(l, t.disk, b), t.addrs[ino := slots])
  }

  ghost function IndexGrown(l: Layout, t: Trees, up: nat, idx: nat, b: nat): Trees
    requires Shaped(l, t) && up < l.size && idx < NINDIRECT && b < l.size
  {
    var d := Allocate(l, t.disk, b);
    assert |d| == l.size;
    t.(disk := d[up := PutWord(d[up], idx, b)])
  }

  /** Both are growth towards `path`. */
  lemma GrownAtRoot(l: Layout, t: Trees, owner: map<nat, Key>, ino: nat, slot: nat, b: nat, path: Path)
    requires Forest(l, t, owner) && ino < |t.addrs| && l.IsPath([slot]) && [slot] <= path
    requires Addr(l, t, ino, [slot]) == 0 && b < l.size && !Used(l, t.disk, b)
    ensures b >= l.datastart
    ensures var t' := RootGrown(l, t, ino, slot, b);
            && Forest(l, t', owner[b := Key(ino, [slot])])
            && Grew(l, t, t', ino, path) && Addr(l, t', ino, [slot]) == b
  {
    var k := Key(ino, [slot]);
    assert Grown(l, t, owner, k, b) == RootGrown(l, t, ino, slot, b);
    hide Grown, Addr, ByteAt, Used;
    GrownKeepsForest(l, t, owner, k, b);
    GrownKeepsBytes(l, t, owner, k, b);
  }

  lemma GrownAtIndex(l: Layout, t: Trees, owner: map<nat, Key>, ino: nat, p: Path, idx: nat, b: nat, path: Path)
    requires Forest(l, t, owner) && ino < |t.addrs|
    requires l.IsPath(p) && l.IsPath(p + [idx]) && p + [idx] <= path
    requires Addr(l, t, ino, p) != 0 && Addr(l, t, ino, p + [idx]) == 0
    requires b < l.size && !Used(l, t.disk, b)
    ensures b >= l.datastart && 0 < Addr(l, t, ino, p) < l.size && idx < NINDIRECT
    ensures var t' := IndexGrown(l, t, Addr(l, t, ino, p), idx, b);
            && Forest(l, t', owner[b := Key(ino, p + [idx])])
            && Grew(l, t, t', ino, path) && Addr(l, t', ino, p + [idx]) == b
  {
    var k := Key(ino, p + [idx]);
    assert Parent(k.path) == p && Last(k.path) == idx;
    assert OwnsBlock(l, t, owner, ino, p);
    AllocateKeepsAddr(l, t, owner, b, ino, p);
    assert Grown(l, t, owner, k, b) == IndexGrown(l, t, Addr(l, t, ino, p), idx, b);
    hide Grown, Addr, ByteAt, Used;
    GrownKeepsForest(l, t, owner, k, b);
    GrownKeepsBytes(l, t, owner, k, b);
  }

  /** Reading a slot of an index block. */
  lemma AddrOfChild(l: Layout, t: Trees, owner: map<nat, Key>, ino: nat, p: Path, idx: nat)
    requires Forest(l, t, owner) && ino < |t.addrs| && l.IsPath(p) && l.IsPath(p + [idx])
    requires Addr(l, t, ino, p) != 0
    ensures 0 < Addr(l, t, ino, p) < l.size && idx < NINDIRECT
    ensures Addr(l, t, ino, p + [idx]) == Word(t.disk[Addr(l, t, ino, p)], idx)
  {
    assert Parent(p + [idx]) == p && Last(p + [idx]) == idx;
    assert OwnsBlock(l, t, owner, ino, p);
  }

  // ----- Writing one data block -----

  /** Replacing the data block of file block bn of inode ino changes exactly its bytes. */
  lemma StoreBytes(l: Layout, t: Trees, owner: map<nat, Key>, ino: nat, bn: nat, data: Block)
    requires Forest(l, t, owner) && ino < |t.addrs| && bn < l.MaxFile()
    requires l.IsLeaf(l.PathOf(bn)) && Addr(l, t, ino, l.PathOf(bn)) != 0
    ensures 0 < Addr(l, t, ino, l.PathOf(bn)) < l.size
    ensures var t' := t.(disk := t.disk[Addr(l, t, ino, l.PathOf(bn)) := data]);
            && Forest(l, t', owner)
            && (forall i, p :: 0 <= i < |t.addrs| && l.IsPath(p) ==> Addr(l, t', i, p) == Addr(l, t, i, p))
            && (forall i, k :: 0 <= i < |t.addrs| && 0 <= k < l.MaxFile() * BSIZE ==>
                  ByteAt(l, t', i, k) ==
                  if i == ino && k / BSIZE == bn then data[k % BSIZE] else ByteAt(l, t, i, k))
  {
    var p := l.PathOf(bn);
    StoreKeepsForest(l, t, owner, Key(ino, p), data);
    var t' := t.(disk := t.disk[Addr(l, t, ino, p) := data]);
    assert OwnsBlock(l, t, owner, ino, p);
    forall i: nat, k: nat | i < |t.addrs| && k < l.MaxFile() * BSIZE
      ensures ByteAt(l, t', i, k) == if i == ino && k / BSIZE == bn then data[k % BSIZE] else ByteAt(l, t, i, k)
    {
      var q := l.PathOf(k / BSIZE);
      PathOfIsLeaf(l, k / BSIZE);
      PathOfIsLeaf(l, bn);
      assert OwnsBlock(l, t, owner, i, q);
    }
  }

  // ----- Reading and writing spans -----

  /** The contents of a file of the given size. */
  ghost function Content(l: Layout, t: Trees, ino: nat, size: nat): (c: seq<byte>)
    requires Shaped(l, t) && ino < |t.addrs| && size <= l.MaxFile() * BSIZE
    ensures |c| == size && forall k :: 0 <= k < size ==> c[k] == ByteAt(l, t, ino, k)
  {
    seq(size, k requires 0 <= k < size => ByteAt(l, t, ino, k))
  }

  /** Mapped positions stay where they are, in every inode; only `ino` gains any. */
  ghost predicate Kept(l: Layout, t: Trees, t': Trees, ino: nat)
    requires Shaped(l, t)
  {
    && Shaped(l, t') && |t'.addrs| == |t.addrs|
    && forall i, p :: 0 <= i < |t.addrs| && l.IsPath(p) ==>
         Addr(l, t', i, p) == Addr(l, t, i, p) || (Addr(l, t, i, p) == 0 && i == ino)
  }

  /** The bytes `src` were written at `off` of inode `ino`, and nothing else. */
  ghost predicate Wrote(l: Layout, t: Trees, t': Trees, ino: nat, off: nat, src: seq<byte>)
    requires Shaped(l, t)
  {
    && Kept(l, t, t', ino)
    && forall i, k :: 0 <= i < |t.addrs| && 0 <= k < l.MaxFile() * BSIZE ==>
         ByteAt(l, t', i, k) ==
         if i == ino && off <= k < off + |src| then src[k - off] else ByteAt(l, t, i, k)
  }

  lemma KeptTransitive(l: Layout, t1: Trees, t2: Trees, t3: Trees, ino: nat)
    requires Shaped(l, t1) && Kept(l, t1, t2, ino) && Kept(l, t2, t3, ino)
    ensures Kept(l, t1, t3, ino)
  {
    hide Addr;
    forall i: nat, p | i < |t1.addrs| && l.IsPath(p)
      ensures Addr(l, t3, i, p) == Addr(l, t1, i, p) || (Addr(l, t1, i, p) == 0 && i == ino)
    {
      assert Addr(l, t2, i, p) == Addr(l, t1, i, p) || (Addr(l, t1, i, p) == 0 && i == ino);
    }
  }

  /** The blocks from file block `lo` to file offset `hi` are in place. */
  ghost predicate Mapped(l: Layout, t: Trees, ino: nat, lo: nat, hi: nat)
    requires Shaped(l, t) && ino < |t.addrs|
  {
    forall bn :: lo <= bn < l.MaxFile() && bn * BSIZE < hi ==>
      l.IsLeaf(l.PathOf(bn)) && Addr(l, t, ino, l.PathOf(bn)) != 0
  }

  /** Nothing is left for bmap to add below `size`. */
  ghost predicate NoHoles(l: Layout, t: Trees, ino: nat, size: nat)
    requires Shaped(l, t) && ino < |t.addrs|
  {
    Mapped(l, t, ino, 0, size)
  }

  lemma NoHoleAt(l: Layout, t: Trees, ino: nat, size: nat, bn: nat)
    requires Shaped(l, t) && ino < |t.addrs| && NoHoles(l, t, ino, size)
    requires bn < l.MaxFile() && bn * BSIZE < size
    ensures l.IsLeaf(l.PathOf(bn)) && Addr(l, t, ino, l.PathOf(bn)) != 0
  {
  }

  lemma MappedGrows(l: Layout, t1: Trees, t2: Trees, ino: nat, lo: nat, hi: nat, o: nat, m: nat)
    requires Shaped(l, t1) && Kept(l, t1, t2, ino) && ino < |t1.addrs| && Mapped(l, t1, ino, lo, hi)
    requires o / BSIZE * BSIZE <= hi <= o
    requires o / BSIZE < l.MaxFile() && o % BSIZE + m <= BSIZE && m > 0
    requires l.IsLeaf(l.PathOf(o / BSIZE)) && Addr(l, t2, ino, l.PathOf(o / BSIZE)) != 0
    ensures Mapped(l, t2, ino, lo, o + m)
  {
    hide Addr;
    forall bn | lo <= bn < l.MaxFile() && bn * BSIZE < o + m
      ensures l.IsLeaf(l.PathOf(bn)) && Addr(l, t2, ino, l.PathOf(bn)) != 0
    {
      if bn * BSIZE < hi {
        assert Addr(l, t1, ino, l.PathOf(bn)) != 0;
      } else {
        assert bn == o / BSIZE;
      }
    }
  }

  /** A write from within the file closes the gap between what was there and its end. */
  lemma StillNoHoles(l: Layout, t: Trees, t': Trees, ino: nat, size: nat, off: nat, end: nat)
    requires Shaped(l, t) && Kept(l, t, t', ino) && ino < |t.addrs| && off <= size
    requires NoHoles(l, t, ino, size) && (end > off ==> Mapped(l, t', ino, off / BSIZE, end))
    ensures NoHoles(l, t', ino, if end > size then end else size)
  {
    hide Addr;
    forall bn | 0 <= bn < l.MaxFile() && bn * BSIZE < if end > size then end else size
      ensures l.IsLeaf(l.PathOf(bn)) && Addr(l, t', ino, l.PathOf(bn)) != 0
    {
      if bn * BSIZE < size {
        assert Addr(l, t, ino, l.PathOf(bn)) != 0;
      } else {
        assert bn >= off / BSIZE;
      }
    }
  }

  /** A span write, seen as an edit of the byte sequence. */
  lemma WroteContent(l: Layout, t: Trees, t': Trees, ino: nat, off: nat, src: seq<byte>, size: nat)
    requires Shaped(l, t) && Wrote(l, t, t', ino, off, src) && ino < |t.addrs|
    requires off <= size <= l.MaxFile() * BSIZE && off + |src| <= l.MaxFile() * BSIZE
    ensures var end := off + |src|;
            var was := Content(l, t, ino, size);
            Content(l, t', ino, if end > size then end else size)
            == was[..off] + src + if end < size then was[end..] else []
    ensures forall i, sz :: 0 <= i < |t.addrs| && i != ino && 0 <= sz <= l.MaxFile() * BSIZE ==>
              Content(l, t', i, sz) == Content(l, t, i, sz)
  {
    hide ByteAt, Addr;
    var end := off + |src|;
    var was := Content(l, t, ino, size);
    var now := Content(l, t', ino, if end > size then end else size);
    var edit := was[..off] + src + if end < size then was[end..] else [];
    forall k | 0 <= k < |now| ensures now[k] == edit[k] {
      assert now[k] == ByteAt(l, t', ino, k);
    }
  }

  lemma WroteKept(l: Layout, t: Trees, t': Trees, ino: nat, off: nat, src: seq<byte>)
    requires Shaped(l, t) && Wrote(l, t, t', ino, off, src)
    ensures Kept(l, t, t', ino)
  {
  }

  lemma NothingWritten(l: Layout, t: Trees, ino: nat, off: nat)
    requires Shaped(l, t) && ino < |t.addrs|
    ensures Wrote(l, t, t, ino, off, []) && Mapped(l, t, ino, off / BSIZE, off / BSIZE * BSIZE)
  {
  }

  lemma UnseenTransitive(l: Layout, t1: Trees, t2: Trees, t3: Trees, ino: nat)
    requires Shaped(l, t1) && Wrote(l, t1, t2, ino, 0, []) && Wrote(l, t2, t3, ino, 0, [])
    ensures Wrote(l, t1, t3, ino, 0, [])
  {
    var none: seq<byte> := [];
    WroteTransitive(l, t1, t2, t3, ino, 0, none, none);
    assert none + none == none;
  }

  lemma WroteNothing(l: Layout, t: Trees, ino: nat)
    requires Shaped(l, t)
    ensures Wrote(l, t, t, ino, 0, [])
  {
  }

  lemma SpanInFile(o: nat, size: nat, maxfile: nat)
    requires o < size <= maxfile * BSIZE
    ensures o / BSIZE < maxfile && o / BSIZE * BSIZE < size
  {
  }

  /** What a span read shows is the original contents, if nothing visible changed since. */
  lemma ReadsThrough(l: Layout, t0: Trees, t1: Trees, ino: nat, o: nat, m: nat, chunk: seq<byte>, size: nat)
    requires Shaped(l, t0) && Wrote(l, t0, t1, ino, 0, []) && ino < |t0.addrs|
    requires o + m <= size <= l.MaxFile() * BSIZE && |chunk| == m
    requires forall j :: 0 <= j < m ==> chunk[j] == ByteAt(l, t1, ino, o + j)
    ensures chunk == Content(l, t0, ino, size)[o..o + m]
  {
    forall j | 0 <= j < m ensures chunk[j] == Content(l, t0, ino, size)[o + j] {
      assert ByteAt(l, t1, ino, o + j) == ByteAt(l, t0, ino, o + j);
    }
  }

  lemma StillMapped(l: Layout, t: Trees, t': Trees, ino: nat, p: Path)
    requires Shaped(l, t) && Kept(l, t, t', ino) && ino < |t.addrs| && l.IsPath(p)
    ensures Addr(l, t, ino, p) != 0 ==> Addr(l, t', ino, p) == Addr(l, t, ino, p)
  {
  }

  lemma WroteTransitive(l: Layout, t1: Trees, t2: Trees, t3: Trees, ino: nat, off: nat, s1: seq<byte>, s2: seq<byte>)
    requires Shaped(l, t1) && Wrote(l, t1, t2, ino, off, s1) && Wrote(l, t2, t3, ino, off + |s1|, s2)
    ensures Wrote(l, t1, t3, ino, off, s1 + s2)
  {
    hide Addr, ByteAt;
    KeptTransitive(l, t1, t2, t3, ino);
    forall i: nat, k: nat | i < |t1.addrs| && k < l.MaxFile() * BSIZE
      ensures ByteAt(l, t3, i, k) ==
              if i == ino && off <= k < off + |s1 + s2| then (s1 + s2)[k - off] else ByteAt(l, t1, i, k)
    {
      assert ByteAt(l, t2, i, k) == if i == ino && off <= k < off + |s1| then s1[k - off] else ByteAt(l, t1, i, k);
    }
  }

  /** Growth is a write of nothing. */
  lemma GrewIsWrote(l: Layout, t: Trees, t': Trees, ino: nat, path: Path, off: nat)
    requires Shaped(l, t) && Grew(l, t, t', ino, path)
    ensures Wrote(l, t, t', ino, off, [])
  {
    hide Addr, ByteAt;
  }

  lemma SpanInBlock(off: nat, m: nat, k: nat)
    requires off <= k < off + m && off % BSIZE + m <= BSIZE
    ensures k / BSIZE == off / BSIZE && k % BSIZE == off % BSIZE + (k - off)
  {
  }

  /** memmove into the block that holds file offset `off`. */
  function Patch(b: Block, at: nat, chunk: seq<byte>): (r: Block)
    requires at + |chunk| <= BSIZE
    ensures forall j :: 0 <= j < BSIZE ==> r[j] == if at <= j < at + |chunk| then chunk[j - at] else b[j]
  {
    b[..at] + chunk + b[at + |chunk|..]
  }

  /** The span of a block that bmap returned shows the bytes the file had before. */
  lemma SpanShows(l: Layout, t0: Trees, t: Trees, owner: map<nat, Key>, ino: nat, off: nat, m: nat)
    requires Shaped(l, t0) && Wrote(l, t0, t, ino, 0, []) && Forest(l, t, owner) && ino < |t.addrs|
    requires off % BSIZE + m <= BSIZE && off / BSIZE < l.MaxFile() && off + m <= l.MaxFile() * BSIZE
    requires l.IsLeaf(l.PathOf(off / BSIZE)) && Addr(l, t, ino, l.PathOf(off / BSIZE)) != 0
    ensures var a := Addr(l, t, ino, l.PathOf(off / BSIZE));
            && 0 < a < l.size
            && var chunk := t.disk[a][off % BSIZE..off % BSIZE + m];
               forall j :: 0 <= j < m ==> chunk[j] == ByteAt(l, t0, ino, off + j)
  {
    var a := Addr(l, t, ino, l.PathOf(off / BSIZE));
    assert OwnsBlock(l, t, owner, ino, l.PathOf(off / BSIZE));
    var chunk := t.disk[a][off % BSIZE..off % BSIZE + m];
    forall j | 0 <= j < m ensures chunk[j] == ByteAt(l, t0, ino, off + j) {
      SpanInBlock(off, m, off + j);
      assert ByteAt(l, t, ino, off + j) == ByteAt(l, t0, ino, off + j);
    }
  }

  lemma PatchIsWrote(l: Layout, t: Trees, owner: map<nat, Key>, ino: nat, off: nat, chunk: seq<byte>)
    requires Forest(l, t, owner) && ino < |t.addrs| && off / BSIZE < l.MaxFile()
    requires off % BSIZE + |chunk| <= BSIZE
    requires l.IsLeaf(l.PathOf(off / BSIZE)) && Addr(l, t, ino, l.PathOf(off / BSIZE)) != 0
    ensures var a := Addr(l, t, ino, l.PathOf(off / BSIZE));
            && 0 < a < l.size
            && var t' := t.(disk := t.disk[a := Patch(t.disk[a], off % BSIZE, chunk)]);
               Shaped(l, t') && Forest(l, t', owner) && Wrote(l, t, t', ino, off, chunk) && Kept(l, t, t', ino)
  {
    var a := Addr(l, t, ino, l.PathOf(off / BSIZE));
    assert OwnsBlock(l, t, owner, ino, l.PathOf(off / BSIZE));
    var data := Patch(t.disk[a], off % BSIZE, chunk);
    StoreBytes(l, t, owner, ino, off / BSIZE, data);
    var t' := t.(disk := t.disk[a := data]);
    forall i: nat, k: nat | i < |t.addrs| && k < l.MaxFile() * BSIZE
      ensures ByteAt(l, t', i, k) == if i == ino && off <= k < off + |chunk| then chunk[k - off] else ByteAt(l, t, i, k)
    {
      if off <= k < off + |chunk| {
        SpanInBlock(off, |chunk|, k);
      }
    }
  }

}
