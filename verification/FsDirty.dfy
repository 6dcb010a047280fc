/** Which blocks bmap and writei hand to log_write, which bits they set in the free map, and
    how many blocks that makes. */
module FsDirty {
  import opened DiskBytes
  import opened FsTree
  import opened FsContent

  /** bmap has filled position p since t. */
  ghost predicate Filled(l: Layout, t: Trees, t': Trees, ino: nat, p: Path)
    requires Shaped(l, t) && Shaped(l, t') && ino < |t.addrs| == |t'.addrs|
  {
    l.IsPath(p) && Addr(l, t, ino, p) == 0 && Addr(l, t', ino, p) != 0
  }

  /** Filling p logs the new block, its free map block, and the index block above it. */
  ghost predicate LoggedFor(l: Layout, t: Trees, t': Trees, ino: nat, p: Path, b: nat)
    requires Shaped(l, t) && Shaped(l, t') && ino < |t.addrs| == |t'.addrs|
  {
    && Filled(l, t, t', ino, p)
    && (b == Addr(l, t', ino, p) || b == l.MapBlock(Addr(l, t', ino, p))
        || (|p| > 1 && b == Addr(l, t', ino, Parent(p))))
  }

  ghost predicate TakenAt(l: Layout, t: Trees, t': Trees, ino: nat, p: Path, c: nat)
    requires Shaped(l, t) && Shaped(l, t') && ino < |t.addrs| == |t'.addrs|
  {
    Filled(l, t, t', ino, p) && c == Addr(l, t', ino, p)
  }

  /** The bits set in the free map since t are those of free blocks that now hang at a filled
      position: none is lost on the way. */
  ghost predicate Taken(l: Layout, t: Trees, t': Trees, ino: nat)
    requires Shaped(l, t) && Shaped(l, t') && ino < |t.addrs| == |t'.addrs|
  {
    && (forall c :: 0 <= c < l.size ==>
          (Used(l, t'.disk, c) <==> Used(l, t.disk, c) || exists p :: TakenAt(l, t, t', ino, p, c)))
    && (forall p, c: nat :: TakenAt(l, t, t', ino, p, c) ==> c < l.size && !Used(l, t.disk, c))
  }

  /** From t to t', with `data` the data blocks written: `log` holds those, what filling
      positions logs, and nothing else; and no block outside it has changed. */
  ghost predicate Logged(l: Layout, t: Trees, t': Trees, ino: nat, data: set<nat>, log: set<nat>)
    requires Shaped(l, t) && Shaped(l, t') && ino < |t.addrs| == |t'.addrs|
  {
    && (forall b :: b in log <==> b in data || exists p :: LoggedFor(l, t, t', ino, p, b))
    && (forall b :: 0 <= b < l.size && t'.disk[b] != t.disk[b] ==> b in log)
    && Taken(l, t, t', ino)
  }

  lemma NothingLogged(l: Layout, t: Trees, ino: nat)
    requires Shaped(l, t) && ino < |t.addrs|
    ensures Logged(l, t, t, ino, {}, {})
  {
    hide Addr, Used;
  }

  lemma KeptShape(l: Layout, t: Trees, t': Trees, ino: nat)
    requires Shaped(l, t) && Kept(l, t, t', ino)
    ensures Shaped(l, t') && |t'.addrs| == |t.addrs|
  {
  }

  /** A position filled on the way is filled at the end, and with the same block. */
  lemma FilledIn(l: Layout, t1: Trees, t2: Trees, t3: Trees, ino: nat, p: Path)
    requires Shaped(l, t1) && Kept(l, t1, t2, ino) && Kept(l, t2, t3, ino) && ino < |t1.addrs|
    ensures Filled(l, t1, t3, ino, p) <==> Filled(l, t1, t2, ino, p) || Filled(l, t2, t3, ino, p)
    ensures forall b :: LoggedFor(l, t1, t3, ino, p, b) <==>
                        LoggedFor(l, t1, t2, ino, p, b) || LoggedFor(l, t2, t3, ino, p, b)
    ensures forall c :: TakenAt(l, t1, t3, ino, p, c) <==>
                        TakenAt(l, t1, t2, ino, p, c) || TakenAt(l, t2, t3, ino, p, c)
  {
    if l.IsPath(p) && |p| > 1 {
      ParentIsPath(l, p);
      assert Addr(l, t2, ino, p) != 0 ==> Addr(l, t2, ino, Parent(p)) != 0;
      hide Addr;
      assert Addr(l, t2, ino, Parent(p)) != 0 ==> Addr(l, t3, ino, Parent(p)) == Addr(l, t2, ino, Parent(p));
    }
    hide Addr;
    if l.IsPath(p) {
      assert Addr(l, t2, ino, p) == Addr(l, t1, ino, p) || Addr(l, t1, ino, p) == 0;
      assert Addr(l, t3, ino, p) == Addr(l, t2, ino, p) || Addr(l, t2, ino, p) == 0;
    }
  }

  lemma LoggedTransitive(l: Layout, t1: Trees, t2: Trees, t3: Trees, ino: nat,
                         d1: set<nat>, d2: set<nat>, log1: set<nat>, log2: set<nat>)
    requires Shaped(l, t1) && Kept(l, t1, t2, ino) && Kept(l, t2, t3, ino) && ino < |t1.addrs|
    requires Logged(l, t1, t2, ino, d1, log1) && Logged(l, t2, t3, ino, d2, log2)
    ensures Logged(l, t1, t3, ino, d1 + d2, log1 + log2)
  {
    hide Addr, Used, LoggedFor, TakenAt, Filled, Kept;
    KeptShape(l, t1, t2, ino);
    KeptShape(l, t2, t3, ino);
    forall p: Path, b: nat
      ensures LoggedFor(l, t1, t3, ino, p, b) <==>
              LoggedFor(l, t1, t2, ino, p, b) || LoggedFor(l, t2, t3, ino, p, b)
    {
      FilledIn(l, t1, t2, t3, ino, p);
    }
    forall p: Path, c: nat
      ensures TakenAt(l, t1, t3, ino, p, c) <==>
              TakenAt(l, t1, t2, ino, p, c) || TakenAt(l, t2, t3, ino, p, c)
    {
      FilledIn(l, t1, t2, t3, ino, p);
    }
  }

  lemma GrewIsKept(l: Layout, t: Trees, t': Trees, ino: nat, path: Path)
    requires Shaped(l, t) && Grew(l, t, t', ino, path)
    ensures Kept(l, t, t', ino)
  {
    hide Addr, ByteAt;
  }

  /** One step of bmap fills one position. */
  lemma OneFilled(l: Layout, t: Trees, t': Trees, k: Key, b: nat)
    requires Shaped(l, t) && Shaped(l, t') && IsKey(l, t, k) && |t'.addrs| == |t.addrs| && 0 < b < l.size
    requires Addr(l, t, k.ino, k.path) == 0 && !Used(l, t.disk, b)
    requires forall p :: l.IsPath(p) ==>
               Addr(l, t', k.ino, p) == if p == k.path then b else Addr(l, t, k.ino, p)
    requires forall c :: 0 <= c < l.size ==> Used(l, t'.disk, c) == (c == b || Used(l, t.disk, c))
    requires forall c :: 0 <= c < l.size && t'.disk[c] != t.disk[c] ==>
               c == b || c == l.MapBlock(b) || (|k.path| > 1 && c == Addr(l, t, k.ino, Parent(k.path)))
    ensures Logged(l, t, t', k.ino, {},
                   {b, l.MapBlock(b)} + if |k.path| > 1 then {Addr(l, t, k.ino, Parent(k.path))} else {})
  {
    hide Addr, Used;
    assert forall p :: Filled(l, t, t', k.ino, p) <==> p == k.path;
    assert TakenAt(l, t, t', k.ino, k.path, b);
    assert |k.path| > 1 ==> Parent(k.path) != k.path;
    var log := {b, l.MapBlock(b)} + if |k.path| > 1 then {Addr(l, t, k.ino, Parent(k.path))} else {};
    assert forall c :: c in log <==> LoggedFor(l, t, t', k.ino, k.path, c);
  }

  lemma RootLogged(l: Layout, t: Trees, owner: map<nat, Key>, ino: nat, slot: nat, b: nat)
    requires Forest(l, t, owner) && ino < |t.addrs| && l.IsPath([slot])
    requires Addr(l, t, ino, [slot]) == 0 && b < l.size && !Used(l, t.disk, b)
    ensures var t' := RootGrown(l, t, ino, slot, b);
            Shaped(l, t') && |t'.addrs| == |t.addrs| && Logged(l, t, t', ino, {}, {b, l.MapBlock(b)})
  {
    var k := Key(ino, [slot]);
    var t' := RootGrown(l, t, ino, slot, b);
    assert Grown(l, t, owner, k, b) == t';
    GrownKeepsForest(l, t, owner, k, b);
    hide Addr, Grown, Logged;
    forall c: nat | c < l.size ensures Used(l, t'.disk, c) == (c == b || Used(l, t.disk, c)) {
      AllocateUsed(l, t.disk, b, c);
    }
    OneFilled(l, t, t', k, b);
    assert {b, l.MapBlock(b)} + {} == {b, l.MapBlock(b)};
  }

  lemma IndexLogged(l: Layout, t: Trees, owner: map<nat, Key>, ino: nat, p: Path, idx: nat, b: nat)
    requires Forest(l, t, owner) && ino < |t.addrs| && l.IsPath(p) && l.IsPath(p + [idx])
    requires Addr(l, t, ino, p) != 0 && Addr(l, t, ino, p + [idx]) == 0
    requires b < l.size && !Used(l, t.disk, b)
    ensures 0 < Addr(l, t, ino, p) < l.size && idx < NINDIRECT
    ensures var up := Addr(l, t, ino, p);
            var t' := IndexGrown(l, t, up, idx, b);
            Shaped(l, t') && |t'.addrs| == |t.addrs| && Logged(l, t, t', ino, {}, {b, l.MapBlock(b), up})
  {
    var k := Key(ino, p + [idx]);
    var up := Addr(l, t, ino, p);
    assert Parent(k.path) == p && Last(k.path) == idx;
    assert OwnsBlock(l, t, owner, ino, p);
    AllocateKeepsAddr(l, t, owner, b, ino, p);
    var t' := IndexGrown(l, t, up, idx, b);
    assert Grown(l, t, owner, k, b) == t';
    GrownKeepsForest(l, t, owner, k, b);
    hide Addr, Grown, Logged;
    var d := Allocate(l, t.disk, b);
    UsedElsewhere(l, d, up, PutWord(d[up], idx, b));
    forall c: nat | c < l.size ensures Used(l, t'.disk, c) == (c == b || Used(l, t.disk, c)) {
      AllocateUsed(l, t.disk, b, c);
    }
    OneFilled(l, t, t', k, b);
    assert {b, l.MapBlock(b)} + {up} == {b, l.MapBlock(b), up};
  }

  /** Only positions on the way to `path` have been filled. */
  ghost predicate FilledAlong(l: Layout, t: Trees, t': Trees, ino: nat, path: Path)
    requires Shaped(l, t) && Shaped(l, t') && ino < |t.addrs| == |t'.addrs|
  {
    forall p :: Filled(l, t, t', ino, p) ==> p <= path
  }

  lemma GrewAlong(l: Layout, t: Trees, t': Trees, ino: nat, path: Path)
    requires Shaped(l, t) && Grew(l, t, t', ino, path) && ino < |t.addrs|
    ensures FilledAlong(l, t, t', ino, path)
  {
    hide Addr, ByteAt;
  }

  lemma AlongTransitive(l: Layout, t1: Trees, t2: Trees, t3: Trees, ino: nat, path: Path)
    requires Shaped(l, t1) && Kept(l, t1, t2, ino) && Kept(l, t2, t3, ino) && ino < |t1.addrs|
    requires FilledAlong(l, t1, t2, ino, path) && FilledAlong(l, t2, t3, ino, path)
    ensures FilledAlong(l, t1, t3, ino, path)
  {
    hide Addr, Kept, Filled;
    KeptShape(l, t1, t2, ino);
    KeptShape(l, t2, t3, ino);
    forall p | Filled(l, t1, t3, ino, p) ensures p <= path {
      FilledIn(l, t1, t2, t3, ino, p);
    }
  }

  lemma StoreLogged(l: Layout, t: Trees, owner: map<nat, Key>, ino: nat, p: Path, data: Block)
    requires Forest(l, t, owner) && ino < |t.addrs| && l.IsLeaf(p) && Addr(l, t, ino, p) != 0
    ensures var a := Addr(l, t, ino, p);
            && 0 < a < l.size && Logged(l, t, t.(disk := t.disk[a := data]), ino, {a}, {a})
            && FilledAlong(l, t, t.(disk := t.disk[a := data]), ino, p)
  {
    StoreKeepsForest(l, t, owner, Key(ino, p), data);
    assert OwnsBlock(l, t, owner, ino, p);
    UsedElsewhere(l, t.disk, Addr(l, t, ino, p), data);
    hide Addr, Used;
  }

  // ----- A write of n bytes at off -----

  /** The number of blocks that n bytes at `off` lie in. */
  function SpanBlocks(off: nat, n: nat): nat {
    if n == 0 then 0 else (off + n - 1) / BSIZE - off / BSIZE + 1
  }

  lemma OneMoreSpan(off: nat, tot: nat, m: nat)
    requires m > 0 && (off + tot) % BSIZE + m <= BSIZE && (tot == 0 || (off + tot) % BSIZE == 0)
    ensures SpanBlocks(off, tot + m) == SpanBlocks(off, tot) + 1
    ensures off / BSIZE + SpanBlocks(off, tot) == (off + tot) / BSIZE
  {
  }

  /** The data blocks of file blocks lo to hi - 1. */
  ghost function DataBlocks(l: Layout, t: Trees, ino: nat, lo: nat, hi: nat): (s: set<nat>)
    requires Shaped(l, t) && ino < |t.addrs| && (lo < hi ==> hi <= l.MaxFile())
    ensures |s| <= if lo < hi then hi - lo else 0
    ensures forall bn :: lo <= bn < hi ==> l.IsLeaf(l.PathOf(bn)) && Addr(l, t, ino, l.PathOf(bn)) in s
    decreases hi
  {
    if lo >= hi then {}
    else
      PathOfIsLeaf(l, hi - 1);
      DataBlocks(l, t, ino, lo, hi - 1) + {Addr(l, t, ino, l.PathOf(hi - 1))}
  }

  lemma {:induction false} DataBlockAt(l: Layout, t: Trees, ino: nat, lo: nat, hi: nat, b: nat) returns (bn: nat)
    requires Shaped(l, t) && ino < |t.addrs| && (lo < hi ==> hi <= l.MaxFile())
    requires b in DataBlocks(l, t, ino, lo, hi)
    ensures lo <= bn < hi && l.IsLeaf(l.PathOf(bn)) && b == Addr(l, t, ino, l.PathOf(bn))
    decreases hi
  {
    hide Addr;
    if b in DataBlocks(l, t, ino, lo, hi - 1) {
      bn := DataBlockAt(l, t, ino, lo, hi - 1, b);
    } else {
      bn := hi - 1;
    }
  }

  /** ... and the free map blocks that cover them. */
  ghost function MapBlocks(l: Layout, t: Trees, ino: nat, lo: nat, hi: nat): (s: set<nat>)
    requires Shaped(l, t) && ino < |t.addrs| && (lo < hi ==> hi <= l.MaxFile())
    ensures |s| <= if lo < hi then hi - lo else 0
    ensures forall bn :: lo <= bn < hi ==>
              l.IsLeaf(l.PathOf(bn)) && l.MapBlock(Addr(l, t, ino, l.PathOf(bn))) in s
    decreases hi
  {
    if lo >= hi then {}
    else
      PathOfIsLeaf(l, hi - 1);
      MapBlocks(l, t, ino, lo, hi - 1) + {l.MapBlock(Addr(l, t, ino, l.PathOf(hi - 1)))}
  }

  lemma {:induction false} DataBlocksStay(l: Layout, t: Trees, t': Trees, ino: nat, lo: nat, hi: nat, end: nat)
    requires Shaped(l, t) && Kept(l, t, t', ino) && ino < |t.addrs| && (lo < hi ==> hi <= l.MaxFile())
    requires Mapped(l, t, ino, lo, end) && (lo < hi ==> (hi - 1) * BSIZE < end)
    ensures DataBlocks(l, t', ino, lo, hi) == DataBlocks(l, t, ino, lo, hi)
    decreases hi
  {
    if lo < hi {
      hide Addr;
      DataBlocksStay(l, t, t', ino, lo, hi - 1, end);
    }
  }

  /** Bytes from off to off + n touch file block bn, which lies at or below position p. */
  ghost predicate OnTheWay(l: Layout, off: nat, n: nat, p: Path, bn: nat)
    requires l.Valid()
  {
    off / BSIZE <= bn < off / BSIZE + SpanBlocks(off, n) && bn < l.MaxFile() && p <= l.PathOf(bn)
  }

  ghost predicate Reached(l: Layout, off: nat, n: nat, p: Path)
    requires l.Valid()
  {
    exists bn: nat :: OnTheWay(l, off, n, p, bn)
  }

  /** Only positions on the way to the blocks of the write have been filled. */
  ghost predicate FilledWithin(l: Layout, t: Trees, t': Trees, ino: nat, off: nat, n: nat)
    requires Shaped(l, t) && Shaped(l, t') && ino < |t.addrs| == |t'.addrs|
  {
    forall p :: Filled(l, t, t', ino, p) ==> Reached(l, off, n, p)
  }

  /** What writei logs for the blocks of the tree: log_write was called for exactly the data
      blocks written and for what was filled on the way to them. */
  ghost predicate WriteLogged(l: Layout, t: Trees, t': Trees, ino: nat, off: nat, n: nat, log: set<nat>)
    requires Shaped(l, t) && Shaped(l, t') && ino < |t.addrs| == |t'.addrs|
  {
    var lo := off / BSIZE;
    && off + n <= l.MaxFile() * BSIZE
    && FilledWithin(l, t, t', ino, off, n)
    && (n > 0 ==> lo + SpanBlocks(off, n) <= l.MaxFile())
    && Logged(l, t, t', ino, DataBlocks(l, t', ino, lo, lo + SpanBlocks(off, n)), log)
  }

  lemma NothingWriteLogged(l: Layout, t: Trees, ino: nat, off: nat)
    requires Shaped(l, t) && ino < |t.addrs| && off <= l.MaxFile() * BSIZE
    ensures WriteLogged(l, t, t, ino, off, 0, {})
  {
    hide Addr;
    NothingLogged(l, t, ino);
  }

  lemma FilledWithinMore(l: Layout, t0: Trees, t1: Trees, t2: Trees, ino: nat, off: nat, tot: nat, m: nat)
    requires Shaped(l, t0) && Kept(l, t0, t1, ino) && Kept(l, t1, t2, ino) && ino < |t0.addrs|
    requires m > 0 && (off + tot) % BSIZE + m <= BSIZE && (tot == 0 || (off + tot) % BSIZE == 0)
    requires (off + tot) / BSIZE < l.MaxFile() && FilledWithin(l, t0, t1, ino, off, tot)
    requires FilledAlong(l, t1, t2, ino, l.PathOf((off + tot) / BSIZE))
    ensures FilledWithin(l, t0, t2, ino, off, tot + m)
  {
    hide Addr, Filled;
    OneMoreSpan(off, tot, m);
    forall p | Filled(l, t0, t2, ino, p) ensures Reached(l, off, tot + m, p) {
      FilledIn(l, t0, t1, t2, ino, p);
      if Filled(l, t0, t1, ino, p) {
        var bn :| OnTheWay(l, off, tot, p, bn);
        assert OnTheWay(l, off, tot + m, p, bn);
      } else {
        assert OnTheWay(l, off, tot + m, p, (off + tot) / BSIZE);
      }
    }
  }

  lemma NothingTaken(l: Layout, t: Trees, ino: nat, off: nat, n: nat)
    requires Shaped(l, t) && ino < |t.addrs|
    ensures Kept(l, t, t, ino) && Taken(l, t, t, ino) && FilledWithin(l, t, t, ino, off, n)
  {
    hide Addr, Used;
  }

  /** The same for a span that may have failed half way. */
  lemma TakenMore(l: Layout, t0: Trees, t1: Trees, t2: Trees, ino: nat, off: nat, tot: nat, m: nat, n: nat,
                  data: set<nat>, log: set<nat>, more: set<nat>)
    requires Shaped(l, t0) && Kept(l, t0, t1, ino) && Kept(l, t1, t2, ino) && ino < |t0.addrs|
    requires m > 0 && (off + tot) % BSIZE + m <= BSIZE && (tot == 0 || (off + tot) % BSIZE == 0) && tot + m <= n
    requires (off + tot) / BSIZE < l.MaxFile() && WriteLogged(l, t0, t1, ino, off, tot, log)
    requires Logged(l, t1, t2, ino, data, more) && FilledAlong(l, t1, t2, ino, l.PathOf((off + tot) / BSIZE))
    ensures Kept(l, t0, t2, ino) && Taken(l, t0, t2, ino) && FilledWithin(l, t0, t2, ino, off, n)
  {
    hide Addr, Kept, FilledAlong, Filled, Taken, SpanBlocks, Layout.PathOf, Layout.IsLeaf;
    OneMoreSpan(off, tot, m);
    KeptShape(l, t0, t1, ino);
    KeptShape(l, t1, t2, ino);
    KeptTransitive(l, t0, t1, t2, ino);
    FilledWithinMore(l, t0, t1, t2, ino, off, tot, m);
    var lo := off / BSIZE;
    LoggedTransitive(l, t0, t1, t2, ino, DataBlocks(l, t1, ino, lo, lo + SpanBlocks(off, tot)), data, log, more);
    MoreSpans(off, tot + m, n);
    forall p | Filled(l, t0, t2, ino, p) ensures Reached(l, off, n, p) {
      assert Reached(l, off, tot + m, p);
      var bn: nat :| OnTheWay(l, off, tot + m, p, bn);
      assert OnTheWay(l, off, n, p, bn);
    }
  }

  lemma MoreSpans(off: nat, n: nat, n': nat)
    requires n <= n'
    ensures SpanBlocks(off, n) <= SpanBlocks(off, n')
  {
  }

  /** One span more: log_write of its data block and of what bmap filled on the way to it. */
  lemma WriteLoggedMore(l: Layout, t0: Trees, t1: Trees, t2: Trees, ino: nat, off: nat, tot: nat, m: nat,
                        a: nat, log: set<nat>, more: set<nat>)
    requires Shaped(l, t0) && Kept(l, t0, t1, ino) && Kept(l, t1, t2, ino) && ino < |t0.addrs|
    requires m > 0 && (off + tot) % BSIZE + m <= BSIZE && (tot == 0 || (off + tot) % BSIZE == 0)
    requires off + tot + m <= l.MaxFile() * BSIZE && (off + tot) / BSIZE < l.MaxFile()
    requires WriteLogged(l, t0, t1, ino, off, tot, log)
    requires Mapped(l, t1, ino, off / BSIZE, if tot == 0 then off / BSIZE * BSIZE else off + tot)
    requires Logged(l, t1, t2, ino, {a}, more) && FilledAlong(l, t1, t2, ino, l.PathOf((off + tot) / BSIZE))
    requires l.IsLeaf(l.PathOf((off + tot) / BSIZE)) && a == Addr(l, t2, ino, l.PathOf((off + tot) / BSIZE))
    ensures WriteLogged(l, t0, t2, ino, off, tot + m, log + more)
  {
    hide Addr, Logged, Kept, Mapped, SpanBlocks, FilledWithin, FilledAlong, Layout.PathOf, Layout.IsLeaf;
    KeptShape(l, t0, t1, ino);
    KeptShape(l, t1, t2, ino);
    var lo := off / BSIZE;
    OneMoreSpan(off, tot, m);
    FilledWithinMore(l, t0, t1, t2, ino, off, tot, m);
    var hi := lo + SpanBlocks(off, tot);
    assert lo < hi ==> (hi - 1) * BSIZE < off + tot;
    DataBlocksStay(l, t1, t2, ino, lo, hi, if tot == 0 then off / BSIZE * BSIZE else off + tot);
    LoggedTransitive(l, t0, t1, t2, ino, DataBlocks(l, t1, ino, lo, hi), {a}, log, more);
    assert DataBlocks(l, t2, ino, lo, hi + 1) == DataBlocks(l, t1, ino, lo, hi) + {a};
  }

  // ----- How many blocks that makes -----

  lemma {:induction false} SubsetSize(a: set<nat>, b: set<nat>)
    requires a <= b
    ensures |a| <= |b|
  {
    assert b == a + (b - a);
  }

  /** The single indirect block of an inode, if it has one, and the free map block for it. */
  ghost function IndirectBlocks(l: Layout, t: Trees, ino: nat): (s: set<nat>)
    requires Shaped(l, t) && ino < |t.addrs|
    ensures |s| <= 2
  {
    var up := t.addrs[ino][l.ndirect];
    if up == 0 then {} else {up, l.MapBlock(up)}
  }

  lemma OneTierPath(l: Layout, p: Path, bn: nat)
    requires l.Valid() && l.tiers == 1 && bn < l.MaxFile() && l.IsPath(p) && p <= l.PathOf(bn)
    ensures p == l.PathOf(bn) || p == [l.ndirect]
    ensures |p| > 1 ==> Parent(p) == [l.ndirect]
  {
    if |p| == 1 {
      assert p == [l.PathOf(bn)[0]];
    } else {
      assert p == l.PathOf(bn);
    }
  }

  /** A block that filling p logs, p on the way to file block bn. */
  lemma LoggedForWithin(l: Layout, t: Trees, t': Trees, ino: nat, p: Path, b: nat, bn: nat)
    requires Shaped(l, t) && Kept(l, t, t', ino) && ino < |t.addrs| && l.tiers == 1
    requires LoggedFor(l, t, t', ino, p, b) && bn < l.MaxFile() && p <= l.PathOf(bn)
    ensures b in IndirectBlocks(l, t', ino)
         || (p == l.PathOf(bn) && (b == Addr(l, t', ino, p) || b == l.MapBlock(Addr(l, t', ino, p))))
  {
    OneTierPath(l, p, bn);
    if |p| > 1 {
      assert Addr(l, t', ino, Parent(p)) == t'.addrs[ino][l.ndirect];
      assert Addr(l, t', ino, p) != 0 ==> Addr(l, t', ino, Parent(p)) != 0;
    }
    if p == [l.ndirect] {
      assert Addr(l, t', ino, p) == t'.addrs[ino][l.ndirect];
    }
  }

  /** The free map blocks in question: not that of the first block of an unaligned write, which
      a file without holes has already. */
  function FirstNew(off: nat): nat {
    if off % BSIZE != 0 then off / BSIZE + 1 else off / BSIZE
  }

  /** The blocks that writei may log in a file without holes: data blocks, the free map blocks
      of the new ones, and the indirect block with its free map block. */
  lemma WriteLogWithin(l: Layout, t: Trees, t': Trees, ino: nat, size: nat, off: nat, n: nat, log: set<nat>)
    requires Shaped(l, t) && Kept(l, t, t', ino) && ino < |t.addrs| && l.tiers == 1
    requires off <= size && NoHoles(l, t, ino, size) && n > 0 && WriteLogged(l, t, t', ino, off, n, log)
    ensures var lo, hi := off / BSIZE, off / BSIZE + SpanBlocks(off, n);
            log <= DataBlocks(l, t', ino, lo, hi) + MapBlocks(l, t', ino, FirstNew(off), hi) + IndirectBlocks(l, t', ino)
  {
    hide Addr, Kept, SpanBlocks, IndirectBlocks, Layout.PathOf, Layout.IsLeaf, NoHoles, Taken;
    KeptShape(l, t, t', ino);
    var lo, hi := off / BSIZE, off / BSIZE + SpanBlocks(off, n);
    var all := DataBlocks(l, t', ino, lo, hi) + MapBlocks(l, t', ino, FirstNew(off), hi) + IndirectBlocks(l, t', ino);
    hide DataBlocks, MapBlocks;
    forall b | b in log && b !in DataBlocks(l, t', ino, lo, hi) ensures b in all {
      var p :| LoggedFor(l, t, t', ino, p, b);
      assert Reached(l, off, n, p);
      var bn: nat :| OnTheWay(l, off, n, p, bn);
      LoggedForWithin(l, t, t', ino, p, b, bn);
      if bn * BSIZE < size {
        NoHoleAt(l, t, ino, size, bn);
      } else {
        assert bn >= FirstNew(off);
      }
    }
  }

  lemma SpansOf(off: nat, n: nat, k: nat)
    requires 0 < n <= k * BSIZE
    ensures var hi := off / BSIZE + SpanBlocks(off, n);
            off / BSIZE < hi && FirstNew(off) <= hi && SpanBlocks(off, n) + (hi - FirstNew(off)) <= 2 * k + 1
  {
    var q, r := off / BSIZE, off % BSIZE;
    var last := (off + n - 1) / BSIZE;
    assert off + n - 1 == BSIZE * last + (off + n - 1) % BSIZE;
    assert q <= last <= q + k;
    if r == 0 {
      assert last < q + k;
    }
  }

  lemma WriteLogBound(l: Layout, t: Trees, t': Trees, ino: nat, size: nat, off: nat, n: nat, log: set<nat>, k: nat)
    requires Shaped(l, t) && Kept(l, t, t', ino) && ino < |t.addrs| && l.tiers == 1
    requires off <= size && NoHoles(l, t, ino, size) && n > 0 && WriteLogged(l, t, t', ino, off, n, log)
    requires n <= k * BSIZE
    ensures |log| <= 2 * k + 3
  {
    var lo, hi := off / BSIZE, off / BSIZE + SpanBlocks(off, n);
    SpansOf(off, n, k);
    assert hi <= l.MaxFile();
    hide *;
    WriteLogWithin(l, t, t', ino, size, off, n, log);
    var data, maps := DataBlocks(l, t', ino, lo, hi), MapBlocks(l, t', ino, FirstNew(off), hi);
    SubsetSize(log, data + maps + IndirectBlocks(l, t', ino));
  }

  lemma NothingToLog(l: Layout, t: Trees, t': Trees, ino: nat, off: nat, log: set<nat>)
    requires Shaped(l, t) && Shaped(l, t') && ino < |t.addrs| == |t'.addrs|
    requires WriteLogged(l, t, t', ino, off, 0, log)
    ensures log == {}
  {
    hide Addr;
    assert forall p :: !Reached(l, off, 0, p);
  }

  // ----- The whole of writei -----

  /** The inode block, if n bytes at off make the file longer. */
  function InodeBlock(iblock: nat, size: nat, off: nat, n: nat): (s: set<nat>)
    ensures |s| <= 1
  {
    if n > 0 && off + n > size then {iblock} else {}
  }

  lemma InodeBlockIf(iblock: nat, size: nat, off: nat, n: nat, log: set<nat>)
    ensures log + InodeBlock(iblock, size, off, n) == if n > 0 && off + n > size then log + {iblock} else log
  {
  }

  /** The blocks logged by writei: those of the tree, and the inode block if the file grew. */
  ghost predicate WriteiLogged(l: Layout, t: Trees, t': Trees, ino: nat, iblock: nat, size: nat, off: nat, n: nat, log: set<nat>)
    requires Shaped(l, t) && Shaped(l, t') && ino < |t.addrs| == |t'.addrs|
  {
    var lo, hi := off / BSIZE, off / BSIZE + SpanBlocks(off, n);
    && FilledWithin(l, t, t', ino, off, n)
    && (n > 0 ==> hi <= l.MaxFile())
    && Logged(l, t, t', ino, DataBlocks(l, t', ino, lo, hi) + InodeBlock(iblock, size, off, n), log)
  }

  lemma WithInodeBlock(l: Layout, t: Trees, t': Trees, ino: nat, iblock: nat, size: nat, off: nat, n: nat, log: set<nat>)
    requires Shaped(l, t) && Kept(l, t, t', ino) && ino < |t.addrs|
    requires WriteLogged(l, t, t', ino, off, n, log)
    ensures WriteiLogged(l, t, t', ino, iblock, size, off, n, log + InodeBlock(iblock, size, off, n))
  {
    hide Addr, Kept, SpanBlocks, FilledWithin, Taken, LoggedFor, DataBlocks;
    KeptShape(l, t, t', ino);
  }

  lemma WriteiLogBound(l: Layout, t: Trees, t': Trees, ino: nat, iblock: nat, size: nat, off: nat, n: nat, log: set<nat>, k: nat)
    requires Shaped(l, t) && Kept(l, t, t', ino) && ino < |t.addrs| && l.tiers == 1
    requires off <= size && NoHoles(l, t, ino, size) && WriteLogged(l, t, t', ino, off, n, log)
    requires n <= k * BSIZE
    ensures |log + InodeBlock(iblock, size, off, n)| <= 2 * k + 4
    ensures |log + InodeBlock(iblock, size, off, n) - {iblock}| <= 2 * k + 3
  {
    hide Addr, Kept, SpanBlocks, NoHoles, WriteLogged;
    KeptShape(l, t, t', ino);
    if n > 0 {
      WriteLogBound(l, t, t', ino, size, off, n, log, k);
    } else {
      NothingToLog(l, t, t', ino, off, log);
    }
    SubsetSize(log + InodeBlock(iblock, size, off, n) - {iblock}, log);
  }

  /** In a file without holes. */
  lemma NoHolesYet(l: Layout, t: Trees, t': Trees, ino: nat, iblock: nat, size: nat, off: nat, n: nat, log: set<nat>)
    requires Shaped(l, t) && Kept(l, t, t', ino) && ino < |t.addrs| && off <= size
    requires WriteLogged(l, t, t', ino, off, n, log) && (n > 0 ==> Mapped(l, t', ino, off / BSIZE, off + n))
    ensures NoHoles(l, t, ino, size) ==> NoHoles(l, t', ino, if off + n > size then off + n else size)
    ensures NoHoles(l, t, ino, size) && l.tiers == 1 ==> forall k: nat :: n <= k * BSIZE ==>
              && |log + InodeBlock(iblock, size, off, n)| <= 2 * k + 4
              && |log + InodeBlock(iblock, size, off, n) - {iblock}| <= 2 * k + 3
  {
    hide Addr, Kept, SpanBlocks, NoHoles, Mapped, WriteLogged, InodeBlock;
    if NoHoles(l, t, ino, size) {
      StillNoHoles(l, t, t', ino, size, off, off + n);
      forall k: nat | l.tiers == 1 && n <= k * BSIZE
        ensures |log + InodeBlock(iblock, size, off, n)| <= 2 * k + 4
        ensures |log + InodeBlock(iblock, size, off, n) - {iblock}| <= 2 * k + 3
      {
        WriteiLogBound(l, t, t', ino, iblock, size, off, n, log, k);
      }
    }
  }
}
