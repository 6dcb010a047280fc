/** itrunc: which blocks have been given back, stage by stage. */
module FsTrunc {
  import opened DiskBytes
  import opened FsTree
  import opened FsContent

  /** bfree on a block in use: its bit is cleared. */
  function Free(l: Layout, d: Disk, b: nat): (r: Disk)
    requires l.Valid() && |d| == l.size && b < l.size
    ensures |r| == |d|
  {
    d[l.MapBlock(b) := FlipMapBit(d[l.MapBlock(b)], b)]
  }

  /** Only free map blocks differ. */
  ghost predicate SameData(l: Layout, d: Disk, d': Disk) {
    |d| == l.size == |d'| && forall b :: l.datastart <= b < l.size ==> d'[b] == d[b]
  }

  lemma FreeEffect(l: Layout, d: Disk, b: nat)
    requires l.Valid() && |d| == l.size && b < l.size && Used(l, d, b)
    ensures SameData(l, d, Free(l, d, b))
    ensures forall c :: 0 <= c < l.size ==> Used(l, Free(l, d, b), c) == (Used(l, d, c) && c != b)
  {
    assert b / BPB <= l.size / BPB;
    forall c: nat | c < l.size ensures Used(l, Free(l, d, b), c) == (Used(l, d, c) && c != b) {
      if l.MapBlock(c) == l.MapBlock(b) {
        FlipMapBitFlips(d[l.MapBlock(b)], b, c);
      }
    }
  }

  /** How far itrunc has come: direct slots below i, entries of the indirect block below j,
      and the indirect block itself. */
  datatype Stage = Stage(i: nat, j: nat, top: bool) {
    predicate Covers(l: Layout, p: Path) {
      || (|p| == 1 && p[0] < i)
      || (|p| == 2 && p[0] == l.ndirect && p[1] < j)
      || (top && p == [l.ndirect])
    }
  }

  /** Block c hung at a position that itrunc has passed. */
  ghost predicate Gone(l: Layout, t: Trees, owner: map<nat, Key>, ino: nat, s: Stage, c: nat)
    requires Shaped(l, t) && ino < |t.addrs|
  {
    && c != 0 && c in owner && owner[c].ino == ino && l.IsPath(owner[c].path)
    && Addr(l, t, ino, owner[c].path) == c && s.Covers(l, owner[c].path)
  }

  ghost predicate FreedSoFar(l: Layout, t: Trees, owner: map<nat, Key>, ino: nat, s: Stage, d: Disk)
    requires Shaped(l, t) && ino < |t.addrs|
  {
    && SameData(l, t.disk, d)
    && forall c :: 0 <= c < l.size ==> Used(l, d, c) == (Used(l, t.disk, c) && !Gone(l, t, owner, ino, s, c))
  }

  /** Passing one more position: an empty one needs nothing, the block of another is still
      marked, so bfree does not panic, and clearing its bit is all there is to do. */
  lemma FreeOneMore(l: Layout, t: Trees, owner: map<nat, Key>, ino: nat, s: Stage, s': Stage, p: Path, d: Disk)
    requires Forest(l, t, owner) && ino < |t.addrs| && l.IsPath(p) && FreedSoFar(l, t, owner, ino, s, d)
    requires !s.Covers(l, p) && forall q :: l.IsPath(q) ==> (s'.Covers(l, q) <==> s.Covers(l, q) || q == p)
    ensures var b := Addr(l, t, ino, p);
            if b == 0 then FreedSoFar(l, t, owner, ino, s', d)
            else l.datastart <= b < l.size && Used(l, d, b) && FreedSoFar(l, t, owner, ino, s', Free(l, d, b))
  {
    hide Addr, Used;
    var b := Addr(l, t, ino, p);
    assert OwnsBlock(l, t, owner, ino, p);
    forall c: nat ensures Gone(l, t, owner, ino, s', c) == (Gone(l, t, owner, ino, s, c) || (b != 0 && c == b)) {
    }
    if b != 0 {
      FreeEffect(l, d, b);
    }
  }

  lemma NothingFreed(l: Layout, t: Trees, owner: map<nat, Key>, ino: nat)
    requires Shaped(l, t) && ino < |t.addrs|
    ensures FreedSoFar(l, t, owner, ino, Stage(0, 0, false), t.disk)
  {
  }

  lemma RootAddr(l: Layout, t: Trees, ino: nat, slot: nat)
    requires Shaped(l, t) && ino < |t.addrs| && slot < l.Slots()
    ensures l.IsPath([slot]) && Addr(l, t, ino, [slot]) == t.addrs[ino][slot]
  {
  }

  lemma FreedKeepsData(l: Layout, t: Trees, owner: map<nat, Key>, ino: nat, s: Stage, d: Disk, b: nat)
    requires Shaped(l, t) && ino < |t.addrs| && FreedSoFar(l, t, owner, ino, s, d)
    requires l.datastart <= b < l.size
    ensures |d| == l.size && d[b] == t.disk[b]
  {
  }

  /** Without an indirect block the second half of itrunc has nothing to do. */
  lemma NoIndirect(l: Layout, t: Trees, owner: map<nat, Key>, ino: nat, d: Disk)
    requires Shaped(l, t) && ino < |t.addrs| && t.addrs[ino][l.ndirect] == 0
    requires FreedSoFar(l, t, owner, ino, Stage(l.ndirect, 0, false), d)
    ensures FreedSoFar(l, t, owner, ino, Stage(l.ndirect, NINDIRECT, true), d)
  {
    var s, s' := Stage(l.ndirect, 0, false), Stage(l.ndirect, NINDIRECT, true);
    forall c: nat | c < l.size ensures Gone(l, t, owner, ino, s', c) == Gone(l, t, owner, ino, s, c) {
      if Gone(l, t, owner, ino, s', c) {
        RootOfMapped(l, t, ino, owner[c].path);
      }
    }
  }

  /** The trees once the slots up to the single indirect one are cleared. */
  ghost function Truncated(l: Layout, t: Trees, ino: nat, d: Disk): Trees
    requires Shaped(l, t) && ino < |t.addrs|
  {
    var slots: seq<nat> := seq(l.Slots(), s requires 0 <= s < l.Slots() => if s <= l.ndirect then 0 else t.addrs[ino][s]);
    Trees(d, t.addrs[ino := slots])
  }

  lemma {:induction false} TruncatedAddr(l: Layout, t: Trees, owner: map<nat, Key>, ino: nat, d: Disk, i: nat, p: Path)
    requires Forest(l, t, owner) && ino < |t.addrs| && SameData(l, t.disk, d)
    requires i < |t.addrs| && l.IsPath(p)
    ensures Addr(l, Truncated(l, t, ino, d), i, p) == if i == ino && p[0] <= l.ndirect then 0 else Addr(l, t, i, p)
    decreases |p|
  {
    if |p| > 1 {
      ParentIsPath(l, p);
      TruncatedAddr(l, t, owner, ino, d, i, Parent(p));
      assert OwnsBlock(l, t, owner, i, Parent(p));
    }
  }

  /** What itrunc leaves: the forest, minus the positions it walked. */
  lemma TruncatedForest(l: Layout, t: Trees, owner: map<nat, Key>, ino: nat, d: Disk)
    requires Forest(l, t, owner) && ino < |t.addrs|
    requires FreedSoFar(l, t, owner, ino, Stage(l.ndirect, NINDIRECT, true), d)
    ensures var t' := Truncated(l, t, ino, d);
            && Shaped(l, t') && Forest(l, t', owner)
            && (forall i, p :: 0 <= i < |t.addrs| && l.IsPath(p) ==>
                  Addr(l, t', i, p) == if i == ino && p[0] <= l.ndirect then 0 else Addr(l, t, i, p))
            && (forall i, k :: 0 <= i < |t.addrs| && i != ino && 0 <= k < l.MaxFile() * BSIZE ==>
                  ByteAt(l, t', i, k) == ByteAt(l, t, i, k))
  {
    hide Addr, Used;
    var t' := Truncated(l, t, ino, d);
    var s := Stage(l.ndirect, NINDIRECT, true);
    forall i: nat, p | i < |t.addrs| && l.IsPath(p)
      ensures Addr(l, t', i, p) == if i == ino && p[0] <= l.ndirect then 0 else Addr(l, t, i, p)
      ensures OwnsBlock(l, t', owner, i, p)
    {
      TruncatedAddr(l, t, owner, ino, d, i, p);
      assert OwnsBlock(l, t, owner, i, p);
    }
    forall b | 0 <= b < l.datastart ensures Used(l, d, b) {
      assert Gone(l, t, owner, ino, s, b) ==> OwnsBlock(l, t, owner, ino, owner[b].path);
    }
    forall i: nat, k: nat | i < |t.addrs| && i != ino && k < l.MaxFile() * BSIZE
      ensures ByteAt(l, t', i, k) == ByteAt(l, t, i, k)
    {
      PathOfIsLeaf(l, k / BSIZE);
      assert OwnsBlock(l, t, owner, i, l.PathOf(k / BSIZE));
    }
  }

  /** Nobody else's contents change. */
  lemma TruncatedContent(l: Layout, t: Trees, owner: map<nat, Key>, ino: nat, d: Disk)
    requires Forest(l, t, owner) && ino < |t.addrs|
    requires FreedSoFar(l, t, owner, ino, Stage(l.ndirect, NINDIRECT, true), d)
    ensures Shaped(l, Truncated(l, t, ino, d))
    ensures forall i, sz :: 0 <= i < |t.addrs| && i != ino && 0 <= sz <= l.MaxFile() * BSIZE ==>
              Content(l, Truncated(l, t, ino, d), i, sz) == Content(l, t, i, sz)
  {
    TruncatedForest(l, t, owner, ino, d);
    hide ByteAt, Forest, FreedSoFar, Truncated;
  }

  /** Every block of the inode is given back exactly when nothing hangs below the slots that
      itrunc does not walk: always with one indirect tier, not with three. */
  lemma TruncationIsCompleteIff(l: Layout, t: Trees, owner: map<nat, Key>, ino: nat, d: Disk)
    requires Forest(l, t, owner) && ino < |t.addrs|
    requires FreedSoFar(l, t, owner, ino, Stage(l.ndirect, NINDIRECT, true), d)
    ensures (forall p :: l.IsPath(p) && Addr(l, t, ino, p) != 0 ==>
               0 < Addr(l, t, ino, p) < l.size && !Used(l, d, Addr(l, t, ino, p)))
        <==> (forall s :: l.ndirect < s < l.Slots() ==> t.addrs[ino][s] == 0)
  {
    var st := Stage(l.ndirect, NINDIRECT, true);
    if forall s :: l.ndirect < s < l.Slots() ==> t.addrs[ino][s] == 0 {
      forall p | l.IsPath(p) && Addr(l, t, ino, p) != 0
        ensures 0 < Addr(l, t, ino, p) < l.size && !Used(l, d, Addr(l, t, ino, p))
      {
        assert OwnsBlock(l, t, owner, ino, p);
        RootOfMapped(l, t, ino, p);
        assert st.Covers(l, p);
        assert Gone(l, t, owner, ino, st, Addr(l, t, ino, p));
      }
    } else {
      var s :| l.ndirect < s < l.Slots() && t.addrs[ino][s] != 0;
      assert l.IsPath([s]) && Addr(l, t, ino, [s]) == t.addrs[ino][s];
      assert OwnsBlock(l, t, owner, ino, [s]);
      assert !Gone(l, t, owner, ino, st, t.addrs[ino][s]);
    }
  }

  /** With more than one tier it does happen: let bmap fill the slot after the single indirect
      one of any file, and that block is still marked when itrunc is done. */
  lemma TruncationCanLeave(l: Layout, t: Trees, owner: map<nat, Key>, ino: nat, b: nat, d: Disk)
    requires Forest(l, t, owner) && ino < |t.addrs| && l.tiers >= 2
    requires t.addrs[ino][l.ndirect + 1] == 0 && b < l.size && !Used(l, t.disk, b)
    requires var t' := RootGrown(l, t, ino, l.ndirect + 1, b);
             FreedSoFar(l, t', owner[b := Key(ino, [l.ndirect + 1])], ino, Stage(l.ndirect, NINDIRECT, true), d)
    ensures Forest(l, RootGrown(l, t, ino, l.ndirect + 1, b), owner[b := Key(ino, [l.ndirect + 1])])
    ensures RootGrown(l, t, ino, l.ndirect + 1, b).addrs[ino][l.ndirect + 1] == b && Used(l, d, b)
  {
    var slot := l.ndirect + 1;
    var t', owner' := RootGrown(l, t, ino, slot, b), owner[b := Key(ino, [slot])];
    RootAddr(l, t, ino, slot);
    GrownAtRoot(l, t, owner, ino, slot, b, [slot]);
    hide Addr, Used;
    assert OwnsBlock(l, t', owner', ino, [slot]);
    assert !Gone(l, t', owner', ino, Stage(l.ndirect, NINDIRECT, true), b);
  }

  lemma {:induction false} RootOfMapped(l: Layout, t: Trees, ino: nat, p: Path)
    requires Shaped(l, t) && ino < |t.addrs| && l.IsPath(p) && Addr(l, t, ino, p) != 0
    ensures t.addrs[ino][p[0]] != 0
    ensures p[0] == l.ndirect ==> |p| <= 2
    decreases |p|
  {
    if |p| > 1 {
      ParentIsPath(l, p);
      RootOfMapped(l, t, ino, Parent(p));
    }
  }

  ghost predicate HangsAt(l: Layout, t: Trees, ino: nat, p: Path, c: nat)
    requires Shaped(l, t) && ino < |t.addrs|
  {
    l.IsPath(p) && p[0] <= l.ndirect && Addr(l, t, ino, p) == c
  }

  /** At the end the blocks given back are exactly those that the inode reaches through its
      direct slots and its indirect block, and the indirect block itself. */
  lemma GoneIff(l: Layout, t: Trees, owner: map<nat, Key>, ino: nat, c: nat)
    requires Forest(l, t, owner) && ino < |t.addrs|
    ensures Gone(l, t, owner, ino, Stage(l.ndirect, NINDIRECT, true), c) <==> c != 0 && exists p :: HangsAt(l, t, ino, p, c)
  {
    hide Addr, Used;
    if Gone(l, t, owner, ino, Stage(l.ndirect, NINDIRECT, true), c) {
      assert HangsAt(l, t, ino, owner[c].path, c);
    }
    if c != 0 && exists p :: HangsAt(l, t, ino, p, c) {
      var p :| HangsAt(l, t, ino, p, c);
      assert OwnsBlock(l, t, owner, ino, p);
      assert p[0] == l.ndirect && |p| == 1 ==> p == [l.ndirect];
    }
  }
}
