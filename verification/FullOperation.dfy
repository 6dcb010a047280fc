/** An operation of filewrite can use its reservation up: a chunk that is not aligned lies in
    four blocks, and each block it allocates may have its bit in a free map block of its own. */
module FullOperation {
  import opened DiskBytes
  import opened FsTree
  import opened FsContent
  import opened FsDirty
  import opened FsTrunc
  import FS = FileSystem
  import FileWrite

  /** A largest chunk at `off`, within the last direct block, of a file that ends in it. */
  ghost predicate LastDirect(l: Layout, t: Trees, ino: nat, size: nat, off: nat)
    requires Shaped(l, t) && ino < |t.addrs|
  {
    && l.tiers == 1 && l.ndirect > 0 && off <= size < off + FileWrite.MAXCHUNK
    && off / BSIZE == l.ndirect - 1 && off % BSIZE != 0
    && t.addrs[ino][l.ndirect - 1] != 0 && t.addrs[ino][l.ndirect] == 0
  }

  /** The block that hangs in the indirect slot, or at entry j of the indirect block. */
  ghost function Under(l: Layout, t: Trees, ino: nat, j: nat): nat
    requires Shaped(l, t) && ino < |t.addrs| && j < NINDIRECT
  {
    assert l.IsPath([l.ndirect, j]);
    Addr(l, t, ino, [l.ndirect, j])
  }

  ghost predicate ApartInMap(l: Layout, a: nat, b: nat, c: nat, d: nat) {
    && l.MapBlock(a) != l.MapBlock(b) && l.MapBlock(a) != l.MapBlock(c) && l.MapBlock(a) != l.MapBlock(d)
    && l.MapBlock(b) != l.MapBlock(c) && l.MapBlock(b) != l.MapBlock(d) && l.MapBlock(c) != l.MapBlock(d)
  }

  /** The inode block, the four data blocks and the indirect block. */
  ghost function TreeBlocks(l: Layout, t: Trees, ino: nat, iblock: nat): set<nat>
    requires Shaped(l, t) && ino < |t.addrs| && l.ndirect > 0
  {
    {iblock, t.addrs[ino][l.ndirect - 1], t.addrs[ino][l.ndirect], Under(l, t, ino, 0), Under(l, t, ino, 1), Under(l, t, ino, 2)}
  }

  /** The free map blocks of all but the first data block. */
  ghost function NewBits(l: Layout, t: Trees, ino: nat): set<nat>
    requires Shaped(l, t) && ino < |t.addrs|
  {
    {l.MapBlock(t.addrs[ino][l.ndirect]), l.MapBlock(Under(l, t, ino, 0)), l.MapBlock(Under(l, t, ino, 1)),
     l.MapBlock(Under(l, t, ino, 2))}
  }

  lemma ChunkPaths(l: Layout, off: nat)
    requires l.Valid() && l.tiers == 1 && l.ndirect > 0 && off / BSIZE == l.ndirect - 1 && off % BSIZE != 0
    ensures SpanBlocks(off, FileWrite.MAXCHUNK) == 4 && l.MaxFile() == l.ndirect + 128
    ensures l.PathOf(l.ndirect - 1) == [l.ndirect - 1] && l.PathOf(l.ndirect) == [l.ndirect, 0]
    ensures l.PathOf(l.ndirect + 1) == [l.ndirect, 1] && l.PathOf(l.ndirect + 2) == [l.ndirect, 2]
  {
  }

  /** What a chunk there logs: four data blocks, the indirect block, and their map blocks. */
  lemma ChunkLog(l: Layout, t: Trees, t': Trees, ino: nat, iblock: nat, size: nat, off: nat, log: set<nat>)
    requires Shaped(l, t) && Kept(l, t, t', ino) && ino < |t.addrs| && LastDirect(l, t, ino, size, off)
    requires WriteiLogged(l, t, t', ino, iblock, size, off, FileWrite.MAXCHUNK, log)
    requires Under(l, t', ino, 0) != 0 && Under(l, t', ino, 1) != 0 && Under(l, t', ino, 2) != 0
    ensures TreeBlocks(l, t', ino, iblock) + NewBits(l, t', ino) <= log
  {
    ChunkPaths(l, off);
    var lo := l.ndirect - 1;
    var data := DataBlocks(l, t', ino, lo, lo + 4);
    assert lo <= lo < lo + 4 && lo <= lo + 1 < lo + 4 && lo <= lo + 2 < lo + 4 && lo <= lo + 3 < lo + 4;
    assert Addr(l, t', ino, [lo]) == t'.addrs[ino][lo];
    assert Addr(l, t, ino, [l.ndirect]) == t.addrs[ino][l.ndirect];
    assert Addr(l, t', ino, [l.ndirect]) == t'.addrs[ino][l.ndirect];
    assert forall j :: 0 <= j < 3 ==> Parent([l.ndirect, j]) == [l.ndirect];
    assert Filled(l, t, t', ino, [l.ndirect, 0]);
    assert Filled(l, t, t', ino, [l.ndirect, 1]);
    assert Filled(l, t, t', ino, [l.ndirect, 2]);
    assert Filled(l, t, t', ino, [l.ndirect]);
    hide Addr, DataBlocks, Kept, FilledWithin, Taken;
    var a, b, c := Under(l, t', ino, 0), Under(l, t', ino, 1), Under(l, t', ino, 2);
    assert LoggedFor(l, t, t', ino, [l.ndirect], l.MapBlock(t'.addrs[ino][l.ndirect]));
    assert LoggedFor(l, t, t', ino, [l.ndirect], t'.addrs[ino][l.ndirect]);
    assert LoggedFor(l, t, t', ino, [l.ndirect, 0], l.MapBlock(a));
    assert LoggedFor(l, t, t', ino, [l.ndirect, 1], l.MapBlock(b));
    assert LoggedFor(l, t, t', ino, [l.ndirect, 2], l.MapBlock(c));
  }

  lemma ChunkLogNoMore(l: Layout, t: Trees, t': Trees, ino: nat, iblock: nat, size: nat, off: nat, log: set<nat>)
    requires Shaped(l, t) && Kept(l, t, t', ino) && ino < |t.addrs| && LastDirect(l, t, ino, size, off)
    requires WriteiLogged(l, t, t', ino, iblock, size, off, FileWrite.MAXCHUNK, log)
    ensures log <= TreeBlocks(l, t', ino, iblock) + NewBits(l, t', ino)
  {
    ChunkPaths(l, off);
    var lo := l.ndirect - 1;
    assert Addr(l, t, ino, [lo]) == t.addrs[ino][lo] && Addr(l, t', ino, [lo]) == t'.addrs[ino][lo];
    hide Addr, DataBlocks, Kept, Taken;
    KeptShape(l, t, t', ino);
    forall b | b in log && b != iblock ensures b in TreeBlocks(l, t', ino, iblock) + NewBits(l, t', ino) {
      if b in DataBlocks(l, t', ino, lo, lo + 4) {
        var bn := DataBlockAt(l, t', ino, lo, lo + 4, b);
        assert bn == lo || bn == lo + 1 || bn == lo + 2 || bn == lo + 3;
      } else {
        var p :| LoggedFor(l, t, t', ino, p, b);
        assert Reached(l, off, FileWrite.MAXCHUNK, p);
        FilledBlock(l, t, t', ino, iblock, size, off, p, b);
      }
    }
  }

  lemma FilledBlock(l: Layout, t: Trees, t': Trees, ino: nat, iblock: nat, size: nat, off: nat, p: Path, b: nat)
    requires Shaped(l, t) && Kept(l, t, t', ino) && ino < |t.addrs| && LastDirect(l, t, ino, size, off)
    requires LoggedFor(l, t, t', ino, p, b) && Reached(l, off, FileWrite.MAXCHUNK, p)
    ensures b in TreeBlocks(l, t', ino, iblock) + NewBits(l, t', ino)
  {
    ChunkPaths(l, off);
    var lo := l.ndirect - 1;
    RootAddr(l, t, ino, lo);
    hide Addr;
    var bn: nat :| OnTheWay(l, off, FileWrite.MAXCHUNK, p, bn);
    LoggedForWithin(l, t, t', ino, p, b, bn);
    assert bn == lo || bn == lo + 1 || bn == lo + 2 || bn == lo + 3;
  }

  lemma TreeBlocksApart(l: Layout, t: Trees, owner: map<nat, Key>, ino: nat, iblock: nat)
    requires Forest(l, t, owner) && ino < |t.addrs| && l.tiers == 1 && l.ndirect > 0 && iblock < l.bmapstart
    requires t.addrs[ino][l.ndirect - 1] != 0 && t.addrs[ino][l.ndirect] != 0
    requires Under(l, t, ino, 0) != 0 && Under(l, t, ino, 1) != 0 && Under(l, t, ino, 2) != 0
    ensures |TreeBlocks(l, t, ino, iblock)| == 6
    ensures TreeBlocks(l, t, ino, iblock) !! NewBits(l, t, ino)
  {
    assert Shaped(l, t);
    hide Forest, Addr, Under;
    RootAddr(l, t, ino, l.ndirect - 1);
    RootAddr(l, t, ino, l.ndirect);
    OwnedAt(l, t, owner, ino, [l.ndirect - 1]);
    OwnedAt(l, t, owner, ino, [l.ndirect]);
    UnderAt(l, t, owner, ino, 0);
    UnderAt(l, t, owner, ino, 1);
    UnderAt(l, t, owner, ino, 2);
    assert [l.ndirect, 0][1] == 0 && [l.ndirect, 1][1] == 1 && [l.ndirect, 2][1] == 2;
    var first, up := t.addrs[ino][l.ndirect - 1], t.addrs[ino][l.ndirect];
    var a, b, c := Under(l, t, ino, 0), Under(l, t, ino, 1), Under(l, t, ino, 2);
    assert l.bmapstart <= l.MapBlock(up) && l.bmapstart <= l.MapBlock(a)
        && l.bmapstart <= l.MapBlock(b) && l.bmapstart <= l.MapBlock(c);
    assert owner[first] == Key(ino, [l.ndirect - 1]) && owner[up] == Key(ino, [l.ndirect]);
  }

  lemma OwnedAt(l: Layout, t: Trees, owner: map<nat, Key>, ino: nat, p: Path)
    requires Forest(l, t, owner) && ino < |t.addrs| && l.IsPath(p) && Addr(l, t, ino, p) != 0
    ensures var a := Addr(l, t, ino, p);
            a in owner && owner[a] == Key(ino, p) && l.datastart <= a && l.MapBlock(a) < l.datastart
  {
    assert OwnsBlock(l, t, owner, ino, p);
    assert Addr(l, t, ino, p) / BPB <= l.size / BPB;
  }

  lemma UnderAt(l: Layout, t: Trees, owner: map<nat, Key>, ino: nat, j: nat)
    requires Forest(l, t, owner) && ino < |t.addrs| && j < NINDIRECT && Under(l, t, ino, j) != 0
    ensures var a := Under(l, t, ino, j);
            a in owner && owner[a] == Key(ino, [l.ndirect, j]) && l.datastart <= a && l.MapBlock(a) < l.datastart
  {
    OwnedAt(l, t, owner, ino, [l.ndirect, j]);
  }

  /** Such a chunk, in a file without holes, logs MAXOPBLOCKS blocks exactly when the four
      blocks it allocates are covered by different free map blocks. */
  lemma FullIff(l: Layout, t: Trees, t': Trees, owner: map<nat, Key>, ino: nat, iblock: nat, size: nat, off: nat, log: set<nat>)
    requires Shaped(l, t) && Kept(l, t, t', ino) && ino < |t.addrs| && LastDirect(l, t, ino, size, off)
    requires Forest(l, t', owner) && NoHoles(l, t', ino, off + FileWrite.MAXCHUNK) && iblock < l.bmapstart
    requires WriteiLogged(l, t, t', ino, iblock, size, off, FileWrite.MAXCHUNK, log)
    ensures |log| == FileWrite.MAXOPBLOCKS
       <==> ApartInMap(l, t'.addrs[ino][l.ndirect], Under(l, t', ino, 0), Under(l, t', ino, 1), Under(l, t', ino, 2))
  {
    hide Forest, WriteiLogged, NoHoles;
    ChunkPaths(l, off);
    var up, a, b, c := t'.addrs[ino][l.ndirect], Under(l, t', ino, 0), Under(l, t', ino, 1), Under(l, t', ino, 2);
    ChunkMapped(l, t, t', ino, size, off);
    hide Kept, Addr;
    ChunkLog(l, t, t', ino, iblock, size, off, log);
    ChunkLogNoMore(l, t, t', ino, iblock, size, off, log);
    TreeBlocksApart(l, t', owner, ino, iblock);
    assert log == TreeBlocks(l, t', ino, iblock) + NewBits(l, t', ino);
    hide TreeBlocks, Under;
    assert NewBits(l, t', ino) == {l.MapBlock(up), l.MapBlock(a), l.MapBlock(b), l.MapBlock(c)};
    FourApart(l.MapBlock(up), l.MapBlock(a), l.MapBlock(b), l.MapBlock(c));
  }

  lemma FourApart(a: nat, b: nat, c: nat, d: nat)
    ensures |{a, b, c, d}| == 4 <==> a != b && a != c && a != d && b != c && b != d && c != d
  {
    if a == b || a == c || a == d {
      assert {a, b, c, d} == {b, c, d};
    } else if b == c || b == d {
      assert {a, b, c, d} == {a, c, d};
    } else if c == d {
      assert {a, b, c, d} == {a, b, c};
    }
  }

  lemma ChunkMapped(l: Layout, t: Trees, t': Trees, ino: nat, size: nat, off: nat)
    requires Shaped(l, t) && Kept(l, t, t', ino) && ino < |t.addrs| && LastDirect(l, t, ino, size, off)
    requires NoHoles(l, t', ino, off + FileWrite.MAXCHUNK)
    ensures t'.addrs[ino][l.ndirect - 1] != 0 && t'.addrs[ino][l.ndirect] != 0
    ensures Under(l, t', ino, 0) != 0 && Under(l, t', ino, 1) != 0 && Under(l, t', ino, 2) != 0
  {
    ChunkPaths(l, off);
    var lo := l.ndirect - 1;
    NoHoleAt(l, t', ino, off + FileWrite.MAXCHUNK, lo);
    NoHoleAt(l, t', ino, off + FileWrite.MAXCHUNK, lo + 1);
    NoHoleAt(l, t', ino, off + FileWrite.MAXCHUNK, lo + 2);
    NoHoleAt(l, t', ino, off + FileWrite.MAXCHUNK, lo + 3);
    assert Addr(l, t', ino, [lo]) == t'.addrs[ino][lo];
    RootAddrOf(l, t', ino);
  }

  lemma RootAddrOf(l: Layout, t: Trees, ino: nat)
    requires Shaped(l, t) && ino < |t.addrs|
    ensures Under(l, t, ino, 0) != 0 ==> t.addrs[ino][l.ndirect] != 0
  {
    assert Parent([l.ndirect, 0]) == [l.ndirect];
    assert Addr(l, t, ino, [l.ndirect]) == t.addrs[ino][l.ndirect];
    assert Under(l, t, ino, 0) == Addr(l, t, ino, [l.ndirect, 0]);
  }

  // ----- A disk on which it happens -----

  /** Five free map blocks, each with one free block: the last one it covers. */
  const FiveMaps := Layout(12, 1, 5 * BPB, 30, 100)

  function LastBitClear(): Block {
    seq(BSIZE, i => if i == BSIZE - 1 then 127 else 255)
  }

  ghost predicate AllLastFree(d: Disk) {
    |d| == FiveMaps.size && forall b :: 0 <= b < |d| ==> d[b] == LastBitClear()
  }

  lemma OnlyLastFree(d: Disk, c: nat)
    requires AllLastFree(d) && c < FiveMaps.size
    ensures Used(FiveMaps, d, c) <==> c % BPB != BPB - 1
  {
    ByteMask();
    LowOnes(8, c % 8);
    LowOnes(7, c % 8);
    if c % BPB / 8 == BSIZE - 1 {
      assert c % BPB == 8 * (BSIZE - 1) + c % 8;
    }
  }

  /** The low n bits of a byte of n ones. */
  lemma {:induction false} LowOnes(n: nat, k: nat)
    ensures Bit(Mask(n) - 1, k) <==> k < n
    decreases k
  {
    if n > 0 {
      Doubled(Mask(n - 1) - 1, 1);
      if k > 0 {
        LowOnes(n - 1, k - 1);
      }
    } else if k > 0 {
      LowOnes(0, k - 1);
    }
  }

  /** One file with all its direct blocks, one byte in the last of them. */
  function TwelveBlocks(): seq<nat> {
    seq(12, i => 100 + i) + [0]
  }

  function HomeOf(a: nat): Key
    requires a >= 100
  {
    Key(0, [a - 100])
  }

  ghost function TwelveOwners(): map<nat, Key> {
    map a: nat | 100 <= a < 112 :: HomeOf(a)
  }

  lemma FiveMapsForest(d: Disk)
    requires AllLastFree(d)
    ensures Forest(FiveMaps, Trees(d, [TwelveBlocks()]), TwelveOwners())
    ensures NoHoles(FiveMaps, Trees(d, [TwelveBlocks()]), 0, 11 * BSIZE + 1)
  {
    var l, t := FiveMaps, Trees(d, [TwelveBlocks()]);
    hide Used;
    forall b: nat | b < l.datastart ensures Used(l, d, b) {
      OnlyLastFree(d, b);
    }
    forall p: Path | l.IsPath(p) ensures OwnsBlock(l, t, TwelveOwners(), 0, p) {
      if |p| > 1 {
        assert Addr(l, t, 0, Parent(p)) == 0;
      } else {
        assert p == [p[0]];
        OnlyLastFree(d, 100 + p[0]);
      }
    }
  }

  lemma LastOfAnother(a: nat, b: nat)
    requires a % BPB == BPB - 1 && b % BPB == BPB - 1 && a != b
    ensures FiveMaps.MapBlock(a) != FiveMaps.MapBlock(b)
  {
  }

  ghost function AtFour(t: Trees): set<nat>
    requires Shaped(FiveMaps, t) && |t.addrs| == 1
  {
    {t.addrs[0][12], Under(FiveMaps, t, 0, 0), Under(FiveMaps, t, 0, 1), Under(FiveMaps, t, 0, 2)}
  }

  lemma TakenAtFour(t: Trees, t': Trees, p: Path, c: nat)
    requires Shaped(FiveMaps, t) && t.addrs == [TwelveBlocks()] && Shaped(FiveMaps, t') && |t'.addrs| == 1
    requires FilledWithin(FiveMaps, t, t', 0, 11 * BSIZE + 1, FileWrite.MAXCHUNK) && TakenAt(FiveMaps, t, t', 0, p, c)
    ensures c in AtFour(t')
  {
    var l, off := FiveMaps, 11 * BSIZE + 1;
    ChunkPaths(l, off);
    RootAddr(l, t, 0, 11);
    RootAddr(l, t', 0, 12);
    hide Addr;
    assert Reached(l, off, FileWrite.MAXCHUNK, p);
    var bn: nat :| OnTheWay(l, off, FileWrite.MAXCHUNK, p, bn);
    OneTierPath(l, p, bn);
    assert bn == 11 || bn == 12 || bn == 13 || bn == 14;
  }

  /** Four positions cannot take up five blocks. */
  lemma NotFull(t: Trees, t': Trees)
    requires Shaped(FiveMaps, t) && t.addrs == [TwelveBlocks()] && AllLastFree(t.disk)
    requires Kept(FiveMaps, t, t', 0) && Taken(FiveMaps, t, t', 0)
    requires FilledWithin(FiveMaps, t, t', 0, 11 * BSIZE + 1, FileWrite.MAXCHUNK)
    ensures exists c :: 0 <= c < FiveMaps.size && !Used(FiveMaps, t'.disk, c)
  {
    KeptShape(FiveMaps, t, t', 0);
    hide Addr, Used, Kept, Taken, FilledWithin, AtFour, AllLastFree;
    if forall c :: 0 <= c < FiveMaps.size ==> Used(FiveMaps, t'.disk, c) {
      AmongFour(t, t', 4095);
      AmongFour(t, t', 8191);
      AmongFour(t, t', 12287);
      AmongFour(t, t', 16383);
      AmongFour(t, t', 20479);
      FiveAtLeast(AtFour(t'));
      FourAtMost(t');
    }
  }

  lemma FiveAtLeast(s: set<nat>)
    requires 4095 in s && 8191 in s && 12287 in s && 16383 in s && 20479 in s
    ensures |s| >= 5
  {
    SubsetSize({4095, 8191, 12287, 16383, 20479}, s);
  }

  /** A block that was free and is not any more hangs at one of the four. */
  lemma AmongFour(t: Trees, t': Trees, c: nat)
    requires Shaped(FiveMaps, t) && t.addrs == [TwelveBlocks()] && AllLastFree(t.disk)
    requires Shaped(FiveMaps, t') && |t'.addrs| == 1 && Taken(FiveMaps, t, t', 0)
    requires FilledWithin(FiveMaps, t, t', 0, 11 * BSIZE + 1, FileWrite.MAXCHUNK)
    requires c < FiveMaps.size && c % BPB == BPB - 1 && Used(FiveMaps, t'.disk, c)
    ensures c in AtFour(t')
  {
    OnlyLastFree(t.disk, c);
    hide Addr, Used, TakenAt, FilledWithin, AtFour, AllLastFree;
    var p :| TakenAt(FiveMaps, t, t', 0, p, c);
    TakenAtFour(t, t', p, c);
  }

  lemma FourAtMost(t: Trees)
    requires Shaped(FiveMaps, t) && |t.addrs| == 1
    ensures |AtFour(t)| <= 4
  {
  }

  /** The chunk allocates blocks in four of the five, and so logs MAXOPBLOCKS blocks. */
  method ReservationUsedUp(iblock: nat) returns (r: FS.Outcome, ghost log: set<nat>)
    requires iblock < FiveMaps.bmapstart
    ensures r.Done? && |log| == FileWrite.MAXOPBLOCKS
  {
    hide Forest, Wrote, Kept, NoHoles, WriteiLogged, Taken, FilledWithin, Content;
    var l, off := FiveMaps, 11 * BSIZE + 1;
    var disk := new Block[l.size](_ => LastBitClear());
    var ip := new FS.Inode(TwelveBlocks(), off);
    var fs := new FS.FileSystem(l, disk, [ip], TwelveOwners());
    ghost var t := fs.T();
    assert t == Trees(disk[..], [TwelveBlocks()]);
    FiveMapsForest(disk[..]);
    r, log := fs.Writei(ip, 0, iblock, seq(FileWrite.MAXCHUNK, _ => 0), off);
    NotFull(t, fs.T());
    ChunkApart(t, fs.T(), fs.owner);
    FullIff(l, t, fs.T(), fs.owner, 0, iblock, off, off, log);
  }

  lemma ChunkApart(t: Trees, t': Trees, owner: map<nat, Key>)
    requires Shaped(FiveMaps, t) && t.addrs == [TwelveBlocks()] && AllLastFree(t.disk)
    requires Kept(FiveMaps, t, t', 0) && Taken(FiveMaps, t, t', 0) && Forest(FiveMaps, t', owner)
    requires NoHoles(FiveMaps, t', 0, 11 * BSIZE + 1 + FileWrite.MAXCHUNK)
    ensures LastDirect(FiveMaps, t, 0, 11 * BSIZE + 1, 11 * BSIZE + 1)
    ensures ApartInMap(FiveMaps, t'.addrs[0][12], Under(FiveMaps, t', 0, 0), Under(FiveMaps, t', 0, 1), Under(FiveMaps, t', 0, 2))
  {
    var l, off := FiveMaps, 11 * BSIZE + 1;
    ChunkMapped(l, t, t', 0, off, off);
    assert Addr(l, t, 0, [12]) == t.addrs[0][12] && Addr(l, t', 0, [12]) == t'.addrs[0][12];
    assert Parent([12, 0]) == [12] && Parent([12, 1]) == [12] && Parent([12, 2]) == [12];
    assert TakenAt(l, t, t', 0, [12], t'.addrs[0][12]);
    assert TakenAt(l, t, t', 0, [12, 0], Under(l, t', 0, 0));
    assert TakenAt(l, t, t', 0, [12, 1], Under(l, t', 0, 1));
    assert TakenAt(l, t, t', 0, [12, 2], Under(l, t', 0, 2));
    UnderAt(l, t', owner, 0, 0);
    UnderAt(l, t', owner, 0, 1);
    UnderAt(l, t', owner, 0, 2);
    OwnedAt(l, t', owner, 0, [12]);
    hide Addr, Used;
    assert [12, 0][1] == 0 && [12, 1][1] == 1 && [12, 2][1] == 2;
    ApartByBits(t.disk, t'.addrs[0][12], Under(l, t', 0, 0), Under(l, t', 0, 1), Under(l, t', 0, 2));
  }

  lemma ApartByBits(d: Disk, a: nat, b: nat, c: nat, e: nat)
    requires AllLastFree(d) && a < |d| && b < |d| && c < |d| && e < |d|
    requires !Used(FiveMaps, d, a) && !Used(FiveMaps, d, b) && !Used(FiveMaps, d, c) && !Used(FiveMaps, d, e)
    requires a != b && a != c && a != e && b != c && b != e && c != e
    ensures ApartInMap(FiveMaps, a, b, c, e)
  {
    OnlyLastFree(d, a);
    OnlyLastFree(d, b);
    OnlyLastFree(d, c);
    OnlyLastFree(d, e);
    hide Used;
    LastOfAnother(a, b);
    LastOfAnother(a, c);
    LastOfAnother(a, e);
    LastOfAnother(b, c);
    LastOfAnother(b, e);
    LastOfAnother(c, e);
  }
}
