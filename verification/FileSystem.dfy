/** Block allocation and inode contents: fs.c of the third project, with the parameters
    for the other version's shorter tree. */
module FileSystem {
  import opened DiskBytes
  import opened FsTree
  import opened FsContent
  import opened FsDirty
  import opened FsTrunc

  /** struct inode, as far as contents go; dsize and daddrs are the copy in the inode block. */
  class Inode {
    var addrs: seq<nat>
    var size: nat
    var daddrs: seq<nat>
    var dsize: nat

    constructor (addrs: seq<nat>, size: nat)
      ensures this.addrs == daddrs == addrs && this.size == dsize == size
    {
      this.addrs, this.size, daddrs, dsize := addrs, size, addrs, size;
    }
  }

  /** What a call returns; Panic stops the kernel. */
  datatype Outcome = Done(n: nat) | Error | Panic

  class FileSystem {
    const l: Layout
    /** The disk as bread and brelse show it. */
    const disk: array<Block>
    const inodes: seq<Inode>
    ghost var owner: map<nat, Key>

    ghost function T(): Trees
      reads disk, inodes
    {
      Trees(disk[..], seq(|inodes|, i requires 0 <= i < |inodes| reads inodes => inodes[i].addrs))
    }

    ghost predicate Valid()
      reads this, disk, inodes
    {
      && (forall i, j :: 0 <= i < j < |inodes| ==> inodes[i] != inodes[j])
      && Shaped(l, T()) && Forest(l, T(), owner)
      && l.MaxFile() * BSIZE <= UINT
      && (forall i :: 0 <= i < |inodes| ==> inodes[i].size <= l.MaxFile() * BSIZE)
    }

    /** A mounted file system. */
    constructor (l: Layout, disk: array<Block>, inodes: seq<Inode>, ghost owner: map<nat, Key>)
      ensures this.l == l && this.disk == disk && this.inodes == inodes && this.owner == owner
    {
      this.l, this.disk, this.inodes, this.owner := l, disk, inodes, owner;
    }

    ghost predicate Full()
      requires l.Valid() && disk.Length == l.size
      reads disk
    {
      forall b :: 0 <= b < l.size ==> Used(l, disk[..], b)
    }

    /** bzero */
    method Bzero(b: nat)
      requires b < disk.Length
      modifies disk
      ensures disk[..] == old(disk[..])[b := ZeroBlock()]
    {
      disk[b] := ZeroBlock();
    }

    /** Bit bi of the free map block for the blocks from b on. */
    lemma ScannedBit(b: nat, bi: nat)
      requires l.Valid() && disk.Length == l.size && b % BPB == 0 && bi < BPB && b + bi < l.size
      ensures l.MapBlock(b) < l.size && l.MapBlock(b + bi) == l.MapBlock(b)
      ensures Used(l, disk[..], b + bi) == Bit(disk[l.MapBlock(b)][bi / 8], bi % 8)
      ensures FlipMapBit(disk[l.MapBlock(b)], b + bi)
           == disk[l.MapBlock(b)][bi / 8 := FlipBit(disk[l.MapBlock(b)][bi / 8], bi % 8, 8)]
    {
      hide Bit, FlipBit;
      ByteMask();
      BitPlace(b / BPB, 0);
      BitPlace(b / BPB, bi);
      assert b == BPB * (b / BPB) && b / BPB <= l.size / BPB;
    }

    /** balloc: the first free block, marked and zeroed; it panics on a full disk. */
    method Balloc() returns (ok: bool, r: nat)
      requires l.Valid() && disk.Length == l.size
      modifies disk
      ensures ok ==>
                && r < l.size && !Used(l, old(disk[..]), r)
                && (forall c :: 0 <= c < r ==> Used(l, old(disk[..]), c))
                && disk[..] == Allocate(l, old(disk[..]), r)
      ensures !ok ==> disk[..] == old(disk[..]) && Full()
    {
      hide Used, FlipMapBit, FlipBit, Bit;
      var b := 0;
      while b < l.size
        invariant b % BPB == 0
        invariant forall c :: 0 <= c < b && c < l.size ==> Used(l, disk[..], c)
        invariant disk[..] == old(disk[..])
      {
        var m := l.MapBlock(b);
        ScannedBit(b, 0);
        var bits := disk[m];
        var bi := 0;
        while bi < BPB && b + bi < l.size
          invariant 0 <= bi <= BPB && disk[..] == old(disk[..])
          invariant forall c :: 0 <= c < b + bi && c < l.size ==> Used(l, disk[..], c)
        {
          ScannedBit(b, bi);
          if !Bit(bits[bi / 8], bi % 8) {
            ByteMask();
            disk[m] := bits[bi / 8 := FlipBit(bits[bi / 8], bi % 8, 8)];
            Bzero(b + bi);
            assert disk[..] == Allocate(l, old(disk[..]), b + bi);
            return true, b + bi;
          }
          bi := bi + 1;
        }
        b := b + BPB;
      }
      return false, 0;
    }

    /** The block number in a slot of the inode, allocated first if the slot is empty; `log`
        collects the blocks passed to log_write. */
    method RootSlot(ip: Inode, ghost ino: nat, slot: nat, ghost path: Path)
        returns (ok: bool, addr: nat, ghost log: set<nat>)
      requires Valid() && ino < |inodes| && inodes[ino] == ip && l.IsPath([slot]) && [slot] <= path
      modifies this`owner, ip`addrs, disk
      ensures Valid() && Grew(l, old(T()), T(), ino, path)
      ensures ok ==> addr != 0 && addr == Addr(l, T(), ino, [slot])
      ensures old(Addr(l, T(), ino, [slot])) != 0 ==> ok && T() == old(T()) && owner == old(owner) && log == {}
      ensures Logged(l, old(T()), T(), ino, {}, log)
      ensures !ok ==> Full()
    {
      hide Addr, Forest, Grew, Allocate, Used, Logged;
      ghost var t := T();
      SlotsOf(ip, ino, slot);
      NothingLogged(l, t, ino);
      GrewNothing(l, t, ino, path);
      ok, addr, log := true, ip.addrs[slot], {};
      if addr == 0 {
        ok, addr := Balloc();
        if ok {
          GrownAtRoot(l, t, owner, ino, slot, addr, path);
          RootLogged(l, t, owner, ino, slot, addr);
          ip.addrs := ip.addrs[slot := addr];
          owner := owner[addr := Key(ino, [slot])];
          log := {addr, l.MapBlock(addr)};
          assert T() == RootGrown(l, t, ino, slot, addr);
        } else {
          assert T() == t;
        }
      }
    }

    lemma SlotsOf(ip: Inode, ino: nat, slot: nat)
      requires Valid() && ino < |inodes| && inodes[ino] == ip && l.IsPath([slot])
      ensures Shaped(l, T()) && slot < |ip.addrs| && T().addrs[ino] == ip.addrs
      ensures Addr(l, T(), ino, [slot]) == ip.addrs[slot]
    {
      assert T().addrs[ino] == ip.addrs;
    }

    /** The same for entry idx of index block up, which is logged when the entry is filled. */
    method IndexSlot(ghost ino: nat, ghost p: Path, up: nat, idx: nat, ghost path: Path)
        returns (ok: bool, addr: nat, ghost log: set<nat>)
      requires Valid() && ino < |inodes| && l.IsPath(p) && l.IsPath(p + [idx]) && p + [idx] <= path
      requires up != 0 && up == Addr(l, T(), ino, p)
      modifies this`owner, disk
      ensures Valid() && Grew(l, old(T()), T(), ino, path)
      ensures ok ==> addr != 0 && addr == Addr(l, T(), ino, p + [idx])
      ensures old(Addr(l, T(), ino, p + [idx])) != 0 ==> ok && T() == old(T()) && owner == old(owner) && log == {}
      ensures Logged(l, old(T()), T(), ino, {}, log)
      ensures !ok ==> Full()
    {
      hide Addr, Forest, Grew, Allocate, Used, PutWord, Word, Logged;
      ghost var t := T();
      NothingLogged(l, t, ino);
      GrewNothing(l, t, ino, path);
      AddrOfChild(l, t, owner, ino, p, idx);
      ok, addr, log := true, Word(disk[up], idx), {};
      if addr == 0 {
        ok, addr := Balloc();
        if ok {
          GrownAtIndex(l, t, owner, ino, p, idx, addr, path);
          IndexLogged(l, t, owner, ino, p, idx, addr);
          disk[up] := PutWord(disk[up], idx, addr);
          owner := owner[addr := Key(ino, p + [idx])];
          log := {addr, l.MapBlock(addr), up};
          assert T() == IndexGrown(l, t, up, idx, addr);
        } else {
          assert T() == t;
        }
      }
    }

    lemma MappedAbove(ino: nat, p: Path, idx: nat)
      requires Shaped(l, T()) && ino < |inodes| && l.IsPath(p) && l.IsPath(p + [idx])
      ensures Addr(l, T(), ino, p + [idx]) != 0 ==> Addr(l, T(), ino, p) != 0
    {
      assert Parent(p + [idx]) == p;
    }

    /** One tier of bmap below the slot: fetch the index block and follow or fill its entry. */
    method NextTier(ghost t0: Trees, ghost log0: set<nat>, ghost ino: nat, ghost p: Path, up: nat, idx: nat, ghost path: Path)
        returns (ok: bool, addr: nat, ghost log: set<nat>)
      requires Valid() && ino < |inodes| && l.IsPath(p) && l.IsPath(p + [idx]) && p + [idx] <= path
      requires up != 0 && up == Addr(l, T(), ino, p)
      requires Shaped(l, t0) && Grew(l, t0, T(), ino, path) && Logged(l, t0, T(), ino, {}, log0)
      requires Addr(l, t0, ino, p + [idx]) != 0 ==> T() == t0 && log0 == {}
      modifies this`owner, disk
      ensures Valid() && Grew(l, t0, T(), ino, path)
      ensures ok ==> addr != 0 && addr == Addr(l, T(), ino, p + [idx])
      ensures !ok ==> Full()
      ensures Addr(l, t0, ino, p + [idx]) != 0 ==> ok && T() == t0 && log == {}
      ensures ok ==> Addr(l, T(), ino, p) == up
      ensures Logged(l, t0, T(), ino, {}, log)
    {
      hide Addr, Forest, Grew, Used, Logged, Kept;
      ghost var t1 := T();
      ok, addr, log := IndexSlot(ino, p, up, idx, path);
      StillThere(l, t1, T(), ino, path, p);
      GrewTransitive(l, t0, t1, T(), ino, path);
      GrewIsKept(l, t0, t1, ino, path);
      GrewIsKept(l, t1, T(), ino, path);
      KeptShape(l, t0, t1, ino);
      LoggedTransitive(l, t0, t1, T(), ino, {}, {}, log0, log);
      ghost var none: set<nat> := {};
      assert none + none == none;
      log := log0 + log;
    }

    /** bmap; false stands for its panics, on a full disk or a block out of range. */
    method Bmap(ip: Inode, ghost ino: nat, bn: nat) returns (ok: bool, addr: nat, ghost log: set<nat>)
      requires Valid() && ino < |inodes| && inodes[ino] == ip
      modifies this`owner, ip`addrs, disk
      ensures Valid()
      ensures bn < l.MaxFile() ==> l.IsLeaf(l.PathOf(bn)) && Grew(l, old(T()), T(), ino, l.PathOf(bn))
      ensures ok ==> bn < l.MaxFile() && addr != 0 && addr == Addr(l, T(), ino, l.PathOf(bn))
      ensures bn < l.MaxFile() && old(Addr(l, T(), ino, l.PathOf(bn))) != 0 ==> ok && T() == old(T()) && log == {}
      ensures Shaped(l, T()) && Logged(l, old(T()), T(), ino, {}, log)
      ensures !ok ==> Full() || (bn >= l.MaxFile() && T() == old(T()))
    {
      hide Addr, Forest, Grew, Used, Logged;
      ghost var t0 := T();
      NothingLogged(l, t0, ino);
      if bn < l.MaxFile() {
        PathOfIsLeaf(l, bn);
        GrewNothing(l, t0, ino, l.PathOf(bn));
      }
      if bn < l.ndirect {
        ok, addr, log := RootSlot(ip, ino, bn, [bn]);
        return;
      }
      var b1 := bn - l.ndirect;
      if b1 < 128 {
        ghost var slot, path := [l.ndirect], l.PathOf(bn);
        assert path == slot + [b1];
        MappedAbove(ino, slot, b1);
        ok, addr, log := RootSlot(ip, ino, l.ndirect, path);
        if ok {
          ok, addr, log := NextTier(t0, log, ino, slot, addr, b1, path);
        }
        return;
      }
      var b2 := b1 - 128;
      if l.tiers >= 2 && b2 < 128 * 128 {
        ok, addr, log := MapDouble(ip, ino, b2);
        return;
      }
      var b3 := b2 - 128 * 128;
      if l.tiers >= 3 && b3 < 128 * 128 * 128 {
        ok, addr, log := MapTriple(ip, ino, b3);
        return;
      }
      return false, 0, {};
    }

    /** bmap's branch for the double indirect slot. */
    method MapDouble(ip: Inode, ghost ino: nat, b: int) returns (ok: bool, addr: nat, ghost log: set<nat>)
      requires Valid() && ino < |inodes| && inodes[ino] == ip && l.tiers >= 2 && 0 <= b < 128 * 128
      modifies this`owner, ip`addrs, disk
      ensures Valid()
      ensures var path := [l.ndirect + 1, b / 128, b % 128];
              && l.IsPath(path) && Grew(l, old(T()), T(), ino, path)
              && (ok ==> addr != 0 && addr == Addr(l, T(), ino, path))
              && (old(Addr(l, T(), ino, path)) != 0 ==> ok && T() == old(T()) && log == {})
              && Logged(l, old(T()), T(), ino, {}, log)
      ensures !ok ==> Full()
    {
      hide Addr, Forest, Grew, Used, Logged;
      ghost var t0 := T();
      ghost var p1 := [l.ndirect + 1];
      ghost var p2, path := p1 + [b / 128], p1 + [b / 128] + [b % 128];
      assert path == [l.ndirect + 1, b / 128, b % 128];
      MappedAbove(ino, p1, b / 128);
      MappedAbove(ino, p2, b % 128);
      ok, addr, log := RootSlot(ip, ino, l.ndirect + 1, path);
      if ok {
        ok, addr, log := NextTier(t0, log, ino, p1, addr, b / 128, path);
        if ok {
          ok, addr, log := NextTier(t0, log, ino, p2, addr, b % 128, path);
        }
      }
    }

    /** bmap's branch for the triple indirect slot. */
    method MapTriple(ip: Inode, ghost ino: nat, b: int) returns (ok: bool, addr: nat, ghost log: set<nat>)
      requires Valid() && ino < |inodes| && inodes[ino] == ip && l.tiers >= 3 && 0 <= b < 128 * 128 * 128
      modifies this`owner, ip`addrs, disk
      ensures Valid()
      ensures var path := [l.ndirect + 2, b / (128 * 128), b / 128 % 128, b % 128];
              && l.IsPath(path) && Grew(l, old(T()), T(), ino, path)
              && (ok ==> addr != 0 && addr == Addr(l, T(), ino, path))
              && (old(Addr(l, T(), ino, path)) != 0 ==> ok && T() == old(T()) && log == {})
              && Logged(l, old(T()), T(), ino, {}, log)
      ensures !ok ==> Full()
    {
      hide Addr, Forest, Grew, Used, Logged;
      ghost var t0 := T();
      var first, second, third := b / (128 * 128), b / 128 % 128, b % 128;
      ghost var p1 := [l.ndirect + 2];
      ghost var p2 := p1 + [first];
      ghost var p3 := p2 + [second];
      ghost var path := p3 + [third];
      assert path == [l.ndirect + 2, first, second, third];
      MappedAbove(ino, p1, first);
      MappedAbove(ino, p2, second);
      MappedAbove(ino, p3, third);
      ok, addr, log := RootSlot(ip, ino, l.ndirect + 2, path);
      if ok {
        ok, addr, log := NextTier(t0, log, ino, p1, addr, first, path);
        if ok {
          ok, addr, log := NextTier(t0, log, ino, p2, addr, second, path);
          if ok {
            ok, addr, log := NextTier(t0, log, ino, p3, addr, third, path);
          }
        }
      }
    }

    // ----- readi and writei -----

    /** The loop body of readi: the bytes of one block from `off` on. */
    method ReadSpan(ip: Inode, ghost ino: nat, off: nat, m: nat) returns (ok: bool, chunk: seq<byte>)
      requires Valid() && ino < |inodes| && inodes[ino] == ip
      requires off / BSIZE < l.MaxFile() && off % BSIZE + m <= BSIZE && off + m <= l.MaxFile() * BSIZE
      modifies this`owner, ip`addrs, disk
      ensures Valid() && Wrote(l, old(T()), T(), ino, 0, []) && |inodes| == |old(T().addrs)|
      ensures ok ==> |chunk| == m && forall j :: 0 <= j < m ==> chunk[j] == old(ByteAt(l, T(), ino, off + j))
      ensures !ok ==> Full()
      ensures l.IsLeaf(l.PathOf(off / BSIZE))
      ensures old(Addr(l, T(), ino, l.PathOf(off / BSIZE))) != 0 ==> ok && T() == old(T())
    {
      hide Addr, Forest, Grew, Wrote, ByteAt, Used;
      ghost var t0 := T();
      var a;
      ghost var log;
      ok, a, log := Bmap(ip, ino, off / BSIZE);
      chunk := [];
      GrewIsWrote(l, t0, T(), ino, l.PathOf(off / BSIZE), 0);
      if ok {
        SpanShows(l, t0, T(), owner, ino, off, m);
        chunk := disk[a][off % BSIZE..off % BSIZE + m];
      }
    }

    /** The loop body of writei: bytes into one block at `off`. */
    method WriteSpan(ip: Inode, ghost ino: nat, off: nat, chunk: seq<byte>) returns (ok: bool, ghost a: nat, ghost log: set<nat>)
      requires Valid() && ino < |inodes| && inodes[ino] == ip
      requires off / BSIZE < l.MaxFile() && off % BSIZE + |chunk| <= BSIZE
      modifies this`owner, ip`addrs, disk
      ensures Valid()
      ensures Wrote(l, old(T()), T(), ino, off, if ok then chunk else [])
      ensures !ok ==> Full()
      ensures l.IsLeaf(l.PathOf(off / BSIZE))
      ensures ok ==> a != 0 && a == Addr(l, T(), ino, l.PathOf(off / BSIZE))
      ensures old(Addr(l, T(), ino, l.PathOf(off / BSIZE))) != 0 ==> ok && T().addrs == old(T().addrs)
      ensures Logged(l, old(T()), T(), ino, if ok then {a} else {}, log)
      ensures FilledAlong(l, old(T()), T(), ino, l.PathOf(off / BSIZE))
    {
      hide Addr, Forest, Grew, Wrote, Kept, Used, Patch, Logged, FilledAlong, Layout.PathOf;
      ghost var t0 := T();
      var addr;
      ok, addr, log := Bmap(ip, ino, off / BSIZE);
      a := addr;
      ghost var t1 := T();
      GrewIsWrote(l, t0, t1, ino, l.PathOf(off / BSIZE), off);
      GrewAlong(l, t0, t1, ino, l.PathOf(off / BSIZE));
      if ok {
        GrewIsKept(l, t0, t1, ino, l.PathOf(off / BSIZE));
        PatchIsWrote(l, t1, owner, ino, off, chunk);
        StoreLogged(l, t1, owner, ino, l.PathOf(off / BSIZE), Patch(disk[addr], off % BSIZE, chunk));
        disk[addr] := Patch(disk[addr], off % BSIZE, chunk);
        assert T() == t1.(disk := disk[..]);
        LoggedTransitive(l, t0, t1, T(), ino, {}, {a}, log, {a});
        assert {} + {a} == {a};
        AlongTransitive(l, t0, t1, T(), ino, l.PathOf(off / BSIZE));
        log := log + {a};
        WroteTransitive(l, t0, t1, T(), ino, off, [], chunk);
        assert [] + chunk == chunk;
        StillMapped(l, t1, T(), ino, l.PathOf(off / BSIZE));
      }
    }

    /** readi of a file or directory.  The caller gets exactly the bytes asked for, up to the
        end of the file, and nobody's contents change. */
    method Readi(ip: Inode, ghost ino: nat, off: nat, n: nat) returns (r: Outcome, dst: seq<byte>)
      requires Valid() && ino < |inodes| && inodes[ino] == ip && off < UINT && n < UINT
      modifies this`owner, ip`addrs, disk
      ensures Valid() && Wrote(l, old(T()), T(), ino, 0, [])
      ensures r.Error? <==> off > ip.size || off + n >= UINT
      ensures r.Error? ==> T() == old(T())
      ensures r.Done? ==>
                && r.n == (if off + n > ip.size then ip.size - off else n)
                && dst == old(Content(l, T(), ino, ip.size))[off..off + r.n]
      ensures r.Panic? ==> Full() && !NoHoles(l, old(T()), ino, old(ip.size))
      ensures NoHoles(l, old(T()), ino, old(ip.size)) ==> T() == old(T())
    {
      hide Addr, Forest, Wrote, ByteAt, Used, NoHoles, Content, Layout.PathOf, Layout.IsLeaf;
      dst := [];
      ghost var t0 := T();
      WroteNothing(l, t0, ino);
      if off > ip.size || (off + n) % UINT < off {
        return Error, dst;
      }
      var len := n;
      if off + n > ip.size {
        len := ip.size - off;
      }
      ghost var content := Content(l, t0, ino, ip.size);
      var tot, o := 0, off;
      while tot < len
        invariant 0 <= tot <= len && o == off + tot && off + len <= ip.size == old(ip.size)
        invariant Valid() && Wrote(l, t0, T(), ino, 0, [])
        invariant dst == content[off..o]
        invariant NoHoles(l, old(T()), ino, old(ip.size)) ==> T() == t0
      {
        var m := if len - tot < BSIZE - o % BSIZE then len - tot else BSIZE - o % BSIZE;
        ghost var t1 := T();
        SpanInFile(o, ip.size, l.MaxFile());
        if NoHoles(l, old(T()), ino, old(ip.size)) {
          NoHoleAt(l, t0, ino, ip.size, o / BSIZE);
        }
        var ok, chunk := ReadSpan(ip, ino, o, m);
        UnseenTransitive(l, t0, t1, T(), ino);
        if !ok {
          return Panic, dst;
        }
        ReadsThrough(l, t0, t1, ino, o, m, chunk, ip.size);
        assert content[off..o + m] == content[off..o] + content[o..o + m];
        dst := dst + chunk;
        tot, o := tot + m, o + m;
      }
      r := Done(len);
    }

    /** iupdate: the inode block receives what the inode in memory says. */
    method Iupdate(ip: Inode)
      modifies ip`daddrs, ip`dsize
      ensures InSync(ip)
    {
      ip.daddrs := ip.addrs;
      ip.dsize := ip.size;
    }

    ghost predicate InSync(ip: Inode)
      reads ip
    {
      ip.daddrs == ip.addrs && ip.dsize == ip.size
    }

    /** One pass of writei's loop, at tot bytes into src. */
    method WriteNext(ghost t0: Trees, ghost log0: set<nat>, ip: Inode, ghost ino: nat, src: seq<byte>, ghost off: nat,
                     tot: nat, o: nat)
        returns (ok: bool, m: nat, ghost log: set<nat>)
      requires Valid() && ino < |inodes| && inodes[ino] == ip && off <= ip.size && off + |src| <= l.MaxFile() * BSIZE
      requires tot < |src| && o == off + tot && (tot == 0 || o % BSIZE == 0)
      requires Shaped(l, t0) && |t0.addrs| == |inodes| && Wrote(l, t0, T(), ino, off, src[..tot])
      requires Mapped(l, T(), ino, off / BSIZE, if tot == 0 then off / BSIZE * BSIZE else o)
      requires NoHoles(l, t0, ino, ip.size) && o <= ip.size ==> T().addrs == t0.addrs
      requires WriteLogged(l, t0, T(), ino, off, tot, log0)
      modifies this`owner, ip`addrs, disk
      ensures Valid() && 0 < m <= |src| - tot && o % BSIZE + m <= BSIZE && (m == |src| - tot || (o + m) % BSIZE == 0)
      ensures ok ==> Wrote(l, t0, T(), ino, off, src[..tot + m]) && Mapped(l, T(), ino, off / BSIZE, o + m)
      ensures ok && NoHoles(l, t0, ino, ip.size) && o + m <= ip.size ==> T().addrs == t0.addrs
      ensures ok ==> WriteLogged(l, t0, T(), ino, off, tot + m, log)
      ensures TookWithin(t0, ino, off, |src|)
      ensures !ok ==> Full()
    {
      hide Addr, Forest, Wrote, Kept, ByteAt, Used, NoHoles, Mapped, Layout.PathOf, Layout.IsLeaf;
      hide Logged, WriteLogged, FilledWithin, FilledAlong, Taken;
      m := if |src| - tot < BSIZE - o % BSIZE then |src| - tot else BSIZE - o % BSIZE;
      ghost var t1 := T();
      SpanInFile(o, l.MaxFile() * BSIZE, l.MaxFile());
      WroteKept(l, t0, t1, ino, off, src[..tot]);
      if NoHoles(l, t0, ino, ip.size) && o / BSIZE * BSIZE < ip.size {
        NoHoleAt(l, t0, ino, ip.size, o / BSIZE);
        StillMapped(l, t0, t1, ino, l.PathOf(o / BSIZE));
      }
      ghost var a;
      ok, a, log := WriteSpan(ip, ino, o, src[tot..tot + m]);
      WroteKept(l, t1, T(), ino, o, if ok then src[tot..tot + m] else []);
      TakenMore(l, t0, t1, T(), ino, off, tot, m, |src|, if ok then {a} else {}, log0, log);
      if ok {
        WroteTransitive(l, t0, t1, T(), ino, off, src[..tot], src[tot..tot + m]);
        assert src[..tot] + src[tot..tot + m] == src[..tot + m];
        MappedGrows(l, t1, T(), ino, off / BSIZE, if tot == 0 then off / BSIZE * BSIZE else o, o, m);
        WriteLoggedMore(l, t0, t1, T(), ino, off, tot, m, a, log0, log);
      }
      log := log0 + log;
    }

    /** Since t0 no position has lost its block, and the free map has given away only blocks
        that hang in inode ino now, on the way to the blocks of a write of n bytes at off. */
    ghost predicate TookWithin(t0: Trees, ino: nat, off: nat, n: nat)
      requires Shaped(l, t0) && Shaped(l, T()) && ino < |t0.addrs| == |inodes|
      reads disk, inodes
    {
      Kept(l, t0, T(), ino) && Taken(l, t0, T(), ino) && FilledWithin(l, t0, T(), ino, off, n)
    }

    /** The loop of writei.  `log` collects the blocks it passes to log_write. */
    method WriteSpans(ip: Inode, ghost ino: nat, src: seq<byte>, off: nat)
        returns (r: Outcome, o: nat, ghost log: set<nat>)
      requires Valid() && ino < |inodes| && inodes[ino] == ip && off <= ip.size && off + |src| <= l.MaxFile() * BSIZE
      modifies this`owner, ip`addrs, disk
      ensures Valid() && !r.Error?
      ensures r.Done? ==> r.n == |src| && o == off + |src| && Wrote(l, old(T()), T(), ino, off, src)
      ensures r.Done? && src != [] ==> Mapped(l, T(), ino, off / BSIZE, o)
      ensures r.Done? && NoHoles(l, old(T()), ino, ip.size) && o <= ip.size ==> T().addrs == old(T().addrs)
      ensures r.Done? ==> WriteLogged(l, old(T()), T(), ino, off, |src|, log)
      ensures TookWithin(old(T()), ino, off, |src|)
      ensures r.Panic? ==> Full()
    {
      hide Addr, Forest, Wrote, ByteAt, Used, NoHoles, Mapped, WriteLogged, Taken, FilledWithin;
      ghost var t0 := T();
      var n := |src|;
      var tot := 0;
      o, log := off, {};
      NothingWritten(l, t0, ino, off);
      NothingWriteLogged(l, t0, ino, off);
      NothingTaken(l, t0, ino, off, n);
      while tot < n
        invariant 0 <= tot <= n && o == off + tot && (tot == 0 || tot == n || o % BSIZE == 0)
        invariant Valid() && Wrote(l, t0, T(), ino, off, src[..tot])
        invariant Mapped(l, T(), ino, off / BSIZE, if tot == 0 then off / BSIZE * BSIZE else o)
        invariant NoHoles(l, t0, ino, ip.size) && o <= ip.size ==> T().addrs == t0.addrs
        invariant WriteLogged(l, t0, T(), ino, off, tot, log) && TookWithin(t0, ino, off, n)
      {
        var ok, m;
        ok, m, log := WriteNext(t0, log, ip, ino, src, off, tot, o);
        if !ok {
          return Panic, o, log;
        }
        tot, o := tot + m, o + m;
      }
      assert src[..n] == src;
      r := Done(n);
    }

    /** writei of a file or directory: the contents change like a byte sequence, every other
        inode keeps its contents, and a file without holes stays without and in step with
        its inode block.  The blocks logged are exactly the data blocks written, what was
        filled on the way to them, and the inode block when the file grows; no other block
        has changed, and every block the free map gave away hangs in the inode. */
    method Writei(ip: Inode, ghost ino: nat, ghost iblock: nat, src: seq<byte>, off: nat)
        returns (r: Outcome, ghost log: set<nat>)
      requires Valid() && ino < |inodes| && inodes[ino] == ip && off < UINT && |src| < UINT
      modifies this`owner, ip, disk
      ensures Valid()
      ensures r.Error? <==> off > old(ip.size) || off + |src| >= UINT || off + |src| > l.MaxFile() * BSIZE
      ensures r.Error? ==> T() == old(T()) && ip.size == old(ip.size)
      ensures r.Done? ==>
                && r.n == |src|
                && ip.size == (if off + |src| > old(ip.size) then off + |src| else old(ip.size))
                && Wrote(l, old(T()), T(), ino, off, src)
      ensures r.Done? ==>
                Content(l, T(), ino, ip.size)
                == old(Content(l, T(), ino, ip.size))[..off] + src
                   + if off + |src| < old(ip.size) then old(Content(l, T(), ino, ip.size))[off + |src|..] else []
      ensures r.Done? ==> forall i :: 0 <= i < |inodes| && i != ino ==>
                inodes[i].size == old(inodes[i].size)
                && Content(l, T(), i, inodes[i].size) == old(Content(l, T(), i, inodes[i].size))
      ensures r.Done? && NoHoles(l, old(T()), ino, old(ip.size)) ==> NoHoles(l, T(), ino, ip.size)
      ensures r.Done? && NoHoles(l, old(T()), ino, old(ip.size)) && old(InSync(ip)) ==> InSync(ip)
      ensures r.Done? ==> WriteiLogged(l, old(T()), T(), ino, iblock, old(ip.size), off, |src|, log)
      ensures r.Done? && l.tiers == 1 && NoHoles(l, old(T()), ino, old(ip.size)) ==>
                forall k: nat :: |src| <= k * BSIZE ==> |log| <= 2 * k + 4 && |log - {iblock}| <= 2 * k + 3
      ensures r.Panic? ==> Full()
      ensures Shaped(l, T()) && |old(T()).addrs| == |inodes| && TookWithin(old(T()), ino, off, |src|)
    {
      hide Addr, Forest, Wrote, ByteAt, Used, NoHoles, Mapped, Content, Layout.PathOf, Layout.IsLeaf;
      hide WriteLogged, WriteiLogged, Taken, FilledWithin, Kept, SpanBlocks;
      var n := |src|;
      log := {};
      NothingTaken(l, T(), ino, off, n);
      if off > ip.size || (off + n) % UINT < off {
        return Error, log;
      }
      if off + n > l.MaxFile() * BSIZE {
        return Error, log;
      }
      ghost var t0 := T();
      r, log := WriteOut(ip, ino, iblock, src, off);
      if r.Done? {
        WroteContent(l, t0, T(), ino, off, src, old(ip.size));
      }
    }

    /** writei behind its tests: the loop, and iupdate if the file has grown. */
    method WriteOut(ip: Inode, ghost ino: nat, ghost iblock: nat, src: seq<byte>, off: nat)
        returns (r: Outcome, ghost log: set<nat>)
      requires Valid() && ino < |inodes| && inodes[ino] == ip && off <= ip.size && off + |src| <= l.MaxFile() * BSIZE
      modifies this`owner, ip, disk
      ensures Valid() && !r.Error?
      ensures r.Done? ==>
                && r.n == |src| && Wrote(l, old(T()), T(), ino, off, src)
                && ip.size == (if off + |src| > old(ip.size) then off + |src| else old(ip.size))
      ensures r.Done? && NoHoles(l, old(T()), ino, old(ip.size)) ==> NoHoles(l, T(), ino, ip.size)
      ensures r.Done? && NoHoles(l, old(T()), ino, old(ip.size)) && old(InSync(ip)) ==> InSync(ip)
      ensures r.Done? ==> WriteiLogged(l, old(T()), T(), ino, iblock, old(ip.size), off, |src|, log)
      ensures r.Done? && l.tiers == 1 && NoHoles(l, old(T()), ino, old(ip.size)) ==>
                forall k: nat :: |src| <= k * BSIZE ==> |log| <= 2 * k + 4 && |log - {iblock}| <= 2 * k + 3
      ensures r.Panic? ==> Full()
      ensures Shaped(l, T()) && |old(T()).addrs| == |inodes| && TookWithin(old(T()), ino, off, |src|)
    {
      hide Addr, Forest, Wrote, ByteAt, Used, NoHoles, Mapped, Layout.PathOf, Layout.IsLeaf;
      hide WriteLogged, WriteiLogged, Taken, FilledWithin, Kept, SpanBlocks, InodeBlock;
      var n := |src|;
      ghost var t0 := T();
      assert t0.addrs[ino] == ip.addrs;
      var o;
      r, o, log := WriteSpans(ip, ino, src, off);
      if r.Panic? {
        return;
      }
      ghost var t1 := T();
      assert t1.addrs[ino] == ip.addrs;
      WroteKept(l, t0, t1, ino, off, src);
      NoHolesYet(l, t0, t1, ino, iblock, ip.size, off, n, log);
      WithInodeBlock(l, t0, t1, ino, iblock, ip.size, off, n, log);
      InodeBlockIf(iblock, ip.size, off, n, log);
      if n > 0 && o > ip.size {
        ip.size := o;
        Iupdate(ip);
        log := log + {iblock};
      }
      assert T() == t1;
    }

    // ----- itrunc -----

    /** bfree; false is the panic on a block that is already free. */
    method Bfree(b: nat) returns (ok: bool)
      requires l.Valid() && disk.Length == l.size && b < l.size
      modifies disk
      ensures ok == Used(l, old(disk[..]), b)
      ensures disk[..] == if ok then Free(l, old(disk[..]), b) else old(disk[..])
    {
      assert b / BPB <= l.size / BPB;
      var m := l.MapBlock(b);
      var bi := b % BPB;
      assert bi % 8 == b % 8;
      if !Bit(disk[m][bi / 8], bi % 8) {
        return false;
      }
      ByteMask();
      disk[m] := disk[m][bi / 8 := FlipBit(disk[m][bi / 8], bi % 8, 8)];
      return true;
    }

    /** The first loop of itrunc. */
    method FreeDirect(ip: Inode, ghost ino: nat) returns (ok: bool)
      requires Valid() && ino < |inodes| && inodes[ino] == ip
      modifies ip`addrs, disk
      ensures ok && FreedSoFar(l, old(T()), owner, ino, Stage(l.ndirect, 0, false), disk[..])
      ensures |ip.addrs| == |old(ip.addrs)| == l.Slots()
      ensures forall s :: 0 <= s < l.Slots() ==> ip.addrs[s] == if s < l.ndirect then 0 else old(ip.addrs)[s]
    {
      hide Forest, Addr, Gone, FreedSoFar, Free, Used;
      ghost var t := T();
      assert t.addrs[ino] == ip.addrs;
      NothingFreed(l, t, owner, ino);
      var i := 0;
      ok := true;
      while i < l.ndirect
        invariant 0 <= i <= l.ndirect && ok
        invariant FreedSoFar(l, t, owner, ino, Stage(i, 0, false), disk[..])
        invariant |ip.addrs| == l.Slots()
        invariant forall s :: 0 <= s < l.Slots() ==> ip.addrs[s] == if s < i then 0 else t.addrs[ino][s]
      {
        RootAddr(l, t, ino, i);
        FreeOneMore(l, t, owner, ino, Stage(i, 0, false), Stage(i + 1, 0, false), [i], disk[..]);
        if ip.addrs[i] != 0 {
          ok := Bfree(ip.addrs[i]);
          ip.addrs := ip.addrs[i := 0];
        }
        i := i + 1;
      }
    }

    /** The second loop of itrunc, and the indirect block after it. */
    method FreeIndirect(ghost t: Trees, ip: Inode, ghost ino: nat) returns (ok: bool)
      requires Forest(l, t, owner) && Shaped(l, t) && ino < |t.addrs| && disk.Length == l.size
      requires FreedSoFar(l, t, owner, ino, Stage(l.ndirect, 0, false), disk[..])
      requires |ip.addrs| == l.Slots() && ip.addrs[l.ndirect] == t.addrs[ino][l.ndirect] != 0
      modifies ip`addrs, disk
      ensures ok && FreedSoFar(l, t, owner, ino, Stage(l.ndirect, NINDIRECT, true), disk[..])
      ensures ip.addrs == old(ip.addrs)[l.ndirect := 0]
    {
      hide Addr, Gone, Free, Used, FreedSoFar, Word;
      var up := ip.addrs[l.ndirect];
      RootAddr(l, t, ino, l.ndirect);
      assert OwnsBlock(l, t, owner, ino, [l.ndirect]);
      hide Forest;
      FreedKeepsData(l, t, owner, ino, Stage(l.ndirect, 0, false), disk[..], up);
      var a := disk[up];
      var j := 0;
      ok := true;
      while j < NINDIRECT
        invariant 0 <= j <= NINDIRECT && ok
        invariant ip.addrs == old(ip.addrs)
        invariant FreedSoFar(l, t, owner, ino, Stage(l.ndirect, j, false), disk[..])
      {
        AddrOfChild(l, t, owner, ino, [l.ndirect], j);
        assert [l.ndirect] + [j] == [l.ndirect, j];
        FreeOneMore(l, t, owner, ino, Stage(l.ndirect, j, false), Stage(l.ndirect, j + 1, false), [l.ndirect, j], disk[..]);
        if Word(a, j) != 0 {
          ok := Bfree(Word(a, j));
        }
        j := j + 1;
      }
      FreeOneMore(l, t, owner, ino, Stage(l.ndirect, NINDIRECT, false), Stage(l.ndirect, NINDIRECT, true), [l.ndirect], disk[..]);
      ok := Bfree(up);
      ip.addrs := ip.addrs[l.ndirect := 0];
    }

    /** itrunc: no panic, every block it walks is given back, nobody else is touched. */
    method Itrunc(ip: Inode, ghost ino: nat) returns (ok: bool)
      requires Valid() && ino < |inodes| && inodes[ino] == ip
      modifies ip, disk
      ensures ok && Valid() && ip.size == 0 && InSync(ip)
      ensures T() == Truncated(l, old(T()), ino, disk[..])
      ensures FreedSoFar(l, old(T()), owner, ino, Stage(l.ndirect, NINDIRECT, true), disk[..])
      ensures forall c :: 0 <= c < l.size ==>
                Used(l, disk[..], c) == (Used(l, old(disk[..]), c)
                  && !Gone(l, old(T()), owner, ino, Stage(l.ndirect, NINDIRECT, true), c))
      ensures forall i :: 0 <= i < |inodes| && i != ino ==>
                inodes[i].size == old(inodes[i].size)
                && Content(l, T(), i, inodes[i].size) == old(Content(l, T(), i, inodes[i].size))
    {
      hide Addr, Gone, Free, Used, Forest, Word, Content;
      ghost var t := T();
      assert t.addrs[ino] == ip.addrs;
      ok := FreeDirect(ip, ino);
      if ip.addrs[l.ndirect] != 0 {
        ok := FreeIndirect(t, ip, ino);
      } else {
        RootAddr(l, t, ino, l.ndirect);
        NoIndirect(l, t, owner, ino, disk[..]);
      }
      ip.size := 0;
      Iupdate(ip);
      assert Truncated(l, t, ino, disk[..]).addrs[ino] == ip.addrs;
      assert T() == Truncated(l, t, ino, disk[..]);
      TruncatedForest(l, t, owner, ino, disk[..]);
      TruncatedContent(l, t, owner, ino, disk[..]);
    }
  }
}
