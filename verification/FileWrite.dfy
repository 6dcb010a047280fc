/** filewrite of file.c: a long write as several operations, each within its reservation. */
module FileWrite {
  import opened DiskBytes
  import opened FsTree
  import opened FsContent
  import opened FsDirty
  import FS = FileSystem

  const MAXOPBLOCKS: nat := 10
  /** Half of what the inode block, the indirect block and two blocks to spare leave of the
      reservation, since each data block may dirty a free map block too; in bytes. */
  const MAXCHUNK: nat := (MAXOPBLOCKS - 1 - 1 - 2) / 2 * 512

  /** struct file of type FD_INODE. */
  class File {
    var writable: bool
    var off: nat
    const ip: FS.Inode

    constructor (ip: FS.Inode, writable: bool)
      ensures this.ip == ip && this.writable == writable && off == 0
    {
      this.ip, this.writable, off := ip, writable, 0;
    }
  }

  datatype Result = Ret(n: int) | Panic

  /** How much of a file there is after `i` bytes were written at `off`. */
  function Grown(size: nat, off: nat, i: nat): nat {
    if i > 0 && off + i > size then off + i else size
  }

  /** writei turns a chunk of n bytes at `off` away. */
  predicate Refused(l: Layout, size: nat, off: nat, n: nat) {
    off > size || off + n >= UINT || off + n > l.MaxFile() * BSIZE
  }

  function Chunk(left: nat): nat {
    if left > MAXCHUNK then MAXCHUNK else left
  }

  /** What the c-th operation of filewrite logged: that of a writei of the c-th chunk of n
      bytes. */
  ghost predicate ChunkLogged(l: Layout, t: Trees, t': Trees, ino: nat, iblock: nat, size: nat, off: nat, n: nat,
                              c: nat, log: set<nat>)
  {
    && c * MAXCHUNK < n && Shaped(l, t) && Shaped(l, t') && ino < |t.addrs| == |t'.addrs|
    && WriteiLogged(l, t, t', ino, iblock, Grown(size, off, c * MAXCHUNK), off + c * MAXCHUNK, Chunk(n - c * MAXCHUNK), log)
  }

  /** What an operation logs fits its reservation, with one block to spare before the inode
      block, which comes last, is logged. */
  predicate FitsReservation(log: set<nat>, iblock: nat) {
    |log| <= MAXOPBLOCKS && |log - {iblock}| < MAXOPBLOCKS
  }

  ghost predicate InSome(logs: seq<set<nat>>, b: nat) {
    exists c :: 0 <= c < |logs| && b in logs[c]
  }

  lemma LoggedChanges(l: Layout, t: Trees, t': Trees, ino: nat, iblock: nat, size: nat, off: nat, n: nat, log: set<nat>)
    requires Shaped(l, t) && Shaped(l, t') && ino < |t.addrs| == |t'.addrs|
    requires WriteiLogged(l, t, t', ino, iblock, size, off, n, log)
    ensures forall b :: 0 <= b < l.size && t'.disk[b] != t.disk[b] ==> b in log
  {
  }

  lemma MoreLogs(logs: seq<set<nat>>, log: set<nat>)
    ensures forall b :: InSome(logs + [log], b) <==> InSome(logs, b) || b in log
  {
    forall b: nat ensures InSome(logs + [log], b) <==> InSome(logs, b) || b in log {
      if b in log {
        assert (logs + [log])[|logs|] == log;
      }
      if InSome(logs, b) {
        var c :| 0 <= c < |logs| && b in logs[c];
        assert (logs + [log])[c] == logs[c];
      }
    }
  }

  /** The operations of a filewrite of n bytes, the states between them and what they logged:
      together every block that changed. */
  ghost predicate Operations(l: Layout, trees: seq<Trees>, logs: seq<set<nat>>, ino: nat, iblock: nat, size: nat, off: nat, n: nat)
  {
    && |trees| == |logs| + 1
    && (forall c: nat, d: nat :: c < |logs| && d == c + 1 ==>
          ChunkLogged(l, trees[c], trees[d], ino, iblock, size, off, n, c, logs[c]))
    && (forall c :: 0 <= c < |trees| ==> |trees[c].disk| == l.size)
    && (forall b :: 0 <= b < l.size && trees[|logs|].disk[b] != trees[0].disk[b] ==> InSome(logs, b))
  }

  /** It takes k chunks to hold i bytes. */
  predicate CoverExactly(k: nat, i: nat) {
    i <= k * MAXCHUNK < i + MAXCHUNK
  }

  /** filewrite after i bytes. */
  ghost predicate Progress(l: Layout, trees: seq<Trees>, logs: seq<set<nat>>, ino: nat, iblock: nat, size: nat, off: nat,
                           src: seq<byte>, i: nat)
  {
    && Operations(l, trees, logs, ino, iblock, size, off, |src|)
    && i <= |src| && CoverExactly(|logs|, i) && (i == |logs| * MAXCHUNK || i == |src|)
    && Shaped(l, trees[0]) && Wrote(l, trees[0], trees[|logs|], ino, off, src[..i])
  }

  lemma OneMoreChunk(l: Layout, trees: seq<Trees>, logs: seq<set<nat>>, ino: nat, iblock: nat, size: nat, off: nat,
                     src: seq<byte>, i: nat, t': Trees, log: set<nat>)
    requires Progress(l, trees, logs, ino, iblock, size, off, src, i) && i < |src|
    requires var t, n := trees[|logs|], Chunk(|src| - i);
             && Shaped(l, t) && Shaped(l, t') && ino < |t.addrs| == |t'.addrs|
             && Wrote(l, t, t', ino, off + i, src[i..i + n])
             && WriteiLogged(l, t, t', ino, iblock, Grown(size, off, i), off + i, n, log)
    ensures Progress(l, trees + [t'], logs + [log], ino, iblock, size, off, src, i + Chunk(|src| - i))
  {
    hide Operations, Wrote, WriteiLogged, Shaped, Grown;
    var n := Chunk(|src| - i);
    LengthOf(l, trees, logs, ino, iblock, size, off, |src|);
    OneMoreOperation(l, trees, logs, ino, iblock, size, off, |src|, t', log);
    assert |src[..i]| == i;
    WroteTransitive(l, trees[0], trees[|logs|], t', ino, off, src[..i], src[i..i + n]);
    assert src[..i] + src[i..i + n] == src[..i + n];
    var trees' := trees + [t'];
    assert trees'[|logs| + 1] == t' && trees'[0] == trees[0];
  }

  lemma LengthOf(l: Layout, trees: seq<Trees>, logs: seq<set<nat>>, ino: nat, iblock: nat, size: nat, off: nat, n: nat)
    requires Operations(l, trees, logs, ino, iblock, size, off, n)
    ensures |trees| == |logs| + 1
  {
  }

  lemma OneMoreOperation(l: Layout, trees: seq<Trees>, logs: seq<set<nat>>, ino: nat, iblock: nat, size: nat, off: nat,
                         n: nat, t': Trees, log: set<nat>)
    requires Operations(l, trees, logs, ino, iblock, size, off, n)
    requires ChunkLogged(l, trees[|logs|], t', ino, iblock, size, off, n, |logs|, log)
    ensures Operations(l, trees + [t'], logs + [log], ino, iblock, size, off, n)
  {
    hide InSome, WriteiLogged;
    var c := |logs|;
    MoreLogs(logs, log);
    LoggedChanges(l, trees[c], t', ino, iblock, Grown(size, off, c * MAXCHUNK), off + c * MAXCHUNK,
                  Chunk(n - c * MAXCHUNK), log);
    assert (trees + [t'])[c + 1] == t' && (trees + [t'])[0] == trees[0];
  }

  /** One operation of filewrite: a chunk goes to writei at the offset, which moves on. */
  method WriteChunk(fs: FS.FileSystem, f: File, ghost ino: nat, ghost iblock: nat, chunk: seq<byte>)
      returns (r: FS.Outcome, ghost log: set<nat>)
    requires fs.Valid() && ino < |fs.inodes| && fs.inodes[ino] == f.ip && f.off < UINT && |chunk| <= MAXCHUNK
    modifies fs`owner, f`off, f.ip, fs.disk
    ensures fs.Valid() && (r.Panic? ==> fs.Full())
    ensures r.Error? <==> Refused(fs.l, old(f.ip.size), old(f.off), |chunk|)
    ensures r.Error? ==> fs.T() == old(fs.T()) && f.ip.size == old(f.ip.size) && f.off == old(f.off)
    ensures r.Done? ==>
              && r.n == |chunk| && f.off == old(f.off) + |chunk|
              && f.ip.size == Grown(old(f.ip.size), old(f.off), |chunk|)
              && Wrote(fs.l, old(fs.T()), fs.T(), ino, old(f.off), chunk)
              && WriteiLogged(fs.l, old(fs.T()), fs.T(), ino, iblock, old(f.ip.size), old(f.off), |chunk|, log)
    ensures r.Done? && NoHoles(fs.l, old(fs.T()), ino, old(f.ip.size)) ==>
              NoHoles(fs.l, fs.T(), ino, f.ip.size) && (fs.l.tiers == 1 ==> FitsReservation(log, iblock))
  {
    hide Forest, Wrote, NoHoles, Content, WriteiLogged, Taken, FilledWithin;
    r, log := fs.Writei(f.ip, ino, iblock, chunk, f.off);
    if r.Done? {
      f.off := f.off + r.n;
      assert |chunk| <= 3 * BSIZE;
    }
  }

  /** filewrite returns n or -1.  Either way the first `i` bytes of src are in the file at the
      old offset and the offset has moved by i.  It took one operation for every MAXCHUNK
      bytes of these: `trees` are the states between them, and `logs` what each of them
      logged, which is every block it changed and no more than MAXOPBLOCKS blocks. */
  method Filewrite(fs: FS.FileSystem, f: File, ghost ino: nat, ghost iblock: nat, src: seq<byte>)
      returns (r: Result, ghost i: nat, ghost trees: seq<Trees>, ghost logs: seq<set<nat>>)
    requires fs.Valid() && ino < |fs.inodes| && fs.inodes[ino] == f.ip && f.off < UINT && |src| < UINT
    modifies fs`owner, f`off, f.ip, fs.disk
    ensures fs.Valid() && i <= |src|
    ensures r.Panic? ==> fs.Full()
    ensures r.Ret? ==>
              && r.n == (if i == |src| && f.writable then |src| else -1)
              && f.off == old(f.off) + i && f.ip.size == Grown(old(f.ip.size), old(f.off), i)
              && Wrote(fs.l, old(fs.T()), fs.T(), ino, old(f.off), src[..i])
    ensures r.Ret? && f.writable && i < |src| ==> Refused(fs.l, f.ip.size, f.off, Chunk(|src| - i))
    ensures r.Ret? && !f.writable ==> i == 0
    ensures r.Ret? ==> CoverExactly(|logs|, i)
    ensures Operations(fs.l, trees, logs, ino, iblock, old(f.ip.size), old(f.off), |src|)
    ensures trees[0] == old(fs.T()) && (r.Ret? ==> trees[|logs|] == fs.T())
    ensures fs.l.tiers == 1 && NoHoles(fs.l, old(fs.T()), ino, old(f.ip.size)) ==>
              forall c :: 0 <= c < |logs| ==> FitsReservation(logs[c], iblock)
  {
    hide Forest, Wrote, NoHoles, Content, WriteiLogged, Progress, Operations;
    r, i, trees, logs := Ret(-1), 0, [fs.T()], [];
    ghost var t0, size, off := fs.T(), f.ip.size, f.off;
    NoChunk(fs.l, t0, ino, iblock, size, off, src);
    ProgressShows(fs.l, trees, logs, ino, iblock, size, off, src, i);
    if !f.writable {
      return;
    }
    var n, done := |src|, 0;
    while done < n
      invariant 0 <= done <= n && i == done
      invariant fs.Valid() && f.off == off + i && (f.off < UINT || i == n) && f.ip.size == Grown(size, off, i)
      invariant NoHoles(fs.l, t0, ino, size) ==> NoHoles(fs.l, fs.T(), ino, f.ip.size)
      invariant |trees| == |logs| + 1 && trees[0] == t0 && trees[|logs|] == fs.T()
      invariant Progress(fs.l, trees, logs, ino, iblock, size, off, src, i)
      invariant fs.l.tiers == 1 && NoHoles(fs.l, t0, ino, size) ==>
                  forall c :: 0 <= c < |logs| ==> FitsReservation(logs[c], iblock)
    {
      var n1 := n - done;
      if n1 > MAXCHUNK {
        n1 := MAXCHUNK;
      }
      ProgressShows(fs.l, trees, logs, ino, iblock, size, off, src, i);
      var out;
      ghost var log;
      out, log := WriteChunk(fs, f, ino, iblock, src[done..done + n1]);
      if out.Panic? {
        return Panic, i, trees, logs;
      }
      if out.Error? {
        break;
      }
      OneMoreChunk(fs.l, trees, logs, ino, iblock, size, off, src, i, fs.T(), log);
      trees, logs := trees + [fs.T()], logs + [log];
      done := done + out.n;
      i := done;
    }
    ProgressShows(fs.l, trees, logs, ino, iblock, size, off, src, i);
    r := if done == n then Ret(n) else Ret(-1);
  }

  lemma NoChunk(l: Layout, t: Trees, ino: nat, iblock: nat, size: nat, off: nat, src: seq<byte>)
    requires Shaped(l, t) && ino < |t.addrs|
    ensures Progress(l, [t], [], ino, iblock, size, off, src, 0)
  {
    NothingWritten(l, t, ino, off);
  }

  lemma ProgressShows(l: Layout, trees: seq<Trees>, logs: seq<set<nat>>, ino: nat, iblock: nat, size: nat, off: nat,
                      src: seq<byte>, i: nat)
    requires Progress(l, trees, logs, ino, iblock, size, off, src, i)
    ensures |trees| == |logs| + 1 && Operations(l, trees, logs, ino, iblock, size, off, |src|)
    ensures i <= |src| && CoverExactly(|logs|, i)
    ensures Shaped(l, trees[0]) && Wrote(l, trees[0], trees[|logs|], ino, off, src[..i])
  {
  }
}
