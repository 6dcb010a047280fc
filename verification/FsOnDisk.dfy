/** The file system as a disk holds it, inodes included: what survives when the memory is lost. */
module FsOnDisk {
  import opened DiskBytes
  import opened FsTree

  const INODEWORDS: nat := 16      // words in an inode on disk
  const IPB: nat := 8              // inodes per block
  const ADDRS: nat := 3            // words before the addresses

  /** How many inodes there are, and the block where they start. */
  datatype Inodes = Inodes(n: nat, start: nat) {
    predicate Fit(l: Layout) {
      l.Valid() && start + n / IPB < l.bmapstart && ADDRS + l.Slots() <= INODEWORDS
    }

    function SlotOf(d: Disk, i: nat, s: nat): nat
      requires i < n && s < INODEWORDS - ADDRS && start + n / IPB < |d|
    {
      assert i / IPB <= n / IPB;
      Word(d[start + i / IPB], i % IPB * INODEWORDS + ADDRS + s)
    }

    /** The addresses that the inode blocks hold. */
    function Addrs(l: Layout, d: Disk): seq<seq<nat>>
      requires Fit(l) && |d| == l.size
    {
      seq(n, i requires 0 <= i < n => seq(l.Slots(), s requires 0 <= s < l.Slots() => SlotOf(d, i, s)))
    }
  }

  /** The disk by itself holds a forest of block trees. */
  ghost predicate Consistent(l: Layout, inodes: Inodes, d: Disk) {
    inodes.Fit(l) && |d| == l.size && exists owner :: Forest(l, Trees(d, inodes.Addrs(l, d)), owner)
  }

  lemma {:induction false} AddrFromTail(l: Layout, t: Trees, t': Trees, owner: map<nat, Key>, ino: nat, p: Path)
    requires Forest(l, t, owner) && Shaped(l, t') && t'.addrs == t.addrs && ino < |t.addrs| && l.IsPath(p)
    requires forall b :: l.bmapstart <= b < l.size ==> t'.disk[b] == t.disk[b]
    ensures Addr(l, t', ino, p) == Addr(l, t, ino, p)
    decreases |p|
  {
    if |p| > 1 {
      ParentIsPath(l, p);
      AddrFromTail(l, t, t', owner, ino, Parent(p));
      assert OwnsBlock(l, t, owner, ino, Parent(p));
    }
  }

  /** The forest is in the free map and the data blocks. */
  lemma ForestFromTail(l: Layout, t: Trees, t': Trees, owner: map<nat, Key>)
    requires Forest(l, t, owner) && Shaped(l, t') && t'.addrs == t.addrs
    requires forall b :: l.bmapstart <= b < l.size ==> t'.disk[b] == t.disk[b]
    ensures Forest(l, t', owner)
  {
    forall c: nat | c < l.size ensures Used(l, t'.disk, c) == Used(l, t.disk, c) {
      assert c / BPB <= l.size / BPB;
    }
    hide Used;
    forall i: nat, p | i < |t.addrs| && l.IsPath(p) ensures OwnsBlock(l, t', owner, i, p) {
      AddrFromTail(l, t, t', owner, i, p);
      assert OwnsBlock(l, t, owner, i, p);
    }
  }

  lemma SlotsFromTail(l: Layout, inodes: Inodes, d: Disk, d': Disk, i: nat)
    requires inodes.Fit(l) && |d| == |d'| == l.size && i < inodes.n
    requires forall b :: inodes.start <= b < l.size ==> d'[b] == d[b]
    ensures inodes.Addrs(l, d')[i] == inodes.Addrs(l, d)[i]
  {
    assert i / IPB <= inodes.n / IPB;
    assert d'[inodes.start + i / IPB] == d[inodes.start + i / IPB];
    hide Word;
  }

  lemma ConsistentFromTail(l: Layout, inodes: Inodes, d: Disk, d': Disk)
    requires Consistent(l, inodes, d) && |d'| == l.size
    requires forall b :: inodes.start <= b < l.size ==> d'[b] == d[b]
    ensures Consistent(l, inodes, d')
  {
    var owner :| Forest(l, Trees(d, inodes.Addrs(l, d)), owner);
    forall i | 0 <= i < inodes.n ensures inodes.Addrs(l, d')[i] == inodes.Addrs(l, d)[i] {
      SlotsFromTail(l, inodes, d, d', i);
    }
    assert inodes.Addrs(l, d') == inodes.Addrs(l, d);
    assert Shaped(l, Trees(d', inodes.Addrs(l, d')));
    hide Forest;
    ForestFromTail(l, Trees(d, inodes.Addrs(l, d)), Trees(d', inodes.Addrs(l, d')), owner);
  }

  /** Where the inode blocks hold the addresses of the inodes in memory, or none for what an
      inode in memory has and iupdate has not written yet, the disk is consistent. */
  lemma {:induction false} FewerAddr(l: Layout, t: Trees, t': Trees, owner: map<nat, Key>, ino: nat, p: Path)
    requires Forest(l, t, owner) && Shaped(l, t') && t'.disk == t.disk && |t'.addrs| == |t.addrs|
    requires ino < |t.addrs| && l.IsPath(p)
    requires forall s :: 0 <= s < l.Slots() ==> t'.addrs[ino][s] == 0 || t'.addrs[ino][s] == t.addrs[ino][s]
    ensures Addr(l, t', ino, p) == 0 || Addr(l, t', ino, p) == Addr(l, t, ino, p)
    decreases |p|
  {
    if |p| > 1 {
      ParentIsPath(l, p);
      FewerAddr(l, t, t', owner, ino, Parent(p));
    }
  }

  lemma WrittenInodesAreConsistent(l: Layout, inodes: Inodes, t: Trees, owner: map<nat, Key>)
    requires inodes.Fit(l) && Forest(l, t, owner) && |t.addrs| == inodes.n
    requires forall i, s :: 0 <= i < inodes.n && 0 <= s < l.Slots() ==>
               inodes.SlotOf(t.disk, i, s) == 0 || inodes.SlotOf(t.disk, i, s) == t.addrs[i][s]
    ensures Consistent(l, inodes, t.disk)
  {
    var t' := Trees(t.disk, inodes.Addrs(l, t.disk));
    assert Shaped(l, t');
    hide Used;
    forall i: nat, p | i < |t'.addrs| && l.IsPath(p) ensures OwnsBlock(l, t', owner, i, p) {
      FewerAddr(l, t, t', owner, i, p);
      assert OwnsBlock(l, t, owner, i, p);
    }
    assert Forest(l, t', owner);
  }
}
