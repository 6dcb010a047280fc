/** The block trees of fs.c: which disk block every position of every inode's tree holds,
    and the ownership that keeps the trees apart. */
module FsTree {
  import opened DiskBytes

  type Disk = seq<Block>

  /** A position in an inode's tree: the slot in ip->addrs, then one index per index block. */
  type Path = seq<nat>

  /** A position in some inode's tree. */
  datatype Key = Key(ino: nat, path: Path)

  /** ndirect direct slots, then one slot for each of the indirect tiers; blocks below
      datastart are boot block, superblock, log, inodes and free map. */
  datatype Layout = Layout(ndirect: nat, tiers: nat, size: nat, bmapstart: nat, datastart: nat) {
    predicate Valid() {
      && 1 <= tiers <= 3 && 0 < datastart <= size < UINT
      && bmapstart + size / BPB < datastart
    }

    function Slots(): nat {
      ndirect + tiers
    }

    /** The free map block that covers b. */
    function MapBlock(b: nat): nat {
      bmapstart + b / BPB
    }

    /** MAXFILE */
    function MaxFile(): nat {
      ndirect + (if tiers >= 1 then 128 else 0) + (if tiers >= 2 then 128 * 128 else 0)
      + (if tiers >= 3 then 128 * 128 * 128 else 0)
    }

    /** The number of index blocks above the data blocks of a slot. */
    function Depth(slot: nat): nat {
      if slot < ndirect then 0 else slot - ndirect + 1
    }

    predicate IsPath(p: Path) {
      && p != [] && p[0] < Slots() && |p| <= 1 + Depth(p[0])
      && forall i :: 1 <= i < |p| ==> p[i] < NINDIRECT
    }

    /** A position that holds file data rather than an index block. */
    predicate IsLeaf(p: Path) {
      IsPath(p) && |p| == 1 + Depth(p[0])
    }

    /** bmap's tiers: where file block bn hangs. */
    function PathOf(bn: nat): Path
      requires Valid() && bn < MaxFile()
    {
      if bn < ndirect then [bn]
      else
        var b1 := bn - ndirect;
        if b1 < 128 then [ndirect, b1]
        else
          var b2 := b1 - 128;
          if b2 < 128 * 128 then [ndirect + 1, b2 / 128, b2 % 128]
          else
            var b3 := b2 - 128 * 128;
            [ndirect + 2, b3 / (128 * 128), b3 / 128 % 128, b3 % 128]
    }

    function BlockAt(p: Path): nat
      requires IsLeaf(p) && tiers <= 3
    {
      if p[0] < ndirect then p[0]
      else if p[0] == ndirect then ndirect + p[1]
      else if p[0] == ndirect + 1 then ndirect + 128 + 128 * p[1] + p[2]
      else ndirect + 128 + 128 * 128 + 128 * 128 * p[1] + 128 * p[2] + p[3]
    }
  }

  /** The tier arithmetic is a bijection between file blocks and leaf positions. */
  lemma PathOfIsLeaf(l: Layout, bn: nat)
    requires l.Valid() && bn < l.MaxFile()
    ensures l.IsLeaf(l.PathOf(bn)) && l.BlockAt(l.PathOf(bn)) == bn
  {
    var b2 := bn - l.ndirect - 128;
    if 0 <= b2 < 128 * 128 {
      Digits(b2);
    } else if b2 >= 128 * 128 {
      Digits(b2 - 128 * 128);
    }
  }

  lemma Digits(n: nat)
    ensures n == 128 * (n / 128) + n % 128 && n % 128 < 128 && n / 128 % 128 < 128
    ensures n / 128 == 128 * (n / (128 * 128)) + n / 128 % 128
  {
    assert n / (128 * 128) == n / 128 / 128;
  }

  lemma LeafIsPathOf(l: Layout, p: Path)
    requires l.Valid() && l.IsLeaf(p)
    ensures l.BlockAt(p) < l.MaxFile() && l.PathOf(l.BlockAt(p)) == p
  {
    var slot := p[0];
    if slot < l.ndirect {
      assert p == [slot];
    } else if slot == l.ndirect {
      assert p == [slot, p[1]];
    } else if slot == l.ndirect + 1 {
      assert p == [slot, p[1], p[2]];
      assert (128 * p[1] + p[2]) / 128 == p[1];
    } else {
      ThreeDigits(p[1], p[2], p[3]);
      assert p == [slot, p[1], p[2], p[3]];
    }
  }

  lemma ThreeDigits(x: nat, y: nat, z: nat)
    requires x < 128 && y < 128 && z < 128
    ensures var n := 128 * 128 * x + 128 * y + z;
            n / (128 * 128) == x && n / 128 % 128 == y && n % 128 == z
  {
    var high := 128 * x + y;
    var n := 128 * high + z;
    assert n / 128 == high && n % 128 == z;
    assert high / 128 == x && high % 128 == y;
    assert n == 128 * 128 * x + (128 * y + z) && 128 * y + z < 128 * 128;
  }

  // ----- What the trees hold -----

  /** The state that the trees live in: ip->addrs of every inode, and the disk. */
  datatype Trees = Trees(disk: Disk, addrs: seq<seq<nat>>)

  ghost predicate Shaped(l: Layout, t: Trees) {
    && l.Valid() && |t.disk| == l.size
    && forall i :: 0 <= i < |t.addrs| ==> |t.addrs[i]| == l.Slots()
  }

  predicate Used(l: Layout, d: Disk, b: nat)
    requires l.Valid() && |d| == l.size && b < l.size
  {
    MapBit(d[l.MapBlock(b)], b)
  }

  ghost predicate IsKey(l: Layout, t: Trees, k: Key) {
    k.ino < |t.addrs| && l.IsPath(k.path)
  }

  function Parent(p: Path): Path
    requires |p| > 1
  {
    p[..|p| - 1]
  }

  function Last(p: Path): nat
    requires |p| > 0
  {
    p[|p| - 1]
  }

  /** The block number at a position; 0 when bmap has not been there yet. */
  ghost function Addr(l: Layout, t: Trees, ino: nat, p: Path): (a: nat)
    requires Shaped(l, t) && ino < |t.addrs| && l.IsPath(p)
    decreases |p|
  {
    if |p| == 1 then t.addrs[ino][p[0]]
    else
      var up := Addr(l, t, ino, Parent(p));
      if 0 < up < l.size then Word(t.disk[up], Last(p)) else 0
  }

  /** The ownership forest: every block in use at some position is a data block, marked in
      the free map, and recorded as that position's: so no block has two positions. */
  ghost predicate Forest(l: Layout, t: Trees, owner: map<nat, Key>) {
    && Shaped(l, t)
    && (forall b :: 0 <= b < l.datastart ==> Used(l, t.disk, b))
    && (forall i, p :: 0 <= i < |t.addrs| && l.IsPath(p) ==> OwnsBlock(l, t, owner, i, p))
  }

  ghost predicate OwnsBlock(l: Layout, t: Trees, owner: map<nat, Key>, i: nat, p: Path)
    requires Shaped(l, t) && i < |t.addrs| && l.IsPath(p)
  {
    var a := Addr(l, t, i, p);
    a != 0 ==> l.datastart <= a < l.size && Used(l, t.disk, a) && a in owner && owner[a] == Key(i, p)
  }

  // ----- bmap adds one block -----

  /** balloc: the bit of b is set and the block zeroed. */
  function Allocate(l: Layout, d: Disk, b: nat): (r: Disk)
    requires l.Valid() && |d| == l.size && b < l.size
  {
    var m := l.MapBlock(b);
    d[m := FlipMapBit(d[m], b)][b := ZeroBlock()]
  }

  /** The slot at position p of inode ino receives block number b. */
  ghost function SetSlot(l: Layout, t: Trees, ino: nat, p: Path, b: nat): Trees
    requires Shaped(l, t) && ino < |t.addrs| && l.IsPath(p) && b < UINT
    requires |p| > 1 ==> 0 < Addr(l, t, ino, Parent(p)) < l.size
  {
    if |p| == 1 then
      var slots: seq<nat> := t.addrs[ino][p[0] := b];
      t.(addrs := t.addrs[ino := slots])
    else
      var up := Addr(l, t, ino, Parent(p));
      t.(disk := t.disk[up := PutWord(t.disk[up], Last(p), b)])
  }

  lemma AllocateUsed(l: Layout, d: Disk, b: nat, c: nat)
    requires l.Valid() && |d| == l.size && l.datastart <= b < l.size && c < l.size && !Used(l, d, b)
    ensures |Allocate(l, d, b)| == l.size
    ensures Used(l, Allocate(l, d, b), c) == (c == b || Used(l, d, c))
  {
    if l.MapBlock(c) == l.MapBlock(b) {
      FlipMapBitFlips(d[l.MapBlock(b)], b, c);
    }
  }

  /** Writing a data or index block leaves the free map alone. */
  lemma UsedElsewhere(l: Layout, d: Disk, a: nat, data: Block)
    requires l.Valid() && |d| == l.size && l.datastart <= a < l.size
    ensures forall c :: 0 <= c < l.size ==> Used(l, d[a := data], c) == Used(l, d, c)
  {
    forall c: nat | c < l.size ensures Used(l, d[a := data], c) == Used(l, d, c) {
      assert c / BPB <= l.size / BPB;
    }
  }

  /** The state while a fresh block is allocated but not yet linked. */
  ghost predicate Fresh(l: Layout, t: Trees, b: nat)
    requires Shaped(l, t)
  {
    && l.datastart <= b < l.size && t.disk[b] == ZeroBlock() && Used(l, t.disk, b)
    && forall i, p :: 0 <= i < |t.addrs| && l.IsPath(p) ==> Addr(l, t, i, p) != b
  }

  lemma ParentIsPath(l: Layout, p: Path)
    requires l.IsPath(p) && |p| > 1
    ensures l.IsPath(Parent(p)) && Parent(p) + [Last(p)] == p && Last(p) < NINDIRECT
    ensures !l.IsLeaf(Parent(p))
  {
  }

  lemma {:induction false} AllocateKeepsAddr(l: Layout, t: Trees, owner: map<nat, Key>, b: nat, ino: nat, p: Path)
    requires Forest(l, t, owner) && l.datastart <= b < l.size && !Used(l, t.disk, b)
    requires ino < |t.addrs| && l.IsPath(p)
    ensures Addr(l, t.(disk := Allocate(l, t.disk, b)), ino, p) == Addr(l, t, ino, p)
    decreases |p|
  {
    if |p| > 1 {
      AllocateKeepsAddr(l, t, owner, b, ino, Parent(p));
      assert OwnsBlock(l, t, owner, ino, Parent(p));
    }
  }

  /** After balloc the trees are the same trees, and the new block is fresh. */
  lemma AllocateKeepsForest(l: Layout, t: Trees, owner: map<nat, Key>, b: nat)
    requires Forest(l, t, owner) && l.datastart <= b < l.size && !Used(l, t.disk, b)
    ensures var t1 := t.(disk := Allocate(l, t.disk, b));
            Forest(l, t1, owner) && Fresh(l, t1, b)
  {
    var t1 := t.(disk := Allocate(l, t.disk, b));
    forall c: nat | c < l.size ensures Used(l, t1.disk, c) == (c == b || Used(l, t.disk, c)) {
      AllocateUsed(l, t.disk, b, c);
    }
    forall i: nat, p | i < |t1.addrs| && l.IsPath(p)
      ensures OwnsBlock(l, t1, owner, i, p) && Addr(l, t1, i, p) != b
    {
      AllocateKeepsAddr(l, t, owner, b, i, p);
      assert OwnsBlock(l, t, owner, i, p);
    }
  }

  /** Linking a fresh block into an empty slot changes that position and no other. */
  lemma {:induction false} LinkAddr(l: Layout, t: Trees, owner: map<nat, Key>, k: Key, b: nat, ino: nat, p: Path)
    requires Forest(l, t, owner) && Fresh(l, t, b)
    requires IsKey(l, t, k) && Addr(l, t, k.ino, k.path) == 0
    requires |k.path| > 1 ==> Addr(l, t, k.ino, Parent(k.path)) != 0
    requires ino < |t.addrs| && l.IsPath(p)
    ensures |k.path| > 1 ==> 0 < Addr(l, t, k.ino, Parent(k.path)) < l.size
    ensures Addr(l, SetSlot(l, t, k.ino, k.path, b), ino, p) == if Key(ino, p) == k then b else Addr(l, t, ino, p)
    decreases |p|
  {
    hide Used, Word, PutWord, ZeroBlock;
    if |k.path| > 1 {
      ParentIsPath(l, k.path);
      assert OwnsBlock(l, t, owner, k.ino, Parent(k.path));
    }
    if |p| > 1 {
      ParentIsPath(l, p);
      LinkAddr(l, t, owner, k, b, ino, Parent(p));
      assert OwnsBlock(l, t, owner, ino, Parent(p));
      ZeroWord(Last(p));
      if |k.path| > 1 {
        PutWordAt(t.disk[Addr(l, t, k.ino, Parent(k.path))], Last(k.path), b, Last(p));
      }
    }
  }

  lemma LinkKeepsForest(l: Layout, t: Trees, owner: map<nat, Key>, k: Key, b: nat)
    requires Forest(l, t, owner) && Fresh(l, t, b)
    requires IsKey(l, t, k) && Addr(l, t, k.ino, k.path) == 0
    requires |k.path| > 1 ==> Addr(l, t, k.ino, Parent(k.path)) != 0
    ensures |k.path| > 1 ==> 0 < Addr(l, t, k.ino, Parent(k.path)) < l.size
    ensures var t' := SetSlot(l, t, k.ino, k.path, b);
            && Forest(l, t', owner[b := k])
            && (forall i, p :: 0 <= i < |t.addrs| && l.IsPath(p) ==>
                  Addr(l, t', i, p) == if Key(i, p) == k then b else Addr(l, t, i, p))
  {
    if |k.path| > 1 {
      assert OwnsBlock(l, t, owner, k.ino, Parent(k.path));
    }
    var t' := SetSlot(l, t, k.ino, k.path, b);
    if |k.path| > 1 {
      var up := Addr(l, t, k.ino, Parent(k.path));
      UsedElsewhere(l, t.disk, up, PutWord(t.disk[up], Last(k.path), b));
    }
    assert Shaped(l, t') && forall c :: 0 <= c < l.size ==> Used(l, t'.disk, c) == Used(l, t.disk, c);
    hide Used, SetSlot;
    forall i: nat, p | i < |t'.addrs| && l.IsPath(p)
      ensures OwnsBlock(l, t', owner[b := k], i, p)
      ensures Addr(l, t', i, p) == if Key(i, p) == k then b else Addr(l, t, i, p)
    {
      LinkAddr(l, t, owner, k, b, i, p);
      assert OwnsBlock(l, t, owner, i, p);
    }
  }

  // ----- writei changes one data block -----

  lemma {:induction false} StoreAddr(l: Layout, t: Trees, owner: map<nat, Key>, k: Key, data: Block, ino: nat, p: Path)
    requires Forest(l, t, owner) && IsKey(l, t, k) && l.IsLeaf(k.path)
    requires 0 < Addr(l, t, k.ino, k.path) < l.size
    requires ino < |t.addrs| && l.IsPath(p)
    ensures Addr(l, t.(disk := t.disk[Addr(l, t, k.ino, k.path) := data]), ino, p) == Addr(l, t, ino, p)
    decreases |p|
  {
    if |p| > 1 {
      StoreAddr(l, t, owner, k, data, ino, Parent(p));
      assert OwnsBlock(l, t, owner, ino, Parent(p));
      assert OwnsBlock(l, t, owner, k.ino, k.path);
      ParentIsPath(l, p);
    }
  }

  lemma StoreKeepsForest(l: Layout, t: Trees, owner: map<nat, Key>, k: Key, data: Block)
    requires Forest(l, t, owner) && IsKey(l, t, k) && l.IsLeaf(k.path)
    requires Addr(l, t, k.ino, k.path) != 0
    ensures 0 < Addr(l, t, k.ino, k.path) < l.size
    ensures var t' := t.(disk := t.disk[Addr(l, t, k.ino, k.path) := data]);
            && Forest(l, t', owner)
            && (forall i, p :: 0 <= i < |t.addrs| && l.IsPath(p) ==> Addr(l, t', i, p) == Addr(l, t, i, p))
  {
    assert OwnsBlock(l, t, owner, k.ino, k.path);
    var a := Addr(l, t, k.ino, k.path);
    var t' := t.(disk := t.disk[a := data]);
    UsedElsewhere(l, t.disk, a, data);
    hide Used;
    assert Shaped(l, t') && forall c :: 0 <= c < l.size ==> Used(l, t'.disk, c) == Used(l, t.disk, c);
    forall i: nat, p | i < |t'.addrs| && l.IsPath(p)
      ensures OwnsBlock(l, t', owner, i, p) && Addr(l, t', i, p) == Addr(l, t, i, p)
    {
      StoreAddr(l, t, owner, k, data, i, p);
      assert OwnsBlock(l, t, owner, i, p);
    }
  }
}
