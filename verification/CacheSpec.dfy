/** What the regions of bio.c do to the cache and the disk, as functions, and the cache
    agreement that each of them keeps. */
module CacheSpec {
  import opened BlockDevice
  import opened BufferRing

  /** nbuf is NBUF and rootdev the device in use; binit leaves every buffer on device 0. */
  datatype Config = Config(nbuf: nat, rootdev: int)

  datatype State = State(
    bs: seq<Buf>,          // bcache.buf, then bcache.head
    lru: seq<nat>,         // the ring, most recently used first
    at: map<int, nat>,     // which buffer holds which block of rootdev
    mem: seq<Block>,       // every block as a reader of the cache sees it
    disk: seq<Block>)

  /** Cache agreement for one buffer: it is the only holder of its block, and what it
      holds is the disk's contents unless it is locked, not read yet, or waiting for the log. */
  ghost predicate BufferInv(p: Config, c: State, i: nat)
    requires i < |c.bs|
  {
    var b := c.bs[i];
    && (b.locked ==> b.refcnt > 0)
    && (b.dirty ==> b.valid)
    && (b.refcnt > 0 || b.dirty ==> b.dev == p.rootdev)
    && (b.dev == p.rootdev ==>
          && 0 <= b.blockno < |c.disk|
          && b.blockno in c.at && c.at[b.blockno] == i
          && (b.valid && !b.dirty && !b.locked ==> b.data == c.disk[b.blockno]))
  }

  ghost predicate BlockInv(c: State, block: int)
    requires 0 <= block < |c.disk| == |c.mem|
  {
    if block in c.at && c.at[block] < |c.bs| && c.bs[c.at[block]].valid
    then c.mem[block] == c.bs[c.at[block]].data
    else c.mem[block] == c.disk[block]
  }

  ghost predicate Inv(p: Config, c: State) {
    && p.nbuf > 0 && p.rootdev != 0
    && Ring(c.bs, p.nbuf, c.lru) && |c.lru| == p.nbuf && |c.bs| == p.nbuf + 1
    && (forall i :: 0 <= i < p.nbuf ==> i in c.lru)
    && |c.mem| == |c.disk|
    && (forall b :: b in c.at ==> 0 <= b < |c.disk| && c.at[b] < p.nbuf
                                  && c.bs[c.at[b]].dev == p.rootdev && c.bs[c.at[b]].blockno == b)
    && (forall i :: 0 <= i < p.nbuf ==> BufferInv(p, c, i))
    && (forall b :: 0 <= b < |c.disk| ==> BlockInv(c, b))
  }

  predicate Eligible(b: Buf) {
    b.refcnt == 0 && !b.dirty
  }

  /** The buffer bget recycles: the last eligible one of the ring. */
  ghost predicate IsVictim(c: State, i: nat)
    requires forall j :: 0 <= j < |c.lru| ==> c.lru[j] < |c.bs|
  {
    exists k :: 0 <= k < |c.lru| && c.lru[k] == i && Eligible(c.bs[i])
                && forall j :: k < j < |c.lru| ==> !Eligible(c.bs[c.lru[j]])
  }

  // ----- The regions -----

  /** bget finds the block cached. */
  function Hit(c: State, i: nat): State
    requires i < |c.bs|
  {
    c.(bs := c.bs[i := c.bs[i].(refcnt := c.bs[i].refcnt + 1)])
  }

  /** bget recycles buffer i for a block that is not cached. */
  function Recycle(p: Config, c: State, i: nat, block: int): State
    requires i < |c.bs|
  {
    var b := c.bs[i].(dev := p.rootdev, blockno := block, valid := false, dirty := false, refcnt := 1);
    c.(bs := c.bs[i := b], at := (map x | x in c.at && c.at[x] != i :: c.at[x])[block := i])
  }

  function Lock(c: State, i: nat): State
    requires i < |c.bs|
  {
    c.(bs := c.bs[i := c.bs[i].(locked := true)])
  }

  /** iderw: write a dirty buffer to its block, otherwise read the block. */
  function Sync(c: State, i: nat): State
    requires i < |c.bs| && 0 <= c.bs[i].blockno < |c.disk|
  {
    var b := c.bs[i];
    if b.dirty then
      c.(bs := c.bs[i := b.(valid := true, dirty := false)], disk := c.disk[b.blockno := b.data])
    else
      c.(bs := c.bs[i := b.(valid := true, data := c.disk[b.blockno])])
  }

  /** The holder of buffer i replaces its contents. */
  function Store(c: State, i: nat, data: Block): State
    requires i < |c.bs| && 0 <= c.bs[i].blockno < |c.mem|
  {
    c.(bs := c.bs[i := c.bs[i].(data := data)], mem := c.mem[c.bs[i].blockno := data])
  }

  function Mark(c: State, i: nat): State
    requires i < |c.bs|
  {
    c.(bs := c.bs[i := c.bs[i].(dirty := true)])
  }

  function Unlock(c: State, i: nat): State
    requires i < |c.bs|
  {
    c.(bs := c.bs[i := c.bs[i].(locked := false)])
  }

  /** The second half of brelse: drop a reference; the last one moves the buffer, at
      position k of the ring, to the front. */
  ghost function Drop(p: Config, c: State, k: nat): State
    requires k < |c.lru| && c.lru[k] < |c.bs| && c.bs[c.lru[k]].refcnt > 0
    requires Movable(LessOne(c.bs, c.lru[k]), p.nbuf, c.lru[k])
  {
    var i := c.lru[k];
    var bs := LessOne(c.bs, i);
    if bs[i].refcnt > 0 then c.(bs := bs)
    else c.(bs := LinkFront(Unlink(bs, i), p.nbuf, i), lru := [i] + Without(c.lru, k))
  }

  function LessOne(bs: seq<Buf>, i: nat): (r: seq<Buf>)
    requires i < |bs| && bs[i].refcnt > 0
    ensures |r| == |bs| && r[i] == bs[i].(refcnt := bs[i].refcnt - 1)
  {
    bs[i := bs[i].(refcnt := bs[i].refcnt - 1)]
  }

  /** The links that brelse follows lead somewhere. */
  predicate Movable(bs: seq<Buf>, h: nat, i: nat) {
    && i < h < |bs| && bs[i].next < |bs| && bs[i].prev < |bs| && bs[i].next != i && bs[i].prev != i
    && var rest := Unlink(bs, i); h < |rest| && rest[h].next < |rest|
  }

  lemma RingIsMovable(p: Config, c: State, k: nat)
    requires Ring(c.bs, p.nbuf, c.lru) && k < |c.lru| && c.bs[c.lru[k]].refcnt > 0
    ensures Movable(LessOne(c.bs, c.lru[k]), p.nbuf, c.lru[k])
  {
    hide Unlink, Node;
    var i := c.lru[k];
    var bs := LessOne(c.bs, i);
    SameLinksRing(c.bs, bs, p.nbuf, c.lru);
    UnlinkRing(bs, p.nbuf, c.lru, k);
    LinkFrontRing(Unlink(bs, i), p.nbuf, Without(c.lru, k), i);
  }

  // ----- Each region keeps cache agreement -----

  /** binit: every buffer on device 0, which is not in use. */
  lemma EmptyInv(p: Config, bs: seq<Buf>, lru: seq<nat>, disk: seq<Block>)
    requires p.nbuf > 0 && p.rootdev != 0 && |bs| == p.nbuf + 1 && |lru| == p.nbuf
    requires Ring(bs, p.nbuf, lru) && forall i :: 0 <= i < p.nbuf ==> i in lru
    requires forall i :: 0 <= i < p.nbuf ==>
               bs[i].dev == 0 && bs[i].refcnt == 0 && !bs[i].valid && !bs[i].dirty && !bs[i].locked
    ensures Inv(p, State(bs, lru, map[], disk, disk))
  {
  }

  /** A region that changes one buffer, and at most the block it holds, need only look at
      that buffer and that block. */
  lemma OneBufferKeepsInv(p: Config, c: State, d: State, i: nat)
    requires Inv(p, c) && i < p.nbuf && |d.bs| == |c.bs| && d.lru == c.lru && d.at == c.at
    requires d.bs == c.bs[i := d.bs[i]]
    requires d.bs[i].next == c.bs[i].next && d.bs[i].prev == c.bs[i].prev
    requires d.bs[i].dev == c.bs[i].dev == p.rootdev && d.bs[i].blockno == c.bs[i].blockno
    requires |d.mem| == |c.mem| && |d.disk| == |c.disk|
    requires forall b :: 0 <= b < |c.disk| && b != c.bs[i].blockno ==> d.mem[b] == c.mem[b] && d.disk[b] == c.disk[b]
    requires BufferInv(p, d, i) && BlockInv(d, c.bs[i].blockno)
    ensures Inv(p, d)
  {
    hide Ring;
    SameLinksRing(c.bs, d.bs, p.nbuf, c.lru);
    assert BufferInv(p, c, i);
    forall j | 0 <= j < p.nbuf ensures BufferInv(p, d, j) {
      assert BufferInv(p, c, j);
    }
    forall b | 0 <= b < |d.disk| ensures BlockInv(d, b) {
      assert BlockInv(c, b);
    }
  }

  /** The facts about a buffer that is in use. */
  lemma InUse(p: Config, c: State, i: nat)
    requires Inv(p, c) && i < p.nbuf && (c.bs[i].dev == p.rootdev || c.bs[i].refcnt > 0)
    ensures c.bs[i].dev == p.rootdev && BufferInv(p, c, i)
    ensures 0 <= c.bs[i].blockno < |c.disk| && BlockInv(c, c.bs[i].blockno)
  {
    assert BufferInv(p, c, i);
  }

  lemma HitKeepsInv(p: Config, c: State, i: nat)
    requires Inv(p, c) && i < p.nbuf && c.bs[i].dev == p.rootdev
    ensures Inv(p, Hit(c, i))
  {
    InUse(p, c, i);
    OneBufferKeepsInv(p, c, Hit(c, i), i);
  }

  lemma RecycleKeepsInv(p: Config, c: State, i: nat, block: int)
    requires Inv(p, c) && i < p.nbuf && Eligible(c.bs[i])
    requires 0 <= block < |c.disk| && block !in c.at
    ensures Inv(p, Recycle(p, c, i, block))
  {
    hide Ring;
    var d := Recycle(p, c, i, block);
    SameLinksRing(c.bs, d.bs, p.nbuf, c.lru);
    assert BufferInv(p, c, i);
    forall j | 0 <= j < p.nbuf ensures BufferInv(p, d, j) {
      assert BufferInv(p, c, j);
    }
    forall b | 0 <= b < |d.disk| ensures BlockInv(d, b) {
      assert BlockInv(c, b);
    }
  }

  lemma LockKeepsInv(p: Config, c: State, i: nat)
    requires Inv(p, c) && i < p.nbuf && c.bs[i].refcnt > 0
    ensures Inv(p, Lock(c, i))
  {
    InUse(p, c, i);
    OneBufferKeepsInv(p, c, Lock(c, i), i);
  }

  /** iderw shows readers nothing new, and writes the disk only from a dirty buffer. */
  lemma SyncKeepsInv(p: Config, c: State, i: nat)
    requires Inv(p, c) && i < p.nbuf && c.bs[i].locked && (c.bs[i].dirty || !c.bs[i].valid)
    ensures 0 <= c.bs[i].blockno < |c.disk| && Inv(p, Sync(c, i))
    ensures Sync(c, i).mem == c.mem && Sync(c, i).bs[i].data == c.mem[c.bs[i].blockno]
  {
    assert BufferInv(p, c, i);
    InUse(p, c, i);
    OneBufferKeepsInv(p, c, Sync(c, i), i);
  }

  lemma StoreKeepsInv(p: Config, c: State, i: nat, data: Block)
    requires Inv(p, c) && i < p.nbuf && c.bs[i].locked && c.bs[i].valid
    ensures 0 <= c.bs[i].blockno < |c.disk| && Inv(p, Store(c, i, data))
  {
    assert BufferInv(p, c, i);
    InUse(p, c, i);
    OneBufferKeepsInv(p, c, Store(c, i, data), i);
  }

  lemma MarkKeepsInv(p: Config, c: State, i: nat)
    requires Inv(p, c) && i < p.nbuf && c.bs[i].locked && c.bs[i].valid
    ensures Inv(p, Mark(c, i))
  {
    assert BufferInv(p, c, i);
    InUse(p, c, i);
    OneBufferKeepsInv(p, c, Mark(c, i), i);
  }

  /** Contents that neither the disk nor the log has must not be let go of. */
  predicate MayUnlock(c: State, i: nat)
    requires i < |c.bs|
  {
    var b := c.bs[i];
    b.valid && !b.dirty && 0 <= b.blockno < |c.disk| ==> b.data == c.disk[b.blockno]
  }

  lemma UnlockKeepsInv(p: Config, c: State, i: nat)
    requires Inv(p, c) && i < p.nbuf && c.bs[i].locked && MayUnlock(c, i)
    ensures Inv(p, Unlock(c, i))
  {
    assert BufferInv(p, c, i);
    InUse(p, c, i);
    OneBufferKeepsInv(p, c, Unlock(c, i), i);
  }

  /** Moving buffers about in the ring does not touch what they hold. */
  lemma RelinkKeepsInv(p: Config, c: State, d: State)
    requires Inv(p, c) && d.at == c.at && d.mem == c.mem && d.disk == c.disk
    requires |d.bs| == |c.bs| && forall i :: 0 <= i < |c.bs| ==> SameButLinks(c.bs[i], d.bs[i])
    requires Ring(d.bs, p.nbuf, d.lru) && |d.lru| == p.nbuf
    requires forall i :: 0 <= i < p.nbuf ==> i in d.lru
    ensures Inv(p, d)
  {
    hide Ring;
    forall j | 0 <= j < p.nbuf ensures BufferInv(p, d, j) {
      assert BufferInv(p, c, j);
    }
    forall b | 0 <= b < |d.disk| ensures BlockInv(d, b) {
      assert BlockInv(c, b);
    }
  }

  lemma FrontHasAll(lru: seq<nat>, k: nat, n: nat)
    requires k < |lru| && forall i :: 0 <= i < n ==> i in lru
    ensures forall i :: 0 <= i < n ==> i in [lru[k]] + Without(lru, k)
  {
    forall i | 0 <= i < n ensures i in [lru[k]] + Without(lru, k) {
      assert i in lru;
      var j :| 0 <= j < |lru| && lru[j] == i;
      if j != k {
        assert Without(lru, k)[if j < k then j else j - 1] == i;
      }
    }
  }

  lemma DropKeepsInv(p: Config, c: State, k: nat)
    requires Inv(p, c) && k < p.nbuf && c.bs[c.lru[k]].refcnt > 0
    requires !c.bs[c.lru[k]].locked || c.bs[c.lru[k]].refcnt > 1
    ensures Movable(LessOne(c.bs, c.lru[k]), p.nbuf, c.lru[k])
    ensures Inv(p, Drop(p, c, k))
    ensures var d := Drop(p, c, k);
            var i := c.lru[k];
            && d.at == c.at && d.mem == c.mem && d.disk == c.disk
            && SameButLinks(d.bs[i], c.bs[i].(refcnt := c.bs[i].refcnt - 1))
            && (forall j :: 0 <= j < p.nbuf && j != i ==> SameButLinks(d.bs[j], c.bs[j]))
  {
    RingIsMovable(p, c, k);
    var i := c.lru[k];
    var once := c.(bs := c.bs[i := c.bs[i].(refcnt := c.bs[i].refcnt - 1)]);
    InUse(p, c, i);
    OneBufferKeepsInv(p, c, once, i);
    if once.bs[i].refcnt == 0 {
      UnlinkRing(once.bs, p.nbuf, c.lru, k);
      LinkFrontRing(Unlink(once.bs, i), p.nbuf, Without(c.lru, k), i);
      FrontHasAll(c.lru, k, p.nbuf);
      RelinkKeepsInv(p, once, Drop(p, c, k));
    }
  }

  // ----- All interleavings -----

  /** One region, run by any process. */
  datatype Region =
    | HitR(i: nat)
    | RecycleR(i: nat, block: int)
    | LockR(i: nat)
    | SyncR(i: nat)
    | StoreR(i: nat, data: Block)
    | MarkR(i: nat)
    | UnlockR(i: nat)
    | DropR(k: nat)

  /** A region and who runs it: bwrite is called by the log alone. */
  datatype Step = Step(log: bool, r: Region)

  /** When a region can run: bget's choices, and the panics of iderw, bwrite and brelse. Only a
      buffer that bread has filled is stored to or marked. */
  ghost predicate Enabled(p: Config, c: State, s: Step) {
    && |c.bs| == p.nbuf + 1 && |c.mem| == |c.disk|
    && match s.r
       case HitR(i) => i < p.nbuf && c.bs[i].dev == p.rootdev
       case RecycleR(i, block) =>
         && i < p.nbuf && (forall j :: 0 <= j < |c.lru| ==> c.lru[j] < |c.bs|) && IsVictim(c, i)
         && 0 <= block < |c.disk| && block !in c.at
       case LockR(i) => i < p.nbuf && c.bs[i].refcnt > 0 && !c.bs[i].locked
       case SyncR(i) =>
         && i < p.nbuf && c.bs[i].locked && 0 <= c.bs[i].blockno < |c.disk|
         && if c.bs[i].valid then c.bs[i].dirty && s.log else true
       case StoreR(i, data) => i < p.nbuf && c.bs[i].locked && c.bs[i].valid && 0 <= c.bs[i].blockno < |c.mem|
       case MarkR(i) => i < p.nbuf && c.bs[i].locked && c.bs[i].valid
       case UnlockR(i) => i < p.nbuf && c.bs[i].locked
       case DropR(k) =>
         && k < p.nbuf && k < |c.lru| && c.lru[k] < |c.bs| && c.bs[c.lru[k]].refcnt > 0
         && (!c.bs[c.lru[k]].locked || c.bs[c.lru[k]].refcnt > 1)
         && Movable(LessOne(c.bs, c.lru[k]), p.nbuf, c.lru[k])
  }

  ghost function Do(p: Config, c: State, s: Step): State
    requires Enabled(p, c, s)
  {
    match s.r
    case HitR(i) => Hit(c, i)
    case RecycleR(i, block) => Recycle(p, c, i, block)
    case LockR(i) => Lock(c, i)
    case SyncR(i) => Sync(c, i)
    case StoreR(i, data) => Store(c, i, data)
    case MarkR(i) => Mark(c, i)
    case UnlockR(i) => Unlock(c, i)
    case DropR(k) => Drop(p, c, k)
  }

  // What a holder of a buffer must do is not tested by bio.c: new contents are passed to
  // log_write or bwrite before brelse. `changed` are the buffers for which that is still due.

  function Due(changed: set<nat>, s: Step): set<nat> {
    match s.r
    case StoreR(i, _) => changed + {i}
    case MarkR(i) => changed - {i}
    case SyncR(i) => changed - {i}
    case _ => changed
  }

  predicate Careful(changed: set<nat>, s: Step) {
    s.r.UnlockR? ==> s.r.i !in changed
  }

  ghost predicate IsSettled(p: Config, c: State, changed: set<nat>, i: nat)
    requires i < |c.bs|
  {
    if i in changed then c.bs[i].locked else c.bs[i].dev == p.rootdev ==> MayUnlock(c, i)
  }

  /** Every other buffer shows what the disk or the log has. */
  ghost predicate Settled(p: Config, c: State, changed: set<nat>) {
    |c.bs| == p.nbuf + 1 && forall i :: 0 <= i < p.nbuf ==> IsSettled(p, c, changed, i)
  }

  ghost predicate Legal(p: Config, c: State, changed: set<nat>, run: seq<Step>)
    decreases |run|
  {
    run == [] || (Enabled(p, c, run[0]) && Careful(changed, run[0])
                  && Legal(p, Do(p, c, run[0]), Due(changed, run[0]), run[1..]))
  }

  ghost function Exec(p: Config, c: State, changed: set<nat>, run: seq<Step>): State
    requires Legal(p, c, changed, run)
    decreases |run|
  {
    if run == [] then c else Exec(p, Do(p, c, run[0]), Due(changed, run[0]), run[1..])
  }

  /** With nothing due the invariant is enough. */
  lemma InvIsSettled(p: Config, c: State)
    requires Inv(p, c) && forall i :: 0 <= i < p.nbuf ==> !c.bs[i].locked
    ensures Settled(p, c, {})
  {
    forall i | 0 <= i < p.nbuf ensures IsSettled(p, c, {}, i) {
      assert BufferInv(p, c, i);
    }
  }

  lemma RegionKeepsInv(p: Config, c: State, changed: set<nat>, s: Step)
    requires Inv(p, c) && Settled(p, c, changed) && Enabled(p, c, s) && Careful(changed, s)
    ensures Inv(p, Do(p, c, s))
  {
    match s.r
    case HitR(i) => HitKeepsInv(p, c, i);
    case RecycleR(i, block) => RecycleKeepsInv(p, c, i, block);
    case LockR(i) => LockKeepsInv(p, c, i);
    case SyncR(i) => SyncKeepsInv(p, c, i);
    case StoreR(i, data) => StoreKeepsInv(p, c, i, data);
    case MarkR(i) => MarkKeepsInv(p, c, i);
    case UnlockR(i) =>
      assert BufferInv(p, c, i) && IsSettled(p, c, changed, i);
      UnlockKeepsInv(p, c, i);
    case DropR(k) => DropKeepsInv(p, c, k);
  }

  /** log_write and bwrite leave nothing due, and no other process can upset that. */
  lemma RegionKeepsSettled(p: Config, c: State, changed: set<nat>, s: Step)
    requires Inv(p, c) && Settled(p, c, changed) && Enabled(p, c, s) && Careful(changed, s)
    ensures Settled(p, Do(p, c, s), Due(changed, s))
  {
    RegionKeepsInv(p, c, changed, s);
    var d, due := Do(p, c, s), Due(changed, s);
    forall i | 0 <= i < p.nbuf ensures IsSettled(p, d, due, i) {
      StillSettled(p, c, changed, s, i);
    }
  }

  lemma StillSettled(p: Config, c: State, changed: set<nat>, s: Step, i: nat)
    requires Inv(p, c) && i < p.nbuf && IsSettled(p, c, changed, i) && Enabled(p, c, s) && Careful(changed, s)
    requires Inv(p, Do(p, c, s))
    ensures i < |Do(p, c, s).bs| && IsSettled(p, Do(p, c, s), Due(changed, s), i)
  {
    hide Ring, BlockInv;
    assert BufferInv(p, c, i) && BufferInv(p, Do(p, c, s), i);
    match s.r
    case SyncR(j) => SyncSettles(p, c, changed, j, i);
    case DropR(k) => DropKeepsInv(p, c, k);
    case _ =>
  }

  /** iderw shows the disk's contents in its own buffer, and writes no other buffer's block. */
  lemma SyncSettles(p: Config, c: State, changed: set<nat>, j: nat, i: nat)
    requires Inv(p, c) && i < p.nbuf && j < p.nbuf && IsSettled(p, c, changed, i)
    requires c.bs[j].locked && 0 <= c.bs[j].blockno < |c.disk|
    ensures IsSettled(p, Sync(c, j), changed - {j}, i)
  {
    hide Ring, BlockInv;
    assert BufferInv(p, c, i) && BufferInv(p, c, j);
  }

  lemma {:induction false} RunKeepsInv(p: Config, c: State, changed: set<nat>, run: seq<Step>)
    requires Inv(p, c) && Settled(p, c, changed) && Legal(p, c, changed, run)
    ensures Inv(p, Exec(p, c, changed, run))
    decreases |run|
  {
    hide Inv, Enabled, Do, Settled, Due, Careful;
    if run != [] {
      RegionKeepsInv(p, c, changed, run[0]);
      RegionKeepsSettled(p, c, changed, run[0]);
      RunKeepsInv(p, Do(p, c, run[0]), Due(changed, run[0]), run[1..]);
    }
  }

  /** Main theorem: in every state that any interleaving of regions can reach. */
  lemma CacheAgreement(p: Config, c: State, changed: set<nat>, run: seq<Step>)
    requires Inv(p, c) && Settled(p, c, changed) && Legal(p, c, changed, run)
    ensures var d := Exec(p, c, changed, run);
            && |d.bs| == p.nbuf + 1 && |d.lru| == p.nbuf && |d.mem| == |d.disk|
            // one buffer per block of the device in use
            && (forall i, j :: 0 <= i < j < p.nbuf && d.bs[i].dev == p.rootdev && d.bs[j].dev == p.rootdev ==>
                  d.bs[i].blockno != d.bs[j].blockno)
            // valid, clean and unlocked means equal to the disk
            && (forall i :: 0 <= i < p.nbuf && d.bs[i].dev == p.rootdev && d.bs[i].valid && !d.bs[i].dirty && !d.bs[i].locked ==>
                  0 <= d.bs[i].blockno < |d.disk| && d.bs[i].data == d.disk[d.bs[i].blockno])
            // the ring is a permutation of the buffers
            && (forall i :: 0 <= i < p.nbuf ==> i in d.lru)
            && (forall j, k :: 0 <= j < k < p.nbuf ==> d.lru[j] != d.lru[k])
  {
    RunKeepsInv(p, c, changed, run);
    var d := Exec(p, c, changed, run);
    hide Legal, Exec;
    forall i, j | 0 <= i < j < p.nbuf && d.bs[i].dev == p.rootdev && d.bs[j].dev == p.rootdev
      ensures d.bs[i].blockno != d.bs[j].blockno
    {
      assert BufferInv(p, d, i) && BufferInv(p, d, j);
    }
    forall i | 0 <= i < p.nbuf && d.bs[i].dev == p.rootdev && d.bs[i].valid && !d.bs[i].dirty && !d.bs[i].locked
      ensures 0 <= d.bs[i].blockno < |d.disk| && d.bs[i].data == d.disk[d.bs[i].blockno]
    {
      assert BufferInv(p, d, i);
    }
  }

  /** A buffer that log_write has marked keeps its block, and that block stays as it is on
      disk, until the log writes the buffer itself. */
  lemma PinnedStays(p: Config, c: State, s: Step, i: nat)
    requires Inv(p, c) && Enabled(p, c, s) && i < p.nbuf && c.bs[i].dirty && s != Step(true, SyncR(i))
    ensures var d := Do(p, c, s);
            && i < |d.bs| && d.bs[i].dirty && d.bs[i].dev == c.bs[i].dev && d.bs[i].blockno == c.bs[i].blockno
            && 0 <= c.bs[i].blockno < |c.disk| == |d.disk|
            && d.disk[c.bs[i].blockno] == c.disk[c.bs[i].blockno]
            && (d.bs[i].data == c.bs[i].data || (s.r.StoreR? && s.r.i == i))
  {
    hide Ring;
    assert BufferInv(p, c, i);
    match s.r
    case SyncR(j) => assert BufferInv(p, c, j);
    case DropR(k) => DropKeepsInv(p, c, k);
    case _ =>
  }

  /** However the other processes interleave with it: between log_write and the log's own write
      of the buffer, the block is neither recycled nor written. */
  lemma {:induction false} PinnedStaysInRun(p: Config, c: State, changed: set<nat>, run: seq<Step>, i: nat)
    requires Inv(p, c) && Settled(p, c, changed) && Legal(p, c, changed, run) && i < p.nbuf && c.bs[i].dirty && Step(true, SyncR(i)) !in run
    ensures var d := Exec(p, c, changed, run);
            && i < |d.bs| && d.bs[i].dirty && d.bs[i].blockno == c.bs[i].blockno
            && 0 <= c.bs[i].blockno < |c.disk| == |d.disk|
            && d.disk[c.bs[i].blockno] == c.disk[c.bs[i].blockno]
    decreases |run|
  {
    if run == [] {
      assert BufferInv(p, c, i);
    } else {
      hide Inv, Enabled, Do, Settled, Due, Careful;
      RegionKeepsInv(p, c, changed, run[0]);
      RegionKeepsSettled(p, c, changed, run[0]);
      PinnedStays(p, c, run[0], i);
      PinnedStaysInRun(p, Do(p, c, run[0]), Due(changed, run[0]), run[1..], i);
    }
  }
}
