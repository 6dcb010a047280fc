/** The write-ahead log of log.c as a state machine.

    One step is either a region of code run under log.lock, or one block write reaching
    the disk.  A crash may follow any step, a crash during recovery included.  The state
    keeps, beside what the kernel holds, the two histories the theorems speak about: the
    block writes of the current group (`pending`) and the groups whose header has reached
    the disk (`history`). */
module LogProtocol {
  import opened BlockDevice

  /** The layout and limits the log is compiled with: `start` and `size` come from the
      superblock, `logsize` is LOGSIZE and `maxop` is MAXOPBLOCKS. */
  datatype Geometry = Geometry(nblocks: nat, words: nat, start: nat, size: nat, logsize: nat, maxop: nat) {
    /** initlog panics unless the header fits strictly inside a block. */
    predicate Valid() {
      logsize + 1 < words && 0 < size && start + size <= nblocks
    }

    predicate IsHome(b: int) {
      0 <= b < nblocks && !(start <= b < start + size)
    }

    /** The most blocks one group can hold: log_write refuses to start above this. */
    function Capacity(): int {
      if logsize < size - 1 then logsize else size - 1
    }

    predicate DiskShape(d: seq<Block>) {
      |d| == nblocks && forall b :: 0 <= b < nblocks ==> |d[b]| == words
    }
  }

  /** One block write issued by a file system operation. */
  datatype Write = Write(op: int, block: int, data: Block)

  /** An operation between begin_op and end_op, with the blocks it has logged. */
  datatype Op = Op(id: int, blocks: set<int>)

  datatype Phase =
    | Normal                          // committing == 0
    | Copying(k: nat)                 // write_log: slots below k are on disk
    | Installing(k: nat, boot: bool)  // install_trans: homes below k are on disk
    | Cleared                         // header erased, committing still set
    | Rebooted                        // memory lost, header not read yet
    | Halted                          // panic

  datatype State = State(
    disk: seq<Block>,
    mem: seq<Block>,                  // every block as seen through the buffer cache
    lh: seq<int>,                     // log.lh.block[..log.lh.n]
    active: seq<Op>,                  // |active| is log.outstanding
    waiting: nat,                     // processes asleep in begin_op
    phase: Phase,
    used: set<int>,                   // operations ever begun
    pending: seq<Write>,
    history: seq<seq<Write>>)
  {
    predicate Committing() {
      phase.Copying? || phase.Cleared? || (phase.Installing? && !phase.boot)
    }
  }

  datatype Step =
    | Begin(op: int)
    | Wait
    | LogWrite(i: nat, block: int, data: Block)
    | End(i: nat)
    | CopyBlock
    | WriteHead
    | InstallBlock
    | ClearHead
    | Finish
    | Panic
    | Crash
    | ReadHead

  // ----- The on-disk header -----

  /** write_head overwrites n and the first n entries and keeps the rest of the block. */
  function PutHead(b: Block, lh: seq<int>): (r: Block)
    requires |lh| < |b|
    ensures |r| == |b|
    ensures GetHead(r) == lh
  {
    [|lh|] + lh + b[1 + |lh|..]
  }

  /** read_head; a count that cannot index the block reads as an empty header. */
  function GetHead(b: Block): seq<int>
    requires |b| > 0
  {
    if 0 <= b[0] < |b| then b[1..1 + b[0]] else []
  }

  // ----- What the log is for -----

  function Apply(d: seq<Block>, ws: seq<Write>): (r: seq<Block>)
    ensures |r| == |d|
  {
    if ws == [] then d
    else
      var r := Apply(d, ws[..|ws| - 1]);
      var w := ws[|ws| - 1];
      if 0 <= w.block < |d| then r[w.block := w.data] else r
  }

  function ApplyAll(d: seq<Block>, history: seq<seq<Write>>): (r: seq<Block>)
    ensures |r| == |d|
  {
    if history == [] then d else Apply(ApplyAll(d, history[..|history| - 1]), history[|history| - 1])
  }

  /** The disk after recover_from_log's install_trans has run to the end. */
  function Replay(g: Geometry, d: seq<Block>, lh: seq<int>, k: nat): (r: seq<Block>)
    requires k <= |lh| && g.start + 1 + |lh| <= |d|
    ensures |r| == |d|
  {
    if k == 0 then d
    else
      var r := Replay(g, d, lh, k - 1);
      if 0 <= lh[k - 1] < |d| then r[lh[k - 1] := r[g.start + k]] else r
  }

  predicate Distinct(lh: seq<int>) {
    forall i, j :: 0 <= i < j < |lh| ==> lh[i] != lh[j]
  }

  predicate HeaderValid(g: Geometry, d: seq<Block>)
    requires g.Valid() && g.DiskShape(d)
  {
    var h := GetHead(d[g.start]);
    && |h| <= g.Capacity() && Distinct(h)
    && forall j :: 0 <= j < |h| ==> g.IsHome(h[j])
  }

  function Recovered(g: Geometry, d: seq<Block>): seq<Block>
    requires g.Valid() && g.DiskShape(d) && HeaderValid(g, d)
  {
    var h := GetHead(d[g.start]);
    Replay(g, d, h, |h|)
  }

  ghost predicate SameHomes(g: Geometry, x: seq<Block>, y: seq<Block>)
    requires |x| == |y| == g.nblocks
  {
    forall b :: g.IsHome(b) ==> x[b] == y[b]
  }

  // ----- The steps -----

  function IndexOf(lh: seq<int>, b: int): (i: nat)
    ensures i <= |lh|
    ensures i < |lh| ==> lh[i] == b
    ensures forall j :: 0 <= j < i ==> lh[j] != b
  {
    if lh == [] || lh[0] == b then 0 else 1 + IndexOf(lh[1..], b)
  }

  /** log absorption: a block already in the header keeps its slot. */
  function Absorb(lh: seq<int>, b: int): seq<int> {
    if IndexOf(lh, b) == |lh| then lh + [b] else lh
  }

  predicate HasRoom(g: Geometry, s: State) {
    |s.lh| + (|s.active| + 1) * g.maxop <= g.logsize
  }

  predicate Shaped(g: Geometry, s: State) {
    && g.Valid() && g.DiskShape(s.disk) && g.DiskShape(s.mem)
    && |s.lh| <= g.Capacity()
    && forall j :: 0 <= j < |s.lh| ==> g.IsHome(s.lh[j])
  }

  predicate Enabled(g: Geometry, s: State, step: Step) {
    && Shaped(g, s)
    && match step
       case Begin(op) => s.phase.Normal? && HasRoom(g, s) && op !in s.used
       case Wait => s.Committing() || (s.phase.Normal? && !HasRoom(g, s))
       case LogWrite(i, b, data) =>
         s.phase.Normal? && i < |s.active| && |s.lh| < g.Capacity() && g.IsHome(b) && |data| == g.words
       case End(i) => s.phase.Normal? && i < |s.active|
       case CopyBlock => s.phase.Copying? && s.phase.k < |s.lh|
       case WriteHead => s.phase.Copying? && s.phase.k == |s.lh|
       case InstallBlock => s.phase.Installing? && s.phase.k < |s.lh|
       case ClearHead => s.phase.Installing? && s.phase.k == |s.lh|
       case Finish => s.phase.Cleared?
       case Panic => true
       case Crash => true
       case ReadHead => s.phase.Rebooted? && HeaderValid(g, s.mem)
  }

  function Do(g: Geometry, s: State, step: Step): State
    requires Enabled(g, s, step)
  {
    match step
    case Begin(op) => s.(active := s.active + [Op(op, {})], used := s.used + {op})
    case Wait => s.(waiting := s.waiting + 1)
    case LogWrite(i, b, data) =>
      var op := s.active[i];
      s.(mem := s.mem[b := data],
         lh := Absorb(s.lh, b),
         active := s.active[i := op.(blocks := op.blocks + {b})],
         pending := s.pending + [Write(op.id, b, data)])
    case End(i) =>
      var rest := s.active[..i] + s.active[i + 1..];
      if rest != [] then s.(active := rest, waiting := 0)
      else if s.lh == [] then s.(active := rest, phase := Cleared)
      else s.(active := rest, phase := Copying(0))
    case CopyBlock =>
      var k := s.phase.k;
      var data := s.mem[s.lh[k]];
      s.(disk := s.disk[g.start + 1 + k := data],
         mem := s.mem[g.start + 1 + k := data],
         phase := Copying(k + 1))
    case WriteHead =>
      var head := PutHead(s.mem[g.start], s.lh);
      s.(disk := s.disk[g.start := head], mem := s.mem[g.start := head],
         phase := Installing(0, false),
         pending := [], history := s.history + [s.pending])
    case InstallBlock =>
      var k := s.phase.k;
      var data := s.mem[g.start + 1 + k];
      s.(disk := s.disk[s.lh[k] := data], mem := s.mem[s.lh[k] := data],
         phase := s.phase.(k := k + 1))
    case ClearHead =>
      var head := PutHead(s.mem[g.start], []);
      s.(disk := s.disk[g.start := head], mem := s.mem[g.start := head], lh := [],
         phase := if s.phase.boot then Normal else Cleared)
    case Finish => s.(phase := Normal, waiting := 0)
    case Panic => s.(phase := Halted)
    case Crash =>
      s.(mem := s.disk, lh := [], active := [], waiting := 0, pending := [], phase := Rebooted)
    case ReadHead => s.(lh := GetHead(s.mem[g.start]), phase := Installing(0, true))
  }

  /** The state after a legal run; every run below is one of these. */
  ghost predicate Legal(g: Geometry, s: State, run: seq<Step>)
    decreases |run|
  {
    run == [] || (Enabled(g, s, run[0]) && Legal(g, Do(g, s, run[0]), run[1..]))
  }

  ghost function Exec(g: Geometry, s: State, run: seq<Step>): State
    requires Legal(g, s, run)
    decreases |run|
  {
    if run == [] then s else Exec(g, Do(g, s, run[0]), run[1..])
  }

  /** Power-on: any disk whose header is well formed. */
  ghost predicate Boot(g: Geometry, s: State) {
    && g.Valid() && g.DiskShape(s.disk) && HeaderValid(g, s.disk)
    && s == State(s.disk, s.disk, [], [], 0, Rebooted, {}, [], [])
  }

  // ----- The invariant -----

  /** What a crash can rely on, at every instant: replaying the on-disk header over the
      home blocks gives `home`. */
  ghost predicate DiskInv(g: Geometry, d: seq<Block>, home: seq<Block>)
    requires g.Valid() && g.DiskShape(d) && |home| == g.nblocks
  {
    && HeaderValid(g, d)
    && var h := GetHead(d[g.start]);
       && (forall j :: 0 <= j < |h| ==> d[g.start + 1 + j] == home[h[j]])
       && (forall b :: g.IsHome(b) && b !in h ==> d[b] == home[b])
  }

  ghost predicate PhaseInv(g: Geometry, s: State, home: seq<Block>)
    requires Shaped(g, s) && |home| == g.nblocks
  {
    match s.phase
    case Normal =>
      && GetHead(s.disk[g.start]) == []
      && SameHomes(g, s.mem, Apply(home, s.pending))
      && (forall i :: 0 <= i < |s.pending| ==> s.pending[i].block in s.lh)
    case Copying(k) =>
      && s.active == [] && s.lh != [] && k <= |s.lh|
      && GetHead(s.disk[g.start]) == []
      && SameHomes(g, s.mem, Apply(home, s.pending))
      && (forall i :: 0 <= i < |s.pending| ==> s.pending[i].block in s.lh)
      && (forall j :: 0 <= j < k ==> s.disk[g.start + 1 + j] == s.mem[s.lh[j]])
    case Installing(k, boot) =>
      && s.active == [] && s.pending == [] && k <= |s.lh|
      && GetHead(s.disk[g.start]) == s.lh
      && (forall j :: 0 <= j < k ==> s.disk[s.lh[j]] == home[s.lh[j]])
      && (if boot then s.mem == s.disk else SameHomes(g, s.mem, home))
    case Cleared =>
      && s.active == [] && s.pending == [] && s.lh == []
      && GetHead(s.disk[g.start]) == []
      && SameHomes(g, s.mem, home)
    case Rebooted => s.mem == s.disk && s.active == [] && s.pending == [] && s.lh == []
    case Halted => true
  }

  /** Operations are never split over groups: whoever wrote in a committed group has
      ended and can never write again. */
  ghost predicate OpsInv(s: State) {
    && (forall i :: 0 <= i < |s.active| ==> s.active[i].id in s.used)
    && (forall i, j :: 0 <= i < j < |s.active| ==> s.active[i].id != s.active[j].id)
    && (forall i :: 0 <= i < |s.pending| ==> s.pending[i].op in s.used)
    && (forall m, i :: 0 <= m < |s.history| && 0 <= i < |s.history[m]| ==>
          && s.history[m][i].op in s.used
          && (forall a :: 0 <= a < |s.active| ==> s.active[a].id != s.history[m][i].op)
          && (forall p :: 0 <= p < |s.pending| ==> s.pending[p].op != s.history[m][i].op))
    && (forall m, n, i, j :: 0 <= m < n < |s.history| && 0 <= i < |s.history[m]| && 0 <= j < |s.history[n]| ==>
          s.history[m][i].op != s.history[n][j].op)
  }

  /** No wakeup is lost: whoever sleeps in begin_op could not be admitted now. */
  ghost predicate SleepInv(g: Geometry, s: State) {
    s.waiting > 0 ==> s.phase.Halted? || s.Committing() || (s.phase.Normal? && !HasRoom(g, s))
  }

  /** `home` is what the committed groups have made of the home blocks. */
  ghost predicate DataInv(g: Geometry, home: seq<Block>, s: State) {
    && Shaped(g, s) && |home| == g.nblocks
    && Distinct(s.lh)
    && (forall b :: g.start <= b < g.start + g.size ==> s.mem[b] == s.disk[b])
    && DiskInv(g, s.disk, home)
    && PhaseInv(g, s, home)
  }

  ghost predicate Inv(g: Geometry, init: seq<Block>, s: State) {
    DataInv(g, ApplyAll(init, s.history), s) && OpsInv(s) && SleepInv(g, s)
  }

  // ----- Lemmas about the functions above -----

  lemma {:induction false} ApplyElsewhere(d: seq<Block>, ws: seq<Write>, b: int)
    requires 0 <= b < |d|
    requires forall i :: 0 <= i < |ws| ==> ws[i].block != b
    ensures Apply(d, ws)[b] == d[b]
  {
    if ws != [] {
      ApplyElsewhere(d, ws[..|ws| - 1], b);
    }
  }

  lemma ApplySnoc(d: seq<Block>, ws: seq<Write>, w: Write)
    ensures Apply(d, ws + [w]) == if 0 <= w.block < |d| then Apply(d, ws)[w.block := w.data] else Apply(d, ws)
  {
    assert (ws + [w])[..|ws|] == ws;
  }

  lemma ApplyAllSnoc(d: seq<Block>, history: seq<seq<Write>>, ws: seq<Write>)
    ensures ApplyAll(d, history + [ws]) == Apply(ApplyAll(d, history), ws)
  {
    assert (history + [ws])[..|history|] == history;
  }

  /** Absorption keeps the entries distinct and is exactly set insertion. */
  lemma AbsorbInserts(lh: seq<int>, b: int)
    requires Distinct(lh)
    ensures Distinct(Absorb(lh, b))
    ensures forall x :: x in Absorb(lh, b) <==> x in lh || x == b
    ensures |Absorb(lh, b)| == if b in lh then |lh| else |lh| + 1
  {
    if IndexOf(lh, b) < |lh| {
      assert lh[IndexOf(lh, b)] == b;
    }
  }

  /** Replaying a header over a disk that satisfies DiskInv installs one more home block
      at a time and leaves the log area alone. */
  lemma {:induction false} ReplayInstalls(g: Geometry, d: seq<Block>, h: seq<int>, home: seq<Block>, k: nat)
    requires g.Valid() && |d| == |home| == g.nblocks
    requires k <= |h| <= g.Capacity()
    requires forall j :: 0 <= j < |h| ==> g.IsHome(h[j]) && d[g.start + 1 + j] == home[h[j]]
    ensures var r := Replay(g, d, h, k);
            && (forall b :: g.start <= b < g.start + g.size ==> r[b] == d[b])
            && (forall j :: 0 <= j < k ==> g.IsHome(h[j]) && r[h[j]] == home[h[j]])
            && (forall b :: g.IsHome(b) && b !in h[..k] ==> r[b] == d[b])
  {
    if k > 0 {
      ReplayInstalls(g, d, h, home, k - 1);
      var b := h[k - 1];
      assert h[..k] == h[..k - 1] + [b];
      assert d[g.start + 1 + (k - 1)] == home[b];
      assert Replay(g, d, h, k) == Replay(g, d, h, k - 1)[b := home[b]];
      hide Replay;
    }
  }

  // ----- Every step keeps the invariant -----

  lemma StepKeepsOps(g: Geometry, s: State, step: Step)
    requires Enabled(g, s, step) && OpsInv(s)
    requires step.WriteHead? ==> s.active == []
    ensures OpsInv(Do(g, s, step))
  {
    hide Shaped, HasRoom, GetHead, PutHead, Absorb, HeaderValid, DiskInv;
    match step
    case LogWrite(i, b, data) => LogWriteKeepsOps(g, s, i, b, data);
    case End(i) => EndKeepsOps(g, s, i);
    case WriteHead => CommitKeepsOps(g, s);
    case _ =>
  }

  lemma EndKeepsOps(g: Geometry, s: State, i: nat)
    requires Enabled(g, s, End(i)) && OpsInv(s)
    ensures OpsInv(Do(g, s, End(i)))
  {
    hide Shaped;
    var t := Do(g, s, End(i));
    assert forall a :: 0 <= a < |t.active| ==> t.active[a] == s.active[if a < i then a else a + 1];
  }

  lemma CommitKeepsOps(g: Geometry, s: State)
    requires Enabled(g, s, WriteHead) && OpsInv(s) && s.active == []
    ensures OpsInv(Do(g, s, WriteHead))
  {
    hide Shaped, PutHead, GetHead;
  }

  lemma LogWriteKeepsOps(g: Geometry, s: State, i: nat, b: int, data: Block)
    requires Enabled(g, s, LogWrite(i, b, data)) && OpsInv(s)
    ensures OpsInv(Do(g, s, LogWrite(i, b, data)))
  {
    hide Shaped, Absorb;
    var t := Do(g, s, LogWrite(i, b, data));
    assert forall a :: 0 <= a < |s.active| ==> t.active[a].id == s.active[a].id;
  }

  lemma LogWriteKeepsData(g: Geometry, home: seq<Block>, s: State, i: nat, b: int, data: Block)
    requires DataInv(g, home, s) && Enabled(g, s, LogWrite(i, b, data))
    ensures DataInv(g, home, Do(g, s, LogWrite(i, b, data)))
  {
    var t := Do(g, s, LogWrite(i, b, data));
    AbsorbInserts(s.lh, b);
    ApplySnoc(home, s.pending, t.pending[|s.pending|]);
  }

  lemma CopyKeepsData(g: Geometry, home: seq<Block>, s: State)
    requires DataInv(g, home, s) && Enabled(g, s, CopyBlock)
    ensures DataInv(g, home, Do(g, s, CopyBlock))
  {
    var k := s.phase.k;
    CopyKeepsDisk(g, s.disk, home, g.start + 1 + k, s.mem[s.lh[k]]);
    hide DiskInv;
    CopyKeepsPhase(g, home, s);
    hide PhaseInv;
  }

  /** While the header is empty, the log blocks after it do not matter. */
  lemma CopyKeepsDisk(g: Geometry, d: seq<Block>, home: seq<Block>, p: int, data: Block)
    requires g.Valid() && g.DiskShape(d) && |home| == g.nblocks && DiskInv(g, d, home) && GetHead(d[g.start]) == []
    requires g.start < p < g.start + g.size && |data| == g.words
    ensures g.DiskShape(d[p := data]) && DiskInv(g, d[p := data], home)
  {
  }

  lemma CopyKeepsPhase(g: Geometry, home: seq<Block>, s: State)
    requires Shaped(g, s) && |home| == g.nblocks && PhaseInv(g, s, home) && Enabled(g, s, CopyBlock)
    ensures Shaped(g, Do(g, s, CopyBlock)) && PhaseInv(g, Do(g, s, CopyBlock), home)
  {
  }

  /** With the slots in place, writing one block, the header, makes the disk stand for `next`. */
  lemma HeaderSwitchesHome(g: Geometry, d: seq<Block>, head: Block, h: seq<int>, next: seq<Block>)
    requires g.Valid() && g.DiskShape(d) && |next| == g.nblocks
    requires |head| == g.words && GetHead(head) == h
    requires |h| <= g.Capacity() && Distinct(h)
    requires forall j :: 0 <= j < |h| ==> g.IsHome(h[j]) && d[g.start + 1 + j] == next[h[j]]
    requires forall b :: g.IsHome(b) && b !in h ==> d[b] == next[b]
    ensures DiskInv(g, d[g.start := head], next)
  {
  }

  lemma CommittedDisk(g: Geometry, home: seq<Block>, s: State)
    requires DataInv(g, home, s) && Enabled(g, s, WriteHead)
    ensures DiskInv(g, Do(g, s, WriteHead).disk, Apply(home, s.pending))
  {
    var next := Apply(home, s.pending);
    forall b | g.IsHome(b) && b !in s.lh ensures s.disk[b] == next[b] {
      ApplyElsewhere(home, s.pending, b);
    }
    HeaderSwitchesHome(g, s.disk, PutHead(s.mem[g.start], s.lh), s.lh, next);
  }

  /** The commit point. */
  lemma WriteHeadKeepsData(g: Geometry, home: seq<Block>, s: State)
    requires DataInv(g, home, s) && Enabled(g, s, WriteHead)
    ensures DataInv(g, Apply(home, s.pending), Do(g, s, WriteHead))
  {
    CommittedDisk(g, home, s);
    CommittedPhase(g, home, s);
    hide Apply, Distinct, DiskInv, PhaseInv, GetHead;
  }

  lemma CommittedPhase(g: Geometry, home: seq<Block>, s: State)
    requires DataInv(g, home, s) && Enabled(g, s, WriteHead)
    ensures Shaped(g, Do(g, s, WriteHead)) && PhaseInv(g, Do(g, s, WriteHead), Apply(home, s.pending))
  {
    hide Apply, Distinct, DiskInv, GetHead;
    var t, next := Do(g, s, WriteHead), Apply(home, s.pending);
    assert t.disk[g.start] == PutHead(s.mem[g.start], s.lh);
    assert SameHomes(g, t.mem, next);
  }

  lemma InstallOneBlock(g: Geometry, d: seq<Block>, h: seq<int>, home: seq<Block>, k: nat)
    requires g.Valid() && g.DiskShape(d) && |home| == g.nblocks && DiskInv(g, d, home)
    requires h == GetHead(d[g.start]) && k < |h|
    requires forall j :: 0 <= j < k ==> d[h[j]] == home[h[j]]
    ensures g.IsHome(h[k]) && d[g.start + 1 + k] == home[h[k]]
    ensures var e := d[h[k] := home[h[k]]];
            && DiskInv(g, e, home) && e[g.start] == d[g.start]
            && (forall j :: 0 <= j < k + 1 ==> e[h[j]] == home[h[j]])
  {
  }

  lemma InstallKeepsData(g: Geometry, home: seq<Block>, s: State)
    requires DataInv(g, home, s) && Enabled(g, s, InstallBlock)
    ensures DataInv(g, home, Do(g, s, InstallBlock))
  {
    hide GetHead, DiskInv, Distinct;
    InstallOneBlock(g, s.disk, s.lh, home, s.phase.k);
    assert s.mem[g.start + 1 + s.phase.k] == home[s.lh[s.phase.k]];
  }

  lemma ClearHeadKeepsData(g: Geometry, home: seq<Block>, s: State)
    requires DataInv(g, home, s) && Enabled(g, s, ClearHead)
    ensures DataInv(g, home, Do(g, s, ClearHead))
  {
  }

  lemma ReadHeadKeepsData(g: Geometry, home: seq<Block>, s: State)
    requires DataInv(g, home, s) && Enabled(g, s, ReadHead)
    ensures DataInv(g, home, Do(g, s, ReadHead))
  {
  }

  lemma EndKeepsData(g: Geometry, home: seq<Block>, s: State, i: nat)
    requires DataInv(g, home, s) && Enabled(g, s, End(i))
    ensures DataInv(g, home, Do(g, s, End(i)))
  {
    if s.pending != [] {
      assert s.pending[0].block in s.lh;
    }
  }

  /** The steps that leave the disk alone or lose the memory. */
  lemma OtherStepKeepsData(g: Geometry, home: seq<Block>, s: State, step: Step)
    requires DataInv(g, home, s) && Enabled(g, s, step)
    requires step.Begin? || step.Wait? || step.Finish? || step.Panic? || step.Crash?
    ensures DataInv(g, home, Do(g, s, step))
  {
  }

  lemma StepKeepsData(g: Geometry, home: seq<Block>, s: State, step: Step)
    requires DataInv(g, home, s) && Enabled(g, s, step)
    ensures DataInv(g, if step.WriteHead? then Apply(home, s.pending) else home, Do(g, s, step))
  {
    match step
    case LogWrite(i, b, data) => LogWriteKeepsData(g, home, s, i, b, data);
    case End(i) => EndKeepsData(g, home, s, i);
    case CopyBlock => CopyKeepsData(g, home, s);
    case WriteHead => WriteHeadKeepsData(g, home, s);
    case InstallBlock => InstallKeepsData(g, home, s);
    case ClearHead => ClearHeadKeepsData(g, home, s);
    case ReadHead => ReadHeadKeepsData(g, home, s);
    case _ => OtherStepKeepsData(g, home, s, step);
  }

  lemma StepKeepsSleep(g: Geometry, s: State, step: Step)
    requires Enabled(g, s, step) && SleepInv(g, s)
    ensures SleepInv(g, Do(g, s, step))
  {
    match step
    case LogWrite(i, b, data) => assert |Absorb(s.lh, b)| >= |s.lh|;
    case _ =>
  }
}
