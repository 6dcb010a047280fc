/** log.c over the buffer cache.

    The code runs as written; beside it the ghost fields record which steps of the protocol
    machine it has taken, so every disk state the code passes through is a state of a legal
    run and the theorems of LogSafety apply to it. */
module Log {
  import opened BlockDevice
  import opened LogProtocol
  import opened LogSafety
  import BufferCache
  import CacheSpec

  lemma {:induction false} IndexIs(lh: seq<int>, b: int, i: nat)
    requires i <= |lh| && (i < |lh| ==> lh[i] == b) && forall j :: 0 <= j < i ==> lh[j] != b
    ensures IndexOf(lh, b) == i
  {
    if i > 0 {
      IndexIs(lh[1..], b, i - 1);
    }
  }

  /** Fetch the log block, then the home block; `ok` is false when bget panics. */
  method FetchPair(bc: BufferCache.Cache, slot: int, home: int) returns (ok: bool, s: nat, h: nat)
    requires bc.Valid() && bc.Holding({}) && slot != home
    requires 0 <= slot < bc.disk.Length && 0 <= home < bc.disk.Length
    modifies bc, bc.buf, bc.disk
    ensures bc.disk[..] == old(bc.disk[..])
    ensures ok ==>
              && bc.Valid() && bc.mem == old(bc.mem)
              && s != h && s < bc.p.nbuf && h < bc.p.nbuf && bc.Holding({s, h})
              && slot in bc.at && home in bc.at && bc.at[slot] == s && bc.at[home] == h
              && bc.buf[s].blockno == slot && bc.buf[h].blockno == home
              && bc.buf[s].data == bc.mem[slot] && bc.buf[h].data == bc.mem[home]
              && (!bc.buf[s].dirty ==> bc.mem[slot] == bc.disk[slot])
              && (!bc.buf[h].dirty ==> bc.mem[home] == bc.disk[home])
              && (forall b :: 0 <= b < bc.disk.Length ==> bc.Pinned(b) == old(bc.Pinned(b)))
    ensures !ok ==> !(old(bc.Spare({})) && old(bc.Pinned(home)))
    ensures old(bc.NoneDirty()) && bc.p.nbuf > 1 ==> ok && bc.NoneDirty()
  {
    hide CacheSpec.Inv;
    bc.AtIsRight();
    assert bc.NoneDirty() && bc.p.nbuf > 1 ==> !bc.buf[0].dirty;
    ok, s, h := false, 0, 0;
    var slotBuf := bc.Bread(slot, {});
    if slotBuf.None? {
      return;
    }
    s := slotBuf.value;
    bc.AtIsRight();
    assert old(bc.NoneDirty()) && bc.p.nbuf > 1 ==> !bc.buf[if s == 0 then 1 else 0].dirty;
    var homeBuf := bc.Bread(home, {s});
    if homeBuf.None? {
      return;
    }
    h, ok := homeBuf.value, true;
    bc.AtIsRight();
    assert {s, h} == {s} + {h};
  }

  /** memmove, bwrite and the two brelse calls. */
  method CopyHeld(bc: BufferCache.Cache, src: nat, dst: nat)
    requires bc.Valid() && src != dst && src < bc.p.nbuf && dst < bc.p.nbuf && bc.Holding({src, dst})
    requires !bc.buf[src].dirty ==> CacheSpec.MayUnlock(bc.State(), src)
    modifies bc, bc.buf, bc.disk
    ensures bc.Valid() && bc.Holding({}) && bc.Spare({})
    ensures bc.at == old(bc.at)
    ensures 0 <= old(bc.buf[dst].blockno) < bc.disk.Length == |old(bc.mem)|
    ensures bc.mem == old(bc.mem)[old(bc.buf[dst].blockno) := old(bc.buf[src].data)]
    ensures bc.disk[..] == old(bc.disk[..])[old(bc.buf[dst].blockno) := old(bc.buf[src].data)]
    ensures forall i :: 0 <= i < bc.p.nbuf ==> bc.buf[i].dirty == (i != dst && old(bc.buf[i].dirty))
  {
    hide CacheSpec.Inv, CacheSpec.Store;
    bc.AtIsRight();
    bc.Store(dst, bc.buf[src].data);
    bc.Bwrite(dst, {src, dst});
    bc.Brelse(src, {src, dst});
    assert {src, dst} - {src} == {dst};
    bc.Brelse(dst, {dst});
    assert !bc.buf[dst].dirty;
  }

  /** New contents for a buffer in hand, bwrite and brelse. */
  method PutHeld(bc: BufferCache.Cache, b: nat, data: Block)
    requires bc.Valid() && b < bc.p.nbuf && bc.Holding({b})
    modifies bc, bc.buf, bc.disk
    ensures bc.Valid() && bc.Holding({}) && bc.Spare({})
    ensures bc.at == old(bc.at)
    ensures 0 <= old(bc.buf[b].blockno) < bc.disk.Length == |old(bc.mem)|
    ensures bc.mem == old(bc.mem)[old(bc.buf[b].blockno) := data]
    ensures bc.disk[..] == old(bc.disk[..])[old(bc.buf[b].blockno) := data]
    ensures forall i :: 0 <= i < bc.p.nbuf ==> bc.buf[i].dirty == (i != b && old(bc.buf[i].dirty))
  {
    hide CacheSpec.Inv, CacheSpec.Store;
    bc.AtIsRight();
    bc.Store(b, data);
    bc.Bwrite(b, {b});
    bc.Brelse(b, {b});
    assert !bc.buf[b].dirty;
  }

  /** The body that write_log and install_trans share: fetch both blocks, copy one to the
      other, write it and let go of both. */
  method MoveBlock(bc: BufferCache.Cache, slot: int, home: int, toSlot: bool) returns (ok: bool)
    requires bc.Valid() && bc.Holding({}) && slot != home
    requires 0 <= slot < bc.disk.Length && 0 <= home < bc.disk.Length
    modifies bc, bc.buf, bc.disk
    ensures ok ==>
              var src := if toSlot then home else slot;
              var dst := if toSlot then slot else home;
              && bc.Valid() && bc.Holding({}) && bc.Spare({})
              && bc.mem == old(bc.mem)[dst := old(bc.mem)[src]]
              && bc.disk[..] == old(bc.disk[..])[dst := old(bc.mem)[src]]
              && (forall b :: 0 <= b < bc.disk.Length && b != dst ==> bc.Pinned(b) == old(bc.Pinned(b)))
    ensures !ok ==> bc.disk[..] == old(bc.disk[..])
    ensures !ok ==> !(old(bc.Spare({})) && old(bc.Pinned(home)))
    ensures old(bc.NoneDirty()) && bc.p.nbuf > 1 ==> ok && bc.NoneDirty()
  {
    hide CacheSpec.Inv;
    var s, h;
    ok, s, h := FetchPair(bc, slot, home);
    if ok {
      bc.AtIsRight();
      if toSlot {
        assert {s, h} == {h, s};
        CopyHeld(bc, h, s);
      } else {
        CopyHeld(bc, s, h);
      }
    }
  }

  class Log {
    const g: Geometry
    const bc: BufferCache.Cache
    /** log.lh */
    var n: nat
    const block: array<int>
    var outstanding: int
    var committing: bool

    ghost var s0: State       // the power-on state
    ghost var run: seq<Step>  // the steps since then, over all boots
    ghost var st: State       // where they lead

    /** What survives a panic or a power failure at this instant. */
    ghost predicate OnDisk()
      reads this, bc.disk
    {
      Reached(g, s0, run, st) && Shaped(g, st) && Distinct(st.lh) && st.disk == bc.disk[..]
    }

    /** The blocks whose only copy of the current contents is in the cache. */
    ghost predicate LoggedPinned(from: nat)
      reads this, bc, bc.buf
    {
      forall j :: from <= j < |st.lh| ==> bc.Pinned(st.lh[j])
    }

    ghost predicate Valid()
      reads this, block, bc, bc.buf, bc.disk
    {
      && OnDisk() && bc.Valid() && bc.Holding({})
      && st.mem == bc.mem
      && n <= block.Length == g.logsize && block[..n] == st.lh
      && outstanding == |st.active| && committing == st.Committing()
      && (st.phase.Normal? || st.phase.Copying? ==> LoggedPinned(0))
      && (st.phase.Installing? && !st.phase.boot ==> LoggedPinned(st.phase.k))
    }

    ghost method Advance(step: Step)
      requires Reached(g, s0, run, st) && Enabled(g, st, step)
      modifies this`run, this`st
      ensures Reached(g, s0, run, st) && Shaped(g, st) && Distinct(st.lh)
      ensures st == Do(g, old(st), step) && run == old(run) + [step]
    {
      ReachedSnoc(g, s0, run, st, step);
      run := run + [step];
      st := Do(g, st, step);
    }

    /** initlog after power came back: `run` is whatever happened before on this disk. */
    constructor (g: Geometry, bc: BufferCache.Cache, ghost s0: State, ghost run: seq<Step>)
      requires bc.Valid() && bc.Holding({}) && bc.mem == bc.disk[..]
      requires Boot(g, s0) && Legal(g, s0, run) && Exec(g, s0, run).disk == bc.disk[..]
      ensures Valid() && st.phase.Rebooted? && this.g == g && this.bc == bc && this.s0 == s0
      ensures this.run == run + [Crash] && fresh(block)
    {
      this.g, this.bc, this.s0 := g, bc, s0;
      n, outstanding, committing := 0, 0, false;
      block := new int[g.logsize];
      this.run := run;
      st := Exec(g, s0, run);
      new;
      ReachedIff(g, s0, run, st);
      Advance(Crash);
    }

    /** The state is the one at entry, with some blocks copied. */
    ghost predicate OnlyCopied(was: State)
      reads this
    {
      && st.lh == was.lh && st.active == was.active && st.pending == was.pending
      && st.history == was.history && st.used == was.used
    }

    /** One iteration of write_log: cache block to log block. */
    method CopyOne(tail: nat) returns (ok: bool)
      requires Valid() && st.phase == Copying(tail) && tail < n
      modifies this`run, this`st, bc, bc.buf, bc.disk
      ensures ok ==> Valid() && bc.Spare({}) && st.phase == Copying(tail + 1) && OnlyCopied(old(st))
      ensures !ok ==> OnDisk() && st == old(st) && !old(bc.Spare({}))
    {
      hide Reached, Inv, CacheSpec.Inv;
      assert bc.Pinned(st.lh[tail]);
      ok := MoveBlock(bc, g.start + tail + 1, block[tail], true);
      if ok {
        Advance(CopyBlock);
      }
    }

    method WriteLog() returns (ok: bool)
      requires Valid() && st.phase == Copying(0)
      modifies this`run, this`st, bc, bc.buf, bc.disk
      ensures ok ==> Valid() && st.phase == Copying(n) && OnlyCopied(old(st))
      ensures ok && n > 0 ==> bc.Spare({})
      ensures !ok ==> OnDisk() && st.history == old(st.history) && !old(bc.Spare({}))
    {
      hide Reached, Inv, CacheSpec.Inv, Shaped;
      var tail := 0;
      while tail < n
        invariant 0 <= tail <= n && Valid() && st.phase == Copying(tail) && OnlyCopied(old(st))
        invariant old(bc.Spare({})) || tail > 0 ==> bc.Spare({})
      {
        ok := CopyOne(tail);
        if !ok {
          return;
        }
        tail := tail + 1;
      }
      ok := true;
    }

    /** The loop of write_head, on the header buffer's words. */
    method FormatHead(data: Block) returns (head: Block)
      requires n <= block.Length && n < |data|
      ensures head == PutHead(data, block[..n])
    {
      head := data[0 := n];
      var i := 0;
      while i < n
        invariant 0 <= i <= n && |head| == |data|
        invariant head[..1 + i] == [n] + block[..i] && head[1 + i..] == data[1 + i..]
      {
        head := head[1 + i := block[i]];
        assert head[..1 + (i + 1)] == head[..1 + i] + [block[i]];
        i := i + 1;
      }
      assert head == head[..1 + n] + head[1 + n..];
    }

    /** write_head, as far as the cache and the disk can tell. */
    method RewriteHead() returns (ok: bool)
      requires bc.Valid() && bc.Holding({}) && n <= block.Length && g.start < bc.disk.Length
      requires |bc.mem| == bc.disk.Length && n < |bc.mem[g.start]|
      modifies bc, bc.buf, bc.disk
      ensures ok ==>
                && bc.Valid() && bc.Holding({}) && bc.Spare({})
                && (old(bc.NoneDirty()) ==> bc.NoneDirty())
                && var head := PutHead(old(bc.mem)[g.start], block[..n]);
                   bc.mem == old(bc.mem)[g.start := head] && bc.disk[..] == old(bc.disk[..])[g.start := head]
      ensures ok ==> forall b :: 0 <= b < bc.disk.Length && b != g.start ==> bc.Pinned(b) == old(bc.Pinned(b))
      ensures !ok ==> bc.disk[..] == old(bc.disk[..]) && !old(bc.Spare({}))
    {
      hide CacheSpec.Inv, PutHead;
      var r := bc.Bread(g.start, {});
      if r.None? {
        return false;
      }
      var b := r.value;
      bc.AtIsRight();
      var head := FormatHead(bc.buf[b].data);
      assert {} + {b} == {b};
      PutHeld(bc, b, head);
      bc.AtIsRight();
      ok := true;
    }

    /** write_head; `step` says which of its two uses this is. */
    method WriteHeader(ghost step: Step) returns (ok: bool)
      requires OnDisk() && bc.Valid() && bc.Holding({}) && st.mem == bc.mem
      requires n <= block.Length == g.logsize && outstanding == |st.active|
      requires (step == WriteHead && block[..n] == st.lh) || (step == ClearHead && n == 0)
      requires Enabled(g, st, step)
      requires step == WriteHead ==> LoggedPinned(0) && committing
      requires step == ClearHead ==> committing == !st.phase.boot
      modifies this`run, this`st, bc, bc.buf, bc.disk
      ensures ok ==> Valid() && st == Do(g, old(st), step) && bc.Spare({})
      ensures ok && old(bc.NoneDirty()) ==> bc.NoneDirty()
      ensures !ok ==> OnDisk() && st == old(st) && !old(bc.Spare({}))
    {
      hide Reached, Inv, CacheSpec.Inv, GetHead;
      ok := RewriteHead();
      if ok {
        Advance(step);
      }
    }

    /** One iteration of install_trans: log block to home block. */
    method InstallOne(tail: nat, ghost boot: bool) returns (ok: bool)
      requires Valid() && st.phase == Installing(tail, boot) && tail < n
      modifies this`run, this`st, bc, bc.buf, bc.disk
      ensures ok ==> Valid() && bc.Spare({}) && st.phase == Installing(tail + 1, boot) && OnlyCopied(old(st))
      ensures !ok ==> OnDisk() && st == old(st) && (!boot ==> !old(bc.Spare({})))
      ensures old(bc.NoneDirty()) && bc.p.nbuf > 1 ==> ok && bc.NoneDirty()
    {
      hide Reached, Inv, CacheSpec.Inv;
      assert !boot ==> bc.Pinned(st.lh[tail]);
      ok := MoveBlock(bc, g.start + tail + 1, block[tail], false);
      if ok {
        Advance(InstallBlock);
      }
    }

    method InstallTrans(ghost boot: bool) returns (ok: bool)
      requires Valid() && st.phase == Installing(0, boot) && (boot || bc.Spare({}))
      modifies this`run, this`st, bc, bc.buf, bc.disk
      ensures ok ==> Valid() && st.phase == Installing(n, boot) && OnlyCopied(old(st))
      ensures !ok ==> OnDisk() && st.history == old(st.history)
      ensures !boot ==> ok && bc.Spare({})
      ensures old(bc.NoneDirty()) && bc.p.nbuf > 1 ==> ok && bc.NoneDirty()
    {
      hide Reached, Inv, CacheSpec.Inv, Shaped;
      var tail := 0;
      while tail < n
        invariant 0 <= tail <= n && Valid() && st.phase == Installing(tail, boot) && OnlyCopied(old(st))
        invariant !boot ==> bc.Spare({})
        invariant old(bc.NoneDirty()) && bc.p.nbuf > 1 ==> bc.NoneDirty()
      {
        ok := InstallOne(tail, boot);
        if !ok {
          return;
        }
        tail := tail + 1;
      }
      ok := true;
    }

    /** commit; it can only fail if bget panics, and then no buffer was clean to begin with. */
    method Commit() returns (ok: bool)
      requires Valid() && if n > 0 then st.phase == Copying(0) else st.phase.Cleared?
      modifies this`run, this`st, this`n, bc, bc.buf, bc.disk
      ensures ok ==>
                && Valid() && st.phase.Cleared? && n == 0
                && st.history == (if old(st).phase.Cleared? then old(st).history else old(st).history + [old(st).pending])
      ensures !ok ==> OnDisk() && !old(bc.Spare({}))
    {
      hide Reached, Inv, CacheSpec.Inv;
      ok := true;
      if n > 0 {
        ok := WriteLog();
        if ok {
          ok := Install();
        }
      }
    }

    /** commit from its first write_head on: the commit point and what follows it. */
    method Install() returns (ok: bool)
      requires Valid() && st.phase == Copying(n) && bc.Spare({})
      modifies this`run, this`st, this`n, bc, bc.buf, bc.disk
      ensures ok && Valid() && st.phase.Cleared? && n == 0 && st.history == old(st).history + [old(st).pending]
    {
      hide Reached, Inv, CacheSpec.Inv;
      ok := WriteHeader(WriteHead);
      ok := InstallTrans(false);
      n := 0;
      ok := WriteHeader(ClearHead);
    }

    method FetchHeader() returns (ok: bool, lh: Block)
      requires bc.Valid() && bc.Holding({}) && 0 <= g.start < bc.disk.Length
      modifies bc, bc.buf, bc.disk
      ensures bc.disk[..] == old(bc.disk[..])
      ensures ok ==> bc.Valid() && bc.Holding({}) && bc.mem == old(bc.mem) && |bc.mem| == bc.disk.Length && lh == bc.mem[g.start]
      ensures ok ==> forall b :: 0 <= b < bc.disk.Length ==> bc.Pinned(b) == old(bc.Pinned(b))
      ensures old(bc.NoneDirty()) && bc.p.nbuf > 1 ==> ok && bc.NoneDirty()
    {
      hide CacheSpec.Inv;
      bc.AtIsRight();
      assert bc.NoneDirty() && bc.p.nbuf > 1 ==> !bc.buf[0].dirty;
      ok, lh := false, [];
      var r := bc.Bread(g.start, {});
      if r.Some? {
        bc.AtIsRight();
        ok, lh := true, bc.buf[r.value].data;
        bc.Brelse(r.value, {r.value});
      }
    }

    lemma HeaderIsReadable()
      requires OnDisk() && st.phase.Rebooted?
      ensures Enabled(g, st, ReadHead) && st.active == [] && |GetHead(st.mem[g.start])| <= g.logsize
    {
      RecoveryCanGoOn(g, Recovered(g, s0.disk), st);
    }

    /** read_head copies the count and the block numbers out of the header buffer. */
    method ReadHeader() returns (ok: bool)
      requires Valid() && st.phase.Rebooted?
      modifies this`run, this`st, this`n, block, bc, bc.buf, bc.disk
      ensures ok ==> Valid() && st.phase == Installing(0, true) && st.active == [] && st.history == old(st.history)
      ensures !ok ==> OnDisk()
      ensures old(bc.NoneDirty()) && bc.p.nbuf > 1 ==> ok && bc.NoneDirty()
    {
      hide Reached, Inv, CacheSpec.Inv, GetHead;
      HeaderIsReadable();
      var lh;
      ok, lh := FetchHeader();
      if ok {
        n := CopyHeader(lh);
        Advance(ReadHead);
      }
    }

    method CopyHeader(lh: Block) returns (count: nat)
      requires |lh| > 0 && |GetHead(lh)| <= block.Length
      modifies block
      ensures count == |GetHead(lh)| && block[..count] == GetHead(lh)
    {
      if !(0 <= lh[0] < |lh|) {
        return 0;
      }
      count := lh[0];
      var i := 0;
      while i < count
        invariant 0 <= i <= count && block[..i] == lh[1..1 + i]
      {
        block[i] := lh[1 + i];
        i := i + 1;
      }
    }

    /** recover_from_log, at boot; two buffers are enough for it. */
    method RecoverFromLog() returns (ok: bool)
      requires Valid() && st.phase.Rebooted?
      modifies this`run, this`st, this`n, block, bc, bc.buf, bc.disk
      ensures ok ==> Valid() && st.phase.Normal? && n == 0 && st.active == [] && st.history == old(st.history)
      ensures !ok ==> OnDisk()
      ensures old(bc.NoneDirty()) && bc.p.nbuf > 1 ==> ok
    {
      hide Reached, Inv, CacheSpec.Inv, GetHead;
      bc.AtIsRight();
      ok := ReadHeader();
      if ok {
        ok := InstallTrans(true);
        if ok {
          assert bc.NoneDirty() && bc.p.nbuf > 1 ==> !bc.buf[0].dirty;
          n := 0;
          ok := WriteHeader(ClearHead);
        }
      }
    }

    // ----- What the file system calls -----

    /** One pass of begin_op's loop under log.lock; false means that it goes to sleep. */
    method BeginOp(ghost op: int) returns (admitted: bool)
      requires Valid() && (st.phase.Normal? || st.Committing()) && op !in st.used
      modifies this`run, this`st, this`outstanding
      ensures Valid()
      ensures admitted == (!committing && n + (old(outstanding) + 1) * g.maxop <= g.logsize)
      ensures st == Do(g, old(st), if admitted then Begin(op) else Wait)
    {
      hide Reached, Inv, CacheSpec.Inv;
      if committing {
        Advance(Wait);
        admitted := false;
      } else if n + (outstanding + 1) * g.maxop > g.logsize {
        Advance(Wait);
        admitted := false;
      } else {
        outstanding := outstanding + 1;
        Advance(Begin(op));
        admitted := true;
      }
    }

    /** The first region of end_op. */
    method LeaveOp(ghost i: nat) returns (doCommit: bool)
      requires Valid() && st.phase.Normal? && i < |st.active|
      modifies this`run, this`st, this`outstanding, this`committing
      ensures Valid() && st == Do(g, old(st), End(i))
      ensures doCommit == (old(outstanding) == 1)
    {
      hide Reached, Inv, CacheSpec.Inv;
      doCommit := false;
      outstanding := outstanding - 1;
      assert !committing;
      if outstanding == 0 {
        doCommit := true;
        committing := true;
      }
      Advance(End(i));
    }

    /** end_op of the i-th running operation.  The last one to leave commits the group:
        afterwards the log is empty and the group is part of the history. */
    method EndOp(ghost i: nat) returns (ok: bool)
      requires Valid() && st.phase.Normal? && i < |st.active|
      modifies this`run, this`st, this`n, this`outstanding, this`committing, bc, bc.buf, bc.disk
      ensures ok ==> Valid() && st.phase.Normal? && outstanding == old(outstanding) - 1
      ensures ok && old(outstanding) > 1 ==> st == Do(g, old(st), End(i))
      ensures ok && old(outstanding) == 1 ==>
                && n == 0 && st.active == []
                && st.history == (if old(n) == 0 then old(st.history) else old(st.history) + [old(st.pending)])
      ensures !ok ==> OnDisk() && !old(bc.Spare({}))
    {
      hide Reached, Inv, CacheSpec.Inv, Shaped;
      var doCommit := LeaveOp(i);
      ok := true;
      if doCommit {
        ok := Commit();
        if ok {
          committing := false;
          Advance(Finish);
        }
      }
    }

    /** log_write on a buffer that the caller holds; false is one of its two panics. */
    method LogWrite(b: nat) returns (ok: bool)
      requires bc.Valid() && b < bc.p.nbuf < bc.buf.Length && bc.buf[b].locked && bc.buf[b].valid
      requires n <= block.Length == g.logsize
      modifies this`n, block, bc.buf
      ensures ok == (old(n) < g.logsize && old(n) < g.size - 1 && outstanding >= 1)
      ensures ok ==> n <= block.Length && block[..n] == Absorb(old(block[..n]), bc.buf[b].blockno)
      ensures ok ==> bc.Valid() && bc.State() == CacheSpec.Mark(old(bc.State()), b)
      ensures !ok ==> n == old(n) && block[..] == old(block[..]) && bc.buf[..] == old(bc.buf[..])
    {
      hide CacheSpec.Inv;
      if n >= g.logsize || n >= g.size - 1 {
        return false;
      }
      if outstanding < 1 {
        return false;
      }
      var i := 0;
      while i < n
        invariant 0 <= i <= n
        invariant forall j :: 0 <= j < i ==> block[j] != bc.buf[b].blockno
      {
        if block[i] == bc.buf[b].blockno {
          break;
        }
        i := i + 1;
      }
      IndexIs(block[..n], bc.buf[b].blockno, i);
      block[i] := bc.buf[b].blockno;
      if i == n {
        n := n + 1;
      }
      bc.SetDirty(b);
      ok := true;
    }

    /** The cache's side of a logged update: bread, modify, log_write, brelse. */
    method LogBlock(b: int, data: Block) returns (ok: bool)
      requires bc.Valid() && bc.Holding({}) && 0 <= b < bc.disk.Length && n <= block.Length == g.logsize
      modifies this`n, block, bc, bc.buf, bc.disk
      ensures bc.disk[..] == old(bc.disk[..])
      ensures ok ==>
                && bc.Valid() && bc.Holding({}) && bc.mem == old(bc.mem)[b := data]
                && (forall c :: 0 <= c < bc.disk.Length ==> bc.Pinned(c) == (c == b || old(bc.Pinned(c))))
                && n <= block.Length && block[..n] == Absorb(old(block[..n]), b)
      ensures old(n) < g.logsize && old(n) < g.size - 1 && outstanding >= 1 && old(bc.Spare({})) ==> ok
      ensures ok ==> old(n) < g.logsize && old(n) < g.size - 1 && outstanding >= 1
    {
      hide CacheSpec.Inv, CacheSpec.Store;
      var r := bc.Bread(b, {});
      if r.None? {
        return false;
      }
      bc.AtIsRight();
      bc.Store(r.value, data);
      ok := LogWrite(r.value);
      if ok {
        bc.Brelse(r.value, {r.value});
      }
    }

    /** A logged update by the i-th running operation. */
    method Update(ghost i: nat, b: int, data: Block) returns (ok: bool)
      requires Valid() && st.phase.Normal? && i < |st.active| && g.IsHome(b) && |data| == g.words
      modifies this`run, this`st, this`n, block, bc, bc.buf, bc.disk
      ensures ok ==> Valid() && Enabled(g, old(st), Step.LogWrite(i, b, data))
      ensures ok ==> st == Do(g, old(st), Step.LogWrite(i, b, data))
      ensures !ok ==> OnDisk() && !(old(n) < g.Capacity() && old(bc.Spare({})))
    {
      hide Reached, Inv, CacheSpec.Inv;
      ok := LogBlock(b, data);
      if ok {
        AbsorbInserts(st.lh, b);
        Advance(Step.LogWrite(i, b, data));
      }
    }

    /** Between commits the disk itself holds the committed groups, and readers of the cache
        see the current group on top of them. */
    lemma OpenLog()
      requires Valid() && st.phase.Normal?
      ensures var home := ApplyAll(Recovered(g, s0.disk), st.history);
              && |bc.mem| == bc.disk.Length == g.nblocks
              && SameHomes(g, bc.disk[..], home) && SameHomes(g, bc.mem, Apply(home, st.pending))
    {
    }
  }
}
