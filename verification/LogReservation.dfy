/** begin_op's space reservation: when it keeps log_write below its limits, and when not. */
module LogReservation {
  import opened BlockDevice
  import opened LogProtocol
  import opened LogSafety

  /** The blocks that the running operations may still add. */
  ghost function Unspent(g: Geometry, active: seq<Op>): int {
    if active == [] then 0
    else Unspent(g, active[..|active| - 1]) + g.maxop - |active[|active| - 1].blocks|
  }

  /** An operation keeps its word if it logs at most MAXOPBLOCKS distinct blocks. */
  ghost predicate WithinBudget(g: Geometry, s: State, i: nat, b: int) {
    i < |s.active| && |s.active[i].blocks + {b}| <= g.maxop
  }

  ghost predicate KeepsWord(g: Geometry, s: State, step: Step) {
    step.LogWrite? ==> WithinBudget(g, s, step.i, step.block)
  }

  ghost predicate Disciplined(g: Geometry, s: State, run: seq<Step>)
    requires Legal(g, s, run)
    decreases |run|
  {
    run == [] || (KeepsWord(g, s, run[0]) && Disciplined(g, Do(g, s, run[0]), run[1..]))
  }

  ghost predicate Reserved(g: Geometry, s: State) {
    && (s.phase.Normal? ==> |s.lh| + Unspent(g, s.active) <= g.logsize)
    && (!s.phase.Normal? && !s.phase.Halted? ==> s.active == [])
    && (forall i :: 0 <= i < |s.active| ==>
          |s.active[i].blocks| <= g.maxop && forall b :: b in s.active[i].blocks ==> b in s.lh)
  }

  // ----- Arithmetic of Unspent -----

  lemma {:induction false} UnspentAt(g: Geometry, active: seq<Op>, i: nat)
    requires i < |active|
    ensures Unspent(g, active)
         == Unspent(g, active[..i] + active[i + 1..]) + g.maxop - |active[i].blocks|
    decreases |active|
  {
    var n := |active| - 1;
    if i < n {
      UnspentAt(g, active[..n], i);
      var rest := active[..i] + active[i + 1..];
      assert rest[..|rest| - 1] == active[..n][..i] + active[..n][i + 1..];
    } else {
      assert active[..i] + active[i + 1..] == active[..n];
    }
  }

  lemma {:induction false} UnspentBound(g: Geometry, active: seq<Op>)
    ensures Unspent(g, active) <= |active| * g.maxop
  {
    if active != [] {
      UnspentBound(g, active[..|active| - 1]);
    }
  }

  lemma UnspentAfterWrite(g: Geometry, active: seq<Op>, i: nat, blocks: set<int>)
    requires i < |active|
    ensures Unspent(g, active[i := active[i].(blocks := blocks)])
         == Unspent(g, active) + |active[i].blocks| - |blocks|
  {
    var after := active[i := active[i].(blocks := blocks)];
    UnspentAt(g, active, i);
    UnspentAt(g, after, i);
    assert after[..i] + after[i + 1..] == active[..i] + active[i + 1..];
  }

  // ----- The reservation holds in every reachable state -----

  lemma LogWriteKeepsReserved(g: Geometry, s: State, i: nat, b: int, data: Block)
    requires Enabled(g, s, LogWrite(i, b, data)) && Reserved(g, s) && WithinBudget(g, s, i, b)
    ensures Reserved(g, Do(g, s, LogWrite(i, b, data)))
  {
    var t := Do(g, s, LogWrite(i, b, data));
    UnspentAfterWrite(g, s.active, i, s.active[i].blocks + {b});
    if b in s.active[i].blocks {
      assert s.active[i].blocks + {b} == s.active[i].blocks;
    }
    assert b in s.lh ==> IndexOf(s.lh, b) < |s.lh|;
  }

  lemma BeginKeepsReserved(g: Geometry, s: State, op: int)
    requires Enabled(g, s, Begin(op)) && Reserved(g, s)
    ensures Reserved(g, Do(g, s, Begin(op)))
  {
    assert Do(g, s, Begin(op)).active[..|s.active|] == s.active;
    UnspentBound(g, s.active);
  }

  lemma EndKeepsReserved(g: Geometry, s: State, i: nat)
    requires Enabled(g, s, End(i)) && Reserved(g, s)
    ensures Reserved(g, Do(g, s, End(i)))
  {
    UnspentAt(g, s.active, i);
    var rest := s.active[..i] + s.active[i + 1..];
    assert forall a :: 0 <= a < |rest| ==> rest[a] == s.active[if a < i then a else a + 1];
  }

  lemma StepKeepsReserved(g: Geometry, s: State, step: Step)
    requires Enabled(g, s, step) && KeepsWord(g, s, step) && Reserved(g, s)
    ensures Reserved(g, Do(g, s, step))
  {
    match step
    case LogWrite(i, b, data) => LogWriteKeepsReserved(g, s, i, b, data);
    case Begin(op) => BeginKeepsReserved(g, s, op);
    case End(i) => EndKeepsReserved(g, s, i);
    case _ =>
  }

  lemma {:induction false} RunKeepsReserved(g: Geometry, init: seq<Block>, s: State, run: seq<Step>)
    requires Inv(g, init, s) && Reserved(g, s) && Legal(g, s, run) && Disciplined(g, s, run)
    ensures Reserved(g, Exec(g, s, run))
    decreases |run|
  {
    if run != [] {
      StepKeepsReserved(g, s, run[0]);
      StepKeepsInv(g, init, s, run[0]);
      RunKeepsReserved(g, init, Do(g, s, run[0]), run[1..]);
    }
  }

  /** In every reachable interleaving the log holds what is logged plus what the running
      operations may still log, and nothing runs during a commit. */
  lemma ReservationHolds(g: Geometry, s: State, run: seq<Step>)
    requires Boot(g, s) && Legal(g, s, run) && Disciplined(g, s, run)
    ensures var t := Exec(g, s, run);
            && (t.phase.Normal? ==> |t.lh| + Unspent(g, t.active) <= g.logsize)
            && (t.Committing() ==> t.active == [])
  {
    BootGivesInv(g, s);
    RunKeepsReserved(g, Recovered(g, s.disk), s, run);
  }

  lemma {:induction false} UnspentLeft(g: Geometry, active: seq<Op>, i: nat)
    requires i < |active| && forall j :: 0 <= j < |active| ==> |active[j].blocks| <= g.maxop
    ensures Unspent(g, active) >= g.maxop - |active[i].blocks|
  {
    UnspentAt(g, active, i);
    UnspentNonNegative(g, active[..i] + active[i + 1..]);
  }

  lemma {:induction false} UnspentNonNegative(g: Geometry, active: seq<Op>)
    requires forall j :: 0 <= j < |active| ==> |active[j].blocks| <= g.maxop
    ensures Unspent(g, active) >= 0
  {
    if active != [] {
      UnspentNonNegative(g, active[..|active| - 1]);
    }
  }

  /** A write that adds a block never meets the LOGSIZE limit. */
  lemma AddingWriteFits(g: Geometry, s: State, run: seq<Step>, i: nat, b: int)
    requires Boot(g, s) && Legal(g, s, run) && Disciplined(g, s, run)
    requires Exec(g, s, run).phase.Normal? && b !in Exec(g, s, run).lh
    requires WithinBudget(g, Exec(g, s, run), i, b)
    ensures |Exec(g, s, run).lh| < g.logsize
  {
    var t := Exec(g, s, run);
    BootGivesInv(g, s);
    RunKeepsReserved(g, Recovered(g, s.disk), s, run);
    UnspentLeft(g, t.active, i);
  }

  // ----- Exactly when the second limit, log.size - 1, is harmless too -----

  /** No disciplined operation that adds a block is ever met by the panic in log_write. */
  ghost predicate NeverTooBig(g: Geometry) {
    forall s, run, i, b, data :: Boot(g, s) && Legal(g, s, run) && Disciplined(g, s, run) ==>
      WouldFit(g, Exec(g, s, run), i, b, data)
  }

  ghost predicate WouldFit(g: Geometry, t: State, i: nat, b: int, data: Block) {
    t.phase.Normal? && WithinBudget(g, t, i, b) && g.IsHome(b) && b !in t.lh && |data| == g.words ==>
      Enabled(g, t, LogWrite(i, b, data))
  }

  lemma {:induction false} LegalSnoc(g: Geometry, s: State, run: seq<Step>, step: Step)
    requires Legal(g, s, run) && Disciplined(g, s, run)
    requires Enabled(g, Exec(g, s, run), step) && KeepsWord(g, Exec(g, s, run), step)
    ensures Legal(g, s, run + [step]) && Disciplined(g, s, run + [step])
    ensures Exec(g, s, run + [step]) == Do(g, Exec(g, s, run), step)
    decreases |run|
  {
    hide Do, Enabled, KeepsWord;
    if run == [] {
      assert [step][1..] == [];
    } else {
      LegalSnoc(g, Do(g, s, run[0]), run[1..], step);
      assert (run + [step])[1..] == run[1..] + [step];
    }
  }

  ghost function EmptyDisk(g: Geometry): seq<Block> {
    seq(g.nblocks, _ => seq(g.words, _ => 0))
  }

  ghost function PowerOn(g: Geometry): State {
    State(EmptyDisk(g), EmptyDisk(g), [], [], 0, Rebooted, {}, [], [])
  }

  /** Operations 0 and, up to i, each have logged maxop fresh blocks, operation i has
      logged k of them. */
  ghost predicate Filled(g: Geometry, t: State, i: nat, k: nat) {
    && Shaped(g, t) && t.phase.Normal? && |t.active| == 3 && i < 3 && k <= g.maxop
    && |t.lh| == i * g.maxop + k
    && (forall j :: 0 <= j < |t.lh| ==> t.lh[j] == g.start + g.size + j)
    && (forall j :: 0 <= j < 3 ==> forall b :: b in t.active[j].blocks ==> b in t.lh)
    && |t.active[i].blocks| == k && (k > 0 ==> t.lh[|t.lh| - 1] in t.active[i].blocks)
    && (forall j :: i < j < 3 ==> t.active[j].blocks == {})
  }

  ghost predicate Typical(g: Geometry) {
    && g.Valid() && g.maxop > 0 && g.logsize == 3 * g.maxop
    && g.start + g.size + g.logsize < g.nblocks
  }

  lemma ThreeOpsBegin(g: Geometry) returns (run: seq<Step>)
    requires Typical(g)
    ensures Boot(g, PowerOn(g)) && Legal(g, PowerOn(g), run) && Disciplined(g, PowerOn(g), run)
    ensures Filled(g, Exec(g, PowerOn(g), run), 0, 0)
  {
    var s := PowerOn(g);
    run := [];
    LegalSnoc(g, s, run, ReadHead); run := run + [ReadHead];
    LegalSnoc(g, s, run, ClearHead); run := run + [ClearHead];
    LegalSnoc(g, s, run, Begin(0)); run := run + [Begin(0)];
    LegalSnoc(g, s, run, Begin(1)); run := run + [Begin(1)];
    LegalSnoc(g, s, run, Begin(2)); run := run + [Begin(2)];
  }

  lemma {:induction false} Fill(g: Geometry, i: nat, k: nat) returns (run: seq<Step>)
    requires Typical(g) && i < 3 && k <= g.maxop && i * g.maxop + k <= g.Capacity()
    ensures Boot(g, PowerOn(g)) && Legal(g, PowerOn(g), run) && Disciplined(g, PowerOn(g), run)
    ensures Filled(g, Exec(g, PowerOn(g), run), i, k)
    decreases i, k
  {
    hide Do, Enabled, KeepsWord, Boot, Legal, Disciplined, Exec;
    var s := PowerOn(g);
    if k == 0 {
      if i == 0 {
        run := ThreeOpsBegin(g);
      } else {
        run := Fill(g, i - 1, g.maxop);
      }
    } else {
      run := Fill(g, i, k - 1);
      var t := Exec(g, s, run);
      var step := LogWrite(i, g.start + g.size + |t.lh|, seq(g.words, _ => 0));
      FillOneMore(g, t, i, k - 1);
      LegalSnoc(g, s, run, step);
      run := run + [step];
    }
  }

  lemma FillOneMore(g: Geometry, t: State, i: nat, k: nat)
    requires Typical(g) && Filled(g, t, i, k) && k < g.maxop && i * g.maxop + k < g.Capacity()
    ensures var step := LogWrite(i, g.start + g.size + |t.lh|, seq(g.words, _ => 0));
            Enabled(g, t, step) && KeepsWord(g, t, step) && Filled(g, Do(g, t, step), i, k + 1)
  {
    var b := g.start + g.size + |t.lh|;
    assert b !in t.lh;
    assert IndexOf(t.lh, b) == |t.lh|;
    assert b !in t.active[i].blocks;
  }

  lemma FitsWhenLogIsLonger(g: Geometry, s: State, run: seq<Step>, i: nat, b: int, data: Block)
    requires Boot(g, s) && Legal(g, s, run) && Disciplined(g, s, run)
    requires g.logsize < g.size
    ensures WouldFit(g, Exec(g, s, run), i, b, data)
  {
    var t := Exec(g, s, run);
    assert Shaped(g, t) by {
      BootGivesInv(g, s);
      RunKeepsInv(g, Recovered(g, s.disk), s, run);
    }
    if t.phase.Normal? && WithinBudget(g, t, i, b) && b !in t.lh {
      AddingWriteFits(g, s, run, i, b);
    }
  }

  /** Three operations fill the log up to one block short of LOGSIZE; the next one panics. */
  lemma PanicsWhenLogIsShort(g: Geometry) returns (run: seq<Step>, i: nat, b: int, data: Block)
    requires Typical(g) && g.size <= g.logsize
    ensures Boot(g, PowerOn(g)) && Legal(g, PowerOn(g), run) && Disciplined(g, PowerOn(g), run)
    ensures !WouldFit(g, Exec(g, PowerOn(g), run), i, b, data)
  {
    hide Do, Boot, Legal, Disciplined, Exec, Shaped;
    var n := g.size - 1;
    i := if n < g.maxop then 0 else if n < 2 * g.maxop then 1 else 2;
    run := Fill(g, i, n - i * g.maxop);
    b, data := g.start + g.size + n, seq(g.words, _ => 0);
    assert b !in Exec(g, PowerOn(g), run).active[i].blocks;
  }

  /** mkfs makes the log exactly LOGSIZE blocks long, header included; log_write needs one
      block more for the reservation of begin_op to be enough. */
  lemma ReservationIsEnoughIff(g: Geometry)
    requires Typical(g)
    ensures NeverTooBig(g) <==> g.logsize < g.size
  {
    hide Boot, Legal, Disciplined, Exec, WouldFit;
    if g.logsize < g.size {
      forall s, run, i: nat, b, data | Boot(g, s) && Legal(g, s, run) && Disciplined(g, s, run)
        ensures WouldFit(g, Exec(g, s, run), i, b, data)
      {
        FitsWhenLogIsLonger(g, s, run, i, b, data);
      }
    } else {
      var run, i, b, data := PanicsWhenLogIsShort(g);
    }
  }

  /** log_write tests the limits before it looks for an absorbing slot, so a full log
      stops an operation that only rewrites a block it has already logged. */
  lemma AbsorbingWriteCanPanic(g: Geometry) returns (run: seq<Step>, b: int)
    requires Typical(g) && g.logsize < g.size
    ensures Boot(g, PowerOn(g)) && Legal(g, PowerOn(g), run) && Disciplined(g, PowerOn(g), run)
    ensures var t := Exec(g, PowerOn(g), run);
            && t.phase.Normal? && WithinBudget(g, t, 2, b) && g.IsHome(b) && b in t.active[2].blocks
            && !Enabled(g, t, LogWrite(2, b, seq(g.words, _ => 0)))
  {
    run := Fill(g, 2, g.maxop);
    var t := Exec(g, PowerOn(g), run);
    b := t.lh[|t.lh| - 1];
    assert t.active[2].blocks + {b} == t.active[2].blocks;
  }
}
