/** What the log guarantees over every run: crash atomicity, durability, all-or-nothing
    operations, and the space reservation made by begin_op. */
module LogSafety {
  import opened BlockDevice
  import opened LogProtocol

  // ----- Crash atomicity and durability -----

  lemma StepKeepsInv(g: Geometry, init: seq<Block>, s: State, step: Step)
    requires Inv(g, init, s) && Enabled(g, s, step)
    ensures Inv(g, init, Do(g, s, step))
  {
    var t := Do(g, s, step);
    StepKeepsData(g, ApplyAll(init, s.history), s, step);
    StepKeepsOps(g, s, step);
    StepKeepsSleep(g, s, step);
    if step.WriteHead? {
      ApplyAllSnoc(init, s.history, s.pending);
    }
  }

  lemma BootGivesInv(g: Geometry, s: State)
    requires Boot(g, s)
    ensures Inv(g, Recovered(g, s.disk), s)
  {
    var h := GetHead(s.disk[g.start]);
    ReplayCopiesSlots(g, s.disk, h, |h|);
    assert h[..|h|] == h;
  }

  lemma {:induction false} ReplayCopiesSlots(g: Geometry, d: seq<Block>, h: seq<int>, k: nat)
    requires g.Valid() && |d| == g.nblocks && k <= |h| <= g.Capacity() && Distinct(h)
    requires forall j :: 0 <= j < |h| ==> g.IsHome(h[j])
    ensures var r := Replay(g, d, h, k);
            && (forall b :: g.start <= b < g.start + g.size ==> r[b] == d[b])
            && (forall j :: 0 <= j < k ==> 0 <= h[j] < |r| && r[h[j]] == d[g.start + 1 + j])
            && (forall b :: g.IsHome(b) && b !in h[..k] ==> r[b] == d[b])
  {
    if k > 0 {
      ReplayCopiesSlots(g, d, h, k - 1);
      assert h[..k] == h[..k - 1] + [h[k - 1]];
    }
  }

  lemma {:induction false} RunKeepsInv(g: Geometry, init: seq<Block>, s: State, run: seq<Step>)
    requires Inv(g, init, s) && Legal(g, s, run)
    ensures Inv(g, init, Exec(g, s, run))
    decreases |run|
  {
    if run != [] {
      StepKeepsInv(g, init, s, run[0]);
      RunKeepsInv(g, init, Do(g, s, run[0]), run[1..]);
    }
  }

  /** Main theorem.  Stop any run after any step: recovery of that disk leaves every home
      block as if the committed groups, and nothing else, had been applied in order. */
  lemma CrashAtomicity(g: Geometry, s: State, run: seq<Step>)
    requires Boot(g, s) && Legal(g, s, run)
    ensures var t := Exec(g, s, run);
            && g.Valid() && g.DiskShape(t.disk) && HeaderValid(g, t.disk)
            && SameHomes(g, Recovered(g, t.disk), ApplyAll(Recovered(g, s.disk), t.history))
  {
    BootGivesInv(g, s);
    var init := Recovered(g, s.disk);
    RunKeepsInv(g, init, s, run);
    var t := Exec(g, s, run);
    hide Legal, Exec, Boot, Do;
    InvShows(g, init, t);
    hide Inv;
    RecoveredIs(g, t.disk, ApplyAll(init, t.history));
  }

  lemma InvShows(g: Geometry, init: seq<Block>, s: State)
    requires Inv(g, init, s)
    ensures Shaped(g, s) && |init| == g.nblocks && DiskInv(g, s.disk, ApplyAll(init, s.history))
  {
    hide DiskInv, PhaseInv, OpsInv, SleepInv;
  }

  /** What DiskInv promises: recovery gives `home`. */
  lemma RecoveredIs(g: Geometry, d: seq<Block>, home: seq<Block>)
    requires g.Valid() && g.DiskShape(d) && |home| == g.nblocks && DiskInv(g, d, home)
    ensures HeaderValid(g, d) && SameHomes(g, Recovered(g, d), home)
  {
    var h := GetHead(d[g.start]);
    ReplayInstalls(g, d, h, home, |h|);
    hide GetHead, Replay;
    assert h[..|h|] == h;
  }

  /** Whenever the log is open for business the disk already holds all committed groups,
      and the cache shows them with the writes of the current group on top. */
  lemma OpenLogIsInstalled(g: Geometry, s: State, run: seq<Step>)
    requires Boot(g, s) && Legal(g, s, run) && Exec(g, s, run).phase.Normal?
    ensures var t := Exec(g, s, run);
            var home := ApplyAll(Recovered(g, s.disk), t.history);
            && |t.disk| == |t.mem| == g.nblocks
            && SameHomes(g, t.disk, home) && SameHomes(g, t.mem, Apply(home, t.pending))
  {
    BootGivesInv(g, s);
    RunKeepsInv(g, Recovered(g, s.disk), s, run);
  }

  /** A group commits at exactly one step: the header write that makes the on-disk header
      non-empty.  Nothing else touches the history. */
  lemma CommitPoint(g: Geometry, init: seq<Block>, s: State, step: Step)
    requires Inv(g, init, s) && Enabled(g, s, step)
    ensures var t := Do(g, s, step);
            && (t.history != s.history <==> step.WriteHead?)
            && (step.WriteHead? ==>
                  && t.history == s.history + [s.pending] && s.lh != []
                  && GetHead(s.disk[g.start]) == [] && GetHead(t.disk[g.start]) == s.lh)
  {
    if step.WriteHead? {
      assert |Do(g, s, step).history| == |s.history| + 1;
    }
  }

  /** Durability: what has been committed stays committed, through crashes too. */
  lemma {:induction false} HistoryOnlyGrows(g: Geometry, s: State, run: seq<Step>)
    requires Legal(g, s, run)
    ensures s.history <= Exec(g, s, run).history
    decreases |run|
  {
    if run != [] {
      HistoryOnlyGrows(g, Do(g, s, run[0]), run[1..]);
    }
  }

  /** Recovery always has a next step: it cannot get stuck on a header it wrote itself. */
  lemma RecoveryCanGoOn(g: Geometry, init: seq<Block>, s: State)
    requires Inv(g, init, s)
    ensures s.phase.Rebooted? ==> Enabled(g, s, ReadHead)
    ensures s.phase.Installing? ==> Enabled(g, s, InstallBlock) || Enabled(g, s, ClearHead)
  {
  }

  // ----- Operations are all or nothing -----

  /** The writes of operation `op` among `ws`. */
  ghost function By(ws: seq<Write>, op: int): seq<Write> {
    if ws == [] then []
    else By(ws[..|ws| - 1], op) + if ws[|ws| - 1].op == op then [ws[|ws| - 1]] else []
  }

  ghost function ByAll(history: seq<seq<Write>>, op: int): seq<Write> {
    if history == [] then [] else ByAll(history[..|history| - 1], op) + By(history[|history| - 1], op)
  }

  /** The write that a step issues on behalf of operation `op`, if any. */
  ghost function IssuedBy(g: Geometry, s: State, step: Step, op: int): seq<Write>
    requires Enabled(g, s, step)
  {
    if step.LogWrite? && s.active[step.i].id == op then [Write(op, step.block, step.data)] else []
  }

  /** The writes that operation `op` issued during a run, in order. */
  ghost function Issued(g: Geometry, s: State, run: seq<Step>, op: int): seq<Write>
    requires Legal(g, s, run)
    decreases |run|
  {
    if run == [] then []
    else IssuedBy(g, s, run[0], op) + Issued(g, Do(g, s, run[0]), run[1..], op)
  }

  ghost predicate Active(s: State, op: int) {
    exists i :: 0 <= i < |s.active| && s.active[i].id == op
  }

  ghost predicate WholeOp(s: State, op: int, issued: seq<Write>) {
    && (ByAll(s.history, op) == [] || ByAll(s.history, op) == issued)
    && (Active(s, op) ==> ByAll(s.history, op) == [] && By(s.pending, op) == issued)
    && (By(s.pending, op) != [] ==> ByAll(s.history, op) == [] && By(s.pending, op) == issued)
    && (op !in s.used ==> issued == [] && By(s.pending, op) == [] && ByAll(s.history, op) == [])
  }

  lemma LogWriteKeepsWholeOp(g: Geometry, s: State, step: Step, op: int, issued: seq<Write>)
    requires Enabled(g, s, step) && step.LogWrite? && OpsInv(s) && WholeOp(s, op, issued)
    ensures WholeOp(Do(g, s, step), op, issued + IssuedBy(g, s, step, op))
  {
    var t := Do(g, s, step);
    assert t.pending[..|s.pending|] == s.pending;
    assert t.active[step.i].id == s.active[step.i].id;
    if s.active[step.i].id == op {
      assert Active(s, op);
    } else {
      assert issued + [] == issued;
      assert Active(t, op) ==> Active(s, op);
    }
  }

  lemma OtherStepKeepsWholeOp(g: Geometry, s: State, step: Step, op: int, issued: seq<Write>)
    requires Enabled(g, s, step) && !step.LogWrite? && OpsInv(s) && WholeOp(s, op, issued)
    requires step.WriteHead? ==> s.active == []
    ensures WholeOp(Do(g, s, step), op, issued)
  {
    match step
    case End(i) => EndKeepsWholeOp(g, s, i, op, issued);
    case Begin(o) => BeginKeepsWholeOp(g, s, o, op, issued);
    case WriteHead => CommitKeepsWholeOp(g, s, op, issued);
    case _ => hide OpsInv, Shaped, HeaderValid, HasRoom, PutHead, GetHead, By, ByAll;
  }

  lemma EndKeepsWholeOp(g: Geometry, s: State, i: nat, op: int, issued: seq<Write>)
    requires Enabled(g, s, End(i)) && WholeOp(s, op, issued)
    ensures WholeOp(Do(g, s, End(i)), op, issued)
  {
    hide Shaped, HasRoom, By, ByAll;
    var t := Do(g, s, End(i));
    if Active(t, op) {
      var a :| 0 <= a < |t.active| && t.active[a].id == op;
      assert s.active[if a < i then a else a + 1].id == op;
    }
  }

  lemma BeginKeepsWholeOp(g: Geometry, s: State, o: int, op: int, issued: seq<Write>)
    requires Enabled(g, s, Begin(o)) && WholeOp(s, op, issued)
    ensures WholeOp(Do(g, s, Begin(o)), op, issued)
  {
    hide Shaped, HasRoom, By, ByAll;
    var t := Do(g, s, Begin(o));
    if Active(t, op) && op != o {
      var a :| 0 <= a < |t.active| && t.active[a].id == op;
      assert s.active[a].id == op;
    }
  }

  /** The pending writes become the last group of the history. */
  lemma CommitKeepsWholeOp(g: Geometry, s: State, op: int, issued: seq<Write>)
    requires Enabled(g, s, WriteHead) && WholeOp(s, op, issued) && s.active == []
    ensures WholeOp(Do(g, s, WriteHead), op, issued)
  {
    hide Shaped, PutHead;
    var t := Do(g, s, WriteHead);
    assert t.history[..|s.history|] == s.history;
    assert ByAll(t.history, op) == ByAll(s.history, op) + By(s.pending, op);
    hide ByAll;
    assert By(t.pending, op) == [] && !Active(t, op);
    assert [] + By(s.pending, op) == By(s.pending, op);
    assert ByAll(s.history, op) + [] == ByAll(s.history, op);
  }

  lemma CommitsAlone(g: Geometry, init: seq<Block>, s: State, step: Step)
    requires Inv(g, init, s) && Enabled(g, s, step)
    ensures OpsInv(s) && (step.WriteHead? ==> s.active == [])
  {
    hide OpsInv;
  }

  lemma StepKeepsWholeOp(g: Geometry, init: seq<Block>, s: State, step: Step, op: int, issued: seq<Write>)
    requires Inv(g, init, s) && Enabled(g, s, step) && WholeOp(s, op, issued)
    ensures Inv(g, init, Do(g, s, step))
    ensures WholeOp(Do(g, s, step), op, issued + IssuedBy(g, s, step, op))
  {
    StepKeepsInv(g, init, s, step);
    CommitsAlone(g, init, s, step);
    hide WholeOp, Inv, Do, OpsInv;
    if step.LogWrite? {
      LogWriteKeepsWholeOp(g, s, step, op, issued);
    } else {
      OtherStepKeepsWholeOp(g, s, step, op, issued);
      assert issued + IssuedBy(g, s, step, op) == issued;
    }
  }

  lemma {:induction false} RunKeepsWholeOp(g: Geometry, init: seq<Block>, s: State, run: seq<Step>,
                                           op: int, issued: seq<Write>, all: seq<Write>)
    requires Inv(g, init, s) && Legal(g, s, run) && WholeOp(s, op, issued)
    requires all == issued + Issued(g, s, run, op)
    ensures WholeOp(Exec(g, s, run), op, all)
    decreases |run|
  {
    hide WholeOp, Inv, Do, Enabled;
    if run == [] {
      assert all == issued;
    } else {
      var step := run[0];
      var t := Do(g, s, step);
      var more := issued + IssuedBy(g, s, step, op);
      assert Inv(g, init, t) && WholeOp(t, op, more) by {
        StepKeepsWholeOp(g, init, s, step, op, issued);
      }
      assert all == more + Issued(g, t, run[1..], op);
      RunKeepsWholeOp(g, init, t, run[1..], op, more, all);
    }
  }

  /** Second main theorem.  After any run, crashes included, every operation has either
      all of the writes it issued in the history, in order and in a single group, or none. */
  lemma OperationsAreAtomic(g: Geometry, s: State, run: seq<Step>, op: int)
    requires Boot(g, s) && Legal(g, s, run)
    ensures var t := Exec(g, s, run);
            && (ByAll(t.history, op) == [] || ByAll(t.history, op) == Issued(g, s, run, op))
            && (forall m, n, i, j :: 0 <= m < n < |t.history| && 0 <= i < |t.history[m]| && 0 <= j < |t.history[n]| ==>
                  t.history[m][i].op != t.history[n][j].op)
  {
    BootGivesInv(g, s);
    RunKeepsInv(g, Recovered(g, s.disk), s, run);
    RunKeepsWholeOp(g, Recovered(g, s.disk), s, run, op, [], Issued(g, s, run, op));
  }

  // ----- Runs, one step longer -----

  /** `t` is what the legal run `run` has made of the power-on state `s`. */
  ghost predicate Reached(g: Geometry, s: State, run: seq<Step>, t: State) {
    && Boot(g, s) && Legal(g, s, run) && Exec(g, s, run) == t
    && Inv(g, Recovered(g, s.disk), t)
  }

  lemma {:induction false} LegalSnoc(g: Geometry, s: State, run: seq<Step>, step: Step)
    requires Legal(g, s, run) && Enabled(g, Exec(g, s, run), step)
    ensures Legal(g, s, run + [step]) && Exec(g, s, run + [step]) == Do(g, Exec(g, s, run), step)
    decreases |run|
  {
    hide Do, Enabled;
    if run == [] {
      assert [step][1..] == [];
    } else {
      LegalSnoc(g, Do(g, s, run[0]), run[1..], step);
      assert (run + [step])[1..] == run[1..] + [step];
    }
  }

  lemma ReachedSnoc(g: Geometry, s: State, run: seq<Step>, t: State, step: Step)
    requires Reached(g, s, run, t) && Enabled(g, t, step)
    ensures Reached(g, s, run + [step], Do(g, t, step))
  {
    hide Inv, Do, Enabled;
    LegalSnoc(g, s, run, step);
    StepKeepsInv(g, Recovered(g, s.disk), t, step);
  }

  /** The invariant that Reached carries along is no extra assumption. */
  lemma ReachedIff(g: Geometry, s: State, run: seq<Step>, t: State)
    requires Boot(g, s) && Legal(g, s, run)
    ensures Reached(g, s, run, t) <==> t == Exec(g, s, run)
  {
    BootGivesInv(g, s);
    RunKeepsInv(g, Recovered(g, s.disk), s, run);
  }
}
