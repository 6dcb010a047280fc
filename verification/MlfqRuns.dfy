/** Runs of the MLFQ scheduler: the invariant is kept, L0 is served in order, and after a
    hundred ticks everybody waiting is on L0. */
module MlfqRuns {
  import opened MlfqSpec

  /** What happens between one release of ptable.lock and the next; Tick and Charge are the
      two counters of the timer trap. */
  datatype Event =
    | Alloc
    | AllocFails(p: nat)
    | Start(p: nat, parent: int)
    | PickNext
    | Yield(p: nat)
    | Sleep(p: nat, chan: Chan)
    | Exit(p: nat, init: nat)
    | Wakeup(chan: Chan)
    | Kill(pid: int)
    | SetPriority(pid: int, priority: int)
    | Reap(parent: int)
    | Tick
    | Charge(p: nat)
  {
    predicate Returns() {
      Yield? || Sleep? || Exit?
    }
  }

  // ----- Searches of the process table -----

  function FindUnused(t: Table, i: nat): (k: nat)
    ensures k < |t.proc| ==> i <= k && t.proc[k].state.Unused? && forall j :: i <= j < k ==> !t.proc[j].state.Unused?
    ensures k >= |t.proc| ==> forall j :: i <= j < |t.proc| ==> !t.proc[j].state.Unused?
    decreases |t.proc| - i
  {
    if i >= |t.proc| || t.proc[i].state.Unused? then i else FindUnused(t, i + 1)
  }

  function FindPid(t: Table, pid: int, i: nat): (k: nat)
    ensures k < |t.proc| ==> i <= k && t.proc[k].pid == pid && forall j :: i <= j < k ==> t.proc[j].pid != pid
    ensures k >= |t.proc| ==> forall j :: i <= j < |t.proc| ==> t.proc[j].pid != pid
    decreases |t.proc| - i
  {
    if i >= |t.proc| || t.proc[i].pid == pid then i else FindPid(t, pid, i + 1)
  }

  predicate DeadChild(a: Proc, parent: int) {
    a.parent == parent && a.state.Zombie?
  }

  function FindZombie(t: Table, parent: int, i: nat): (k: nat)
    ensures k < |t.proc| ==> i <= k && DeadChild(t.proc[k], parent) && forall j :: i <= j < k ==> !DeadChild(t.proc[j], parent)
    ensures k >= |t.proc| ==> forall j :: i <= j < |t.proc| ==> !DeadChild(t.proc[j], parent)
    decreases |t.proc| - i
  {
    if i >= |t.proc| || DeadChild(t.proc[i], parent) then i else FindZombie(t, parent, i + 1)
  }

  function NewProc(a: Proc, pid: nat): Proc {
    a.(state := Embryo, pid := pid, level := 0, priority := 3, quantum := Quantum(0), allotment := 0)
  }

  function Allotted(t: Table, p: nat): Table
    requires p < |t.proc|
  {
    Patch(t, p, NewProc(t.proc[p], t.nextpid)).(nextpid := t.nextpid + 1)
  }

  /** A killed process is woken, so that it can find out. */
  function Killed(t: Table, p: nat): Table
    requires Inv(t) && p < |t.proc|
  {
    var t1 := Patch(t, p, t.proc[p].(killed := true));
    assert FieldsOk(t.proc[p], p in t.window);
    if t.proc[p].state.Sleeping? then Awake(t1, p) else t1
  }

  function Reaped(a: Proc): Proc {
    a.(state := Unused, pid := 0, parent := NULL, killed := false)
  }

  /** exit hands the children of p to init, from entry i of the table on. */
  function Reparent(t: Table, p: nat, init: nat, i: nat): Table
    requires Inv(t)
    decreases |t.proc| - i
    ensures Inv(Reparent(t, p, init, i)) && |Reparent(t, p, init, i).proc| == |t.proc|
  {
    if i >= |t.proc| then t
    else if t.proc[i].parent == p then
      PatchKeeps(t, NULL, i, t.proc[i].(parent := init));
      var t1 := Patch(t, i, t.proc[i].(parent := init));
      Reparent(if t.proc[i].state.Zombie? then WakeFrom(t1, OfProc(init), 0) else t1, p, init, i + 1)
    else Reparent(t, p, init, i + 1)
  }

  // ----- The machine -----

  predicate Enabled(t: Table, e: Event) {
    match e
    case AllocFails(p) => p < |t.proc| && t.proc[p].state.Embryo?
    case Start(p, _) => p < |t.proc| && t.proc[p].state.Embryo?
    case Yield(p) => p < |t.proc| && t.proc[p].state.Running?
    case Sleep(p, _) => p < |t.proc| && t.proc[p].state.Running?
    case Exit(p, init) => p < |t.proc| && t.proc[p].state.Running? && p != init
    case Charge(p) => p < |t.proc| && t.proc[p].state.Running? && p !in t.window
    case _ => true
  }

  function Leave(t: Table, p: nat, a: Proc): Table
    requires Inv(t) && p < |t.proc| && t.proc[p].state.Running? && a.state != Unused
    requires FieldsOk(a, p in t.window)
  {
    SetAside(t, p);
    PatchKeeps(t, p, p, a);
    Back(Patch(t, p, a), p)
  }

  lemma LeavePatch(t: Table, p: nat, a: Proc)
    requires Inv(t) && p < |t.proc| && t.proc[p].state.Running? && a.state != Unused
    requires FieldsOk(t.proc[p], p in t.window) ==> FieldsOk(a, p in t.window)
    ensures FieldsOk(a, p in t.window) && InvBut(Patch(t, p, a), p) && Leave(t, p, a) == Back(Patch(t, p, a), p)
  {
    assert FieldsOk(t.proc[p], p in t.window);
    SetAside(t, p);
    PatchKeeps(t, p, p, a);
  }

  lemma ReparentKeeps(t: Table, i: nat, parent: int)
    requires Inv(t) && i < |t.proc|
    ensures Inv(Patch(t, i, t.proc[i].(parent := parent)))
  {
    PatchKeeps(t, NULL, i, t.proc[i].(parent := parent));
  }

  lemma AllotKeeps(t: Table, p: nat)
    requires Inv(t) && p < |t.proc| && t.proc[p].state.Unused?
    ensures Inv(Allotted(t, p))
  {
    PatchKeeps(t, NULL, p, NewProc(t.proc[p], t.nextpid));
  }

  lemma KillPatch(t: Table, p: nat)
    requires Inv(t) && p < |t.proc|
    ensures Inv(Patch(t, p, t.proc[p].(killed := true)))
    ensures Inv(Killed(t, p)) && |Killed(t, p).proc| == |t.proc|
  {
    PatchKeeps(t, NULL, p, t.proc[p].(killed := true));
    if t.proc[p].state.Sleeping? {
      AwakeKeeps(Patch(t, p, t.proc[p].(killed := true)), p);
    }
  }

  lemma LeaveKeeps(t: Table, p: nat, a: Proc)
    requires Inv(t) && p < |t.proc| && t.proc[p].state.Running? && a.state != Unused
    requires FieldsOk(a, p in t.window)
    ensures Inv(Leave(t, p, a)) && |Leave(t, p, a).proc| == |t.proc|
  {
    SetAside(t, p);
    PatchKeeps(t, p, p, a);
    BackKeeps(Patch(t, p, a), p);
  }

  /** wakeup1 touches only sleepers. */
  lemma {:induction false} WakeFromSpares(t: Table, chan: Chan, i: nat, p: nat)
    requires Inv(t) && p < |t.proc| && !t.proc[p].state.Sleeping?
    ensures WakeFrom(t, chan, i).proc[p] == t.proc[p] && WakeFrom(t, chan, i).window == t.window
    decreases |t.proc| - i
  {
    hide InvBut;
    if i < |t.proc| {
      if t.proc[i].state.Sleeping? && t.proc[i].chan == chan {
        AwakeKeeps(t, i);
        WakeFromSpares(Awake(t, i), chan, i + 1, p);
      } else {
        WakeFromSpares(t, chan, i + 1, p);
      }
    }
  }

  lemma {:induction false} ReparentSpares(t: Table, p: nat, init: nat, i: nat, r: nat)
    requires Inv(t) && r < |t.proc| && t.proc[r].state.Running?
    ensures Reparent(t, p, init, i).proc[r].state.Running? && FieldsOk(Reparent(t, p, init, i).proc[r], r in t.window)
    ensures Reparent(t, p, init, i).window == t.window
    decreases |t.proc| - i
  {
    if i < |t.proc| {
      if t.proc[i].parent == p {
        var a := t.proc[i].(parent := init);
        PatchKeeps(t, NULL, i, a);
        var t1 := Patch(t, i, a);
        WakeFromSpares(t1, OfProc(init), 0, r);
        ReparentSpares(if t.proc[i].state.Zombie? then WakeFrom(t1, OfProc(init), 0) else t1, p, init, i + 1, r);
      } else {
        ReparentSpares(t, p, init, i + 1, r);
      }
    }
  }

  /** exit up to the moment it gives up the CPU. */
  function Bequeath(t: Table, p: nat, init: nat): (r: Table)
    requires Inv(t) && Enabled(t, Exit(p, init))
    ensures Inv(r) && |r.proc| == |t.proc| && r.proc[p].state.Running? && FieldsOk(r.proc[p], p in r.window)
  {
    WakeFromSpares(t, OfProc(t.proc[p].parent), 0, p);
    var t1 := WakeFrom(t, OfProc(t.proc[p].parent), 0);
    ReparentSpares(t1, p, init, 0, p);
    Reparent(t1, p, init, 0)
  }

  function Do(t: Table, e: Event): Table
    requires Inv(t) && Enabled(t, e)
  {
    match e
    case Alloc =>
      var k := FindUnused(t, 0);
      if k >= |t.proc| then t else Allotted(t, k)
    case AllocFails(p) => Patch(t, p, t.proc[p].(state := Unused))
    case Start(p, parent) => Ready(t, p, t.proc[p].(state := Runnable, parent := parent))
    case PickNext => Pick(t)
    case Yield(p) => Leave(t, p, t.proc[p].(state := Runnable))
    case Sleep(p, chan) => Leave(t, p, t.proc[p].(state := Sleeping, chan := chan))
    case Exit(p, init) =>
      var t1 := Bequeath(t, p, init);
      Leave(t1, p, t1.proc[p].(state := Zombie))
    case Wakeup(chan) => WakeFrom(t, chan, 0)
    case Kill(pid) =>
      var k := FindPid(t, pid, 0);
      if k >= |t.proc| then t else Killed(t, k)
    case SetPriority(pid, priority) =>
      var k := FindPid(t, pid, 0);
      if k >= |t.proc| || priority < 0 || priority > 3 then t
      else Patch(t, k, t.proc[k].(priority := priority))
    case Reap(parent) =>
      var k := FindZombie(t, parent, 0);
      if k >= |t.proc| then t else Patch(t, k, Reaped(t.proc[k]))
    case Tick => t.(tick := t.tick + 1)
    case Charge(p) => Patch(t, p, t.proc[p].(allotment := t.proc[p].allotment + 1)).(window := t.window + {p})
  }

  lemma KillIs(t: Table, pid: int)
    requires Inv(t)
    ensures var k := FindPid(t, pid, 0); Do(t, Kill(pid)) == if k >= |t.proc| then t else Killed(t, k)
  {
  }

  lemma AllocIs(t: Table)
    requires Inv(t)
    ensures var k := FindUnused(t, 0); Do(t, Alloc) == if k >= |t.proc| then t else Allotted(t, k)
    ensures FindUnused(t, 0) < |t.proc| ==> Allotted(t, FindUnused(t, 0)).proc[FindUnused(t, 0)].state.Embryo?
  {
  }

  lemma ExitSteps(t: Table, p: nat, init: nat) returns (t1: Table)
    requires Inv(t) && Enabled(t, Exit(p, init))
    ensures Inv(WakeFrom(t, OfProc(t.proc[p].parent), 0))
    ensures t1 == Reparent(WakeFrom(t, OfProc(t.proc[p].parent), 0), p, init, 0) && |t1.proc| == |t.proc|
    ensures InvBut(Patch(t1, p, t1.proc[p].(state := Zombie)), p)
    ensures Do(t, Exit(p, init)) == Back(Patch(t1, p, t1.proc[p].(state := Zombie)), p)
  {
    t1 := Bequeath(t, p, init);
    LeavePatch(t1, p, t1.proc[p].(state := Zombie));
  }

  lemma ChargeKeeps(t: Table, p: nat)
    requires Inv(t) && Enabled(t, Charge(p))
    ensures Inv(Do(t, Charge(p)))
  {
    var t' := Do(t, Charge(p));
    assert Fields(t') && Members(t') && Distinct(t') && Complete(t', NULL) && Outside(t', NULL) && Charged(t', NULL);
  }

  /** Every region under ptable.lock, and both timer counters, keep the queue invariant. */
  lemma StepKeepsInv(t: Table, e: Event)
    requires Inv(t) && Enabled(t, e)
    ensures Inv(Do(t, e)) && |Do(t, e).proc| == |t.proc|
  {
    match e {
      case Alloc =>
        var k := FindUnused(t, 0);
        if k < |t.proc| {
          AllotKeeps(t, k);
        }
      case AllocFails(p) => PatchKeeps(t, NULL, p, t.proc[p].(state := Unused));
      case Start(p, parent) => ReadyKeeps(t, p, t.proc[p].(state := Runnable, parent := parent));
      case PickNext => PickKeeps(t);
      case Yield(p) => LeaveKeeps(t, p, t.proc[p].(state := Runnable));
      case Sleep(p, chan) => LeaveKeeps(t, p, t.proc[p].(state := Sleeping, chan := chan));
      case Exit(p, init) =>
        var t1 := Bequeath(t, p, init);
        LeaveKeeps(t1, p, t1.proc[p].(state := Zombie));
      case Wakeup(chan) =>
      case Kill(pid) =>
        var k := FindPid(t, pid, 0);
        if k < |t.proc| {
          KillPatch(t, k);
        }
      case SetPriority(pid, priority) =>
        var k := FindPid(t, pid, 0);
        if k < |t.proc| && 0 <= priority <= 3 {
          PatchKeeps(t, NULL, k, t.proc[k].(priority := priority));
        }
      case Reap(parent) =>
        var k := FindZombie(t, parent, 0);
        if k < |t.proc| {
          PatchKeeps(t, NULL, k, Reaped(t.proc[k]));
        }
      case Tick =>
      case Charge(p) => ChargeKeeps(t, p);
    }
  }

  // ----- Runs -----

  ghost predicate Legal(t: Table, es: seq<Event>)
    requires Inv(t)
    decreases |es|
  {
    es == [] || (Enabled(t, es[0]) && (StepKeepsInv(t, es[0]); Legal(Do(t, es[0]), es[1..])))
  }

  ghost function Exec(t: Table, es: seq<Event>): (r: Table)
    requires Inv(t) && Legal(t, es)
    ensures Inv(r) && |r.proc| == |t.proc|
    decreases |es|
  {
    if es == [] then t else StepKeepsInv(t, es[0]); Exec(Do(t, es[0]), es[1..])
  }

  /** The processes a run picks, in order; NULL for a pick that finds nobody. */
  ghost function PickedBy(t: Table, es: seq<Event>): seq<int>
    requires Inv(t) && Legal(t, es)
    decreases |es|
  {
    if es == [] then []
    else
      StepKeepsInv(t, es[0]);
      (if es[0].PickNext? then [Picked(t)] else []) + PickedBy(Do(t, es[0]), es[1..])
  }

  function Ticks(es: seq<Event>): nat {
    if es == [] then 0 else (if es[0].Tick? then 1 else 0) + Ticks(es[1..])
  }

  // ----- L0 is first in, first out -----

  lemma {:induction false} WakeFromAppends(t: Table, chan: Chan, i: nat)
    requires Inv(t)
    ensures var t' := WakeFrom(t, chan, i); t.tick == t'.tick && forall l :: 0 <= l < 3 ==> t.queue[l] <= t'.queue[l]
    decreases |t.proc| - i
  {
    hide InvBut;
    if i < |t.proc| {
      if t.proc[i].state.Sleeping? && t.proc[i].chan == chan {
        AwakeKeeps(t, i);
        WakeFromAppends(Awake(t, i), chan, i + 1);
      } else {
        WakeFromAppends(t, chan, i + 1);
      }
    }
  }

  lemma {:induction false} ReparentAppends(t: Table, p: nat, init: nat, i: nat)
    requires Inv(t)
    ensures var t' := Reparent(t, p, init, i); t.tick == t'.tick && forall l :: 0 <= l < 3 ==> t.queue[l] <= t'.queue[l]
    decreases |t.proc| - i
  {
    if i < |t.proc| {
      if t.proc[i].parent == p {
        var a := t.proc[i].(parent := init);
        PatchKeeps(t, NULL, i, a);
        var t1 := Patch(t, i, a);
        WakeFromAppends(t1, OfProc(init), 0);
        ReparentAppends(if t.proc[i].state.Zombie? then WakeFrom(t1, OfProc(init), 0) else t1, p, init, i + 1);
      } else {
        ReparentAppends(t, p, init, i + 1);
      }
    }
  }

  /** How a process leaving its CPU changes the lists. */
  ghost predicate Grows(t: Table, t': Table) {
    && |t.queue| == |t'.queue| == 3
    && if t.tick < BOOST then t'.tick == t.tick && forall l :: 0 <= l < 3 ==> t.queue[l] <= t'.queue[l]
       else exists t1: Table :: Inv(t1) && (forall l :: 0 <= l < 3 ==> t.queue[l] <= t1.queue[l]) && t' == Boost(t1)
  }

  lemma LeaveGrows(t: Table, p: nat, a: Proc)
    requires Inv(t) && p < |t.proc| && t.proc[p].state.Running? && a.state != Unused
    requires FieldsOk(a, p in t.window)
    ensures Grows(t, Leave(t, p, a))
  {
    hide InvBut, FieldsOk, Demote, BeforeBoost, Back, Freshened;
    SetAside(t, p);
    PatchKeeps(t, p, p, a);
    BackMid(Patch(t, p, a), p);
    BeforeBoostGrows(Patch(t, p, a), p);
    var t2 := BeforeBoost(Patch(t, p, a), p);
    assert Inv(t2) && forall l :: 0 <= l < 3 ==> t.queue[l] <= t2.queue[l];
    assert Leave(t, p, a) == if t.tick >= BOOST then Boost(t2) else t2;
  }

  lemma BeforeBoostGrows(t: Table, p: nat)
    requires InvBut(t, p) && p < |t.proc| && !t.proc[p].state.Unused?
    ensures var t2 := BeforeBoost(t, p);
            |t.queue| == |t2.queue| == 3 && t2.tick == t.tick && forall l :: 0 <= l < 3 ==> t.queue[l] <= t2.queue[l]
  {
  }

  lemma ReturnGrows(t: Table, e: Event)
    requires Inv(t) && Enabled(t, e) && e.Returns()
    ensures Grows(t, Do(t, e))
  {
    match e {
      case Yield(p) => LeaveGrows(t, p, t.proc[p].(state := Runnable));
      case Sleep(p, chan) => LeaveGrows(t, p, t.proc[p].(state := Sleeping, chan := chan));
      case Exit(p, init) =>
        var parent := OfProc(t.proc[p].parent);
        WakeFromAppends(t, parent, 0);
        ReparentAppends(WakeFrom(t, parent, 0), p, init, 0);
        var t1 := Bequeath(t, p, init);
        LeaveGrows(t1, p, t1.proc[p].(state := Zombie));
    }
  }

  /** Nothing but a pick takes anybody off a list, and nothing but a return of a process
      with a hundred ticks gone moves anybody between lists. */
  lemma ListsGrow(t: Table, e: Event)
    requires Inv(t) && Enabled(t, e) && !e.PickNext?
    ensures e.Returns() ==> Grows(t, Do(t, e))
    ensures !e.Returns() ==> |Do(t, e).queue| == 3 && forall l :: 0 <= l < 3 ==> t.queue[l] <= Do(t, e).queue[l]
    ensures Do(t, e).tick == t.tick + Ticks([e]) || e.Returns()
  {
    if e.Returns() {
      ReturnGrows(t, e);
    } else if e.Wakeup? {
      WakeFromAppends(t, e.chan, 0);
    }
  }

  lemma GrowsAtFront(t: Table, t': Table)
    requires Grows(t, t')
    ensures t.queue[0] <= t'.queue[0]
  {
  }

  lemma FrontGrows(t: Table, e: Event)
    requires Inv(t) && Enabled(t, e) && !e.PickNext?
    ensures Inv(Do(t, e)) && t.queue[0] <= Do(t, e).queue[0]
  {
    StepKeepsInv(t, e);
    hide Do, InvBut, Enabled;
    ListsGrow(t, e);
    if e.Returns() {
      GrowsAtFront(t, Do(t, e));
    }
  }

  lemma PickIsDo(t: Table)
    requires Inv(t)
    ensures Do(t, PickNext) == Pick(t)
  {
  }

  lemma PickFront(t: Table)
    requires Inv(t) && t.queue[0] != []
    ensures Inv(Pick(t)) && Picked(t) == t.queue[0][0] && Pick(t).queue[0] == t.queue[0][1..]
  {
    PickKeeps(t);
  }

  /** The process at position k of L0 is the (k+1)-th picked from now on, whatever else
      happens; until then it moves up by one place a pick. */
  lemma {:induction false} FirstInFirstOut(t: Table, es: seq<Event>, k: nat)
    requires Inv(t) && Legal(t, es) && k < |t.queue[0]|
    ensures var picked, t' := PickedBy(t, es), Exec(t, es);
            if k < |picked| then picked[k] == t.queue[0][k]
            else k - |picked| < |t'.queue[0]| && t'.queue[0][k - |picked|] == t.queue[0][k]
    decreases |es|
  {
    hide InvBut, Enabled, Do;
    if es != [] {
      StepKeepsInv(t, es[0]);
      if es[0].PickNext? {
        PickFront(t);
        PickIsDo(t);
        if k > 0 {
          FirstInFirstOut(Pick(t), es[1..], k - 1);
        }
      } else {
        FrontGrows(t, es[0]);
        FirstInFirstOut(Do(t, es[0]), es[1..], k);
      }
    }
  }

  // ----- Nobody waits for ever -----

  /** p is on L0, or the boost that puts it there is due after the ticks still to come. */
  ghost predicate OnItsWay(t: Table, p: nat, ticks: nat) {
    Queued(t, p) && (p in t.queue[0] || t.tick + ticks >= BOOST)
  }

  lemma PickSpares(t: Table, p: nat)
    requires Inv(t) && Queued(t, p) && Picked(t) != p
    ensures Inv(Pick(t)) && Queued(Pick(t), p) && Pick(t).tick == t.tick
    ensures p in t.queue[0] ==> p in Pick(t).queue[0]
  {
    PickKeeps(t);
    var c := Choose(t);
    hide Choose;
    RemoveAt(t.queue[c.level], c.index);
  }

  lemma GrowsOnItsWay(t: Table, t': Table, p: nat, ticks: nat)
    requires Grows(t, t') && OnItsWay(t, p, ticks)
    ensures OnItsWay(t', p, ticks) && (t.tick >= BOOST ==> p in t'.queue[0])
  {
    if t.tick >= BOOST {
      var t1: Table :| Inv(t1) && (forall l :: 0 <= l < 3 ==> t.queue[l] <= t1.queue[l]) && t' == Boost(t1);
      assert forall l :: 0 <= l < 3 && p in t.queue[l] ==> p in t1.queue[l];
    }
  }

  lemma StepOnItsWay(t: Table, e: Event, p: nat, ticks: nat)
    requires Inv(t) && Enabled(t, e) && OnItsWay(t, p, ticks + Ticks([e]))
    requires e.PickNext? ==> Picked(t) != p
    ensures OnItsWay(Do(t, e), p, ticks)
  {
    hide Do, InvBut, Enabled, Grows, Pick, Picked;
    if e.PickNext? {
      PickSpares(t, p);
      PickIsDo(t);
    } else {
      ListsGrow(t, e);
      if e.Returns() {
        GrowsOnItsWay(t, Do(t, e), p, ticks);
      } else {
        assert forall l :: 0 <= l < 3 && p in t.queue[l] ==> p in Do(t, e).queue[l];
      }
    }
  }

  lemma {:induction false} RunOnItsWay(t: Table, es: seq<Event>, p: nat, ticks: nat)
    requires Inv(t) && Legal(t, es) && OnItsWay(t, p, ticks + Ticks(es)) && p !in PickedBy(t, es)
    ensures OnItsWay(Exec(t, es), p, ticks)
    decreases |es|
  {
    hide Do, OnItsWay, InvBut, Enabled, Picked;
    if es != [] {
      StepKeepsInv(t, es[0]);
      TicksFirst(es);
      StepOnItsWay(t, es[0], p, ticks + Ticks(es[1..]));
      RunOnItsWay(Do(t, es[0]), es[1..], p, ticks);
    }
  }

  lemma TicksFirst(es: seq<Event>)
    requires es != []
    ensures Ticks(es) == Ticks([es[0]]) + Ticks(es[1..])
  {
    assert [es[0]][1..] == [];
  }

  lemma {:induction false} RunsCompose(t: Table, es: seq<Event>, fs: seq<Event>)
    requires Inv(t) && Legal(t, es + fs)
    ensures Legal(t, es) && Legal(Exec(t, es), fs) && Exec(t, es + fs) == Exec(Exec(t, es), fs)
    ensures PickedBy(t, es + fs) == PickedBy(t, es) + PickedBy(Exec(t, es), fs)
    decreases |es|
  {
    hide Do, InvBut, Enabled, Picked;
    if es == [] {
      assert es + fs == fs;
    } else {
      assert (es + fs)[0] == es[0] && (es + fs)[1..] == es[1..] + fs;
      StepKeepsInv(t, es[0]);
      var t1 := Do(t, es[0]);
      RunsCompose(t1, es[1..], fs);
      var now := if es[0].PickNext? then [Picked(t)] else [];
      assert now + (PickedBy(t1, es[1..]) + PickedBy(Exec(t1, es[1..]), fs)) == PickedBy(t, es) + PickedBy(Exec(t, es), fs);
    }
  }

  lemma {:induction false} Pigeonhole(q: seq<nat>, n: nat)
    requires forall i :: 0 <= i < |q| ==> q[i] < n
    requires forall i, j :: 0 <= i < j < |q| ==> q[i] != q[j]
    ensures |q| <= n
  {
    if q == [] {
      return;
    }
    assert q[0] < n;
    if n - 1 in q {
      var k :| 0 <= k < |q| && q[k] == n - 1;
      RemoveAt(q, k);
      Pigeonhole(Remove(q, k), n - 1);
    } else {
      Pigeonhole(q, n - 1);
    }
  }

  lemma AtMostAll(t: Table)
    requires Inv(t)
    ensures |t.queue[0]| <= |t.proc|
  {
    Pigeonhole(t.queue[0], |t.proc|);
  }

  /** No starvation. Whoever waits, on any list, is picked within one pick per table entry
      after the first return to the scheduler that follows the hundredth tick. */
  lemma NoStarvation(t: Table, es: seq<Event>, e: Event, fs: seq<Event>, p: nat)
    requires Inv(t) && Legal(t, es + [e] + fs) && e.Returns()
    requires p < |t.proc| && t.proc[p].state.Runnable? && t.tick + Ticks(es) >= BOOST
    requires Legal(t, es + [e]) && Legal(Exec(t, es + [e]), fs) && |PickedBy(Exec(t, es + [e]), fs)| >= |t.proc|
    ensures p in PickedBy(t, es + [e] + fs)
  {
    hide Do, InvBut, Enabled, Grows;
    RunsCompose(t, es + [e], fs);
    RunsCompose(t, es, [e]);
    if p !in PickedBy(t, es) {
      QueuedIffRunnable(t, p, 0);
      var t1 := Exec(t, es);
      RunOnItsWay(t, es, p, 0);
      ReturnGrows(t1, e);
      var t2 := Exec(t, es + [e]);
      StepKeepsInv(t1, e);
      assert t2 == Do(t1, e) by {
        assert [e][0] == e && [e][1..] == [];
      }
      GrowsOnItsWay(t1, t2, p, 0);
      assert p in t2.queue[0];
      var k :| 0 <= k < |t2.queue[0]| && t2.queue[0][k] == p;
      AtMostAll(t2);
      FirstInFirstOut(t2, fs, k);
      assert PickedBy(t2, fs)[k] == p;
    }
  }
}
