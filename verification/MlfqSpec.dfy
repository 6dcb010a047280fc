/** The MLFQ scheduler of proc.c as a machine over the regions in which ptable.lock is held,
    with scheduler_locked == 0. A process is its index in ptable.proc. */
module MlfqSpec {

  datatype ProcState = Unused | Embryo | Sleeping | Runnable | Running | Zombie

  datatype Chan = NoChan | OfProc(p: int) | Other(id: int)

  const NULL: int := -1
  const BOOST: nat := 100

  datatype Proc = Proc(
    state: ProcState, pid: nat, parent: int, chan: Chan, killed: bool,
    level: nat, priority: int, quantum: int, allotment: int)

  /** `window` holds the running processes that a timer tick has charged and that have not
      come back to the scheduler since. */
  datatype Table = Table(proc: seq<Proc>, queue: seq<seq<nat>>, tick: nat, nextpid: nat, window: set<nat>)

  // ----- The invariant at every release of ptable.lock -----

  function Quantum(level: nat): int {
    2 * level + 4
  }

  ghost predicate FieldsOk(a: Proc, charged: bool) {
    && a.level <= 2 && 0 <= a.priority <= 3
    && (!a.state.Unused? ==>
          && a.quantum == Quantum(a.level)
          && 0 <= a.allotment && (if charged then a.allotment <= a.quantum else a.allotment < a.quantum))
  }

  ghost predicate Fields(t: Table) {
    forall p :: 0 <= p < |t.proc| ==> FieldsOk(t.proc[p], p in t.window)
  }

  ghost predicate Members(t: Table) {
    && |t.queue| == 3
    && forall l, i :: 0 <= l < 3 && 0 <= i < |t.queue[l]| ==>
         t.queue[l][i] < |t.proc| && t.proc[t.queue[l][i]].state.Runnable? && t.proc[t.queue[l][i]].level == l
  }

  ghost predicate Distinct(t: Table) {
    && |t.queue| == 3
    && forall l, i, j :: 0 <= l < 3 && 0 <= i < j < |t.queue[l]| ==> t.queue[l][i] != t.queue[l][j]
  }

  ghost predicate Complete(t: Table, x: int) {
    && |t.queue| == 3
    && forall p :: 0 <= p < |t.proc| && t.proc[p].state.Runnable? && p != x ==>
         t.proc[p].level <= 2 && p in t.queue[t.proc[p].level]
  }

  ghost predicate OnList(queue: seq<seq<nat>>, p: int) {
    |queue| == 3 && (p in queue[0] || p in queue[1] || p in queue[2])
  }

  ghost predicate Outside(t: Table, x: int) {
    |t.queue| == 3 && !OnList(t.queue, x)
  }

  ghost predicate Charged(t: Table, x: int) {
    forall p :: p in t.window ==> p < |t.proc| && (t.proc[p].state.Running? || p == x)
  }

  /** Process x is between states: on no list, whatever its state says. */
  ghost predicate InvBut(t: Table, x: int) {
    Fields(t) && Members(t) && Distinct(t) && Complete(t, x) && Outside(t, x) && Charged(t, x)
  }

  ghost predicate Inv(t: Table) {
    InvBut(t, NULL)
  }

  ghost predicate Queued(t: Table, p: nat) {
    OnList(t.queue, p)
  }

  /** On list k exactly when RUNNABLE with level k, hence on no other list. */
  lemma QueuedIffRunnable(t: Table, p: nat, k: nat)
    requires Inv(t) && p < |t.proc| && k < 3
    ensures p in t.queue[k] <==> t.proc[p].state.Runnable? && t.proc[p].level == k
    ensures Queued(t, p) <==> t.proc[p].state.Runnable?
  {
  }

  lemma SetAside(t: Table, p: nat)
    requires Inv(t) && p < |t.proc| && !t.proc[p].state.Runnable?
    ensures InvBut(t, p)
  {
    assert Outside(t, p);
  }

  lemma PutBack(t: Table, p: nat)
    requires InvBut(t, p) && p < |t.proc| && !t.proc[p].state.Runnable? && p !in t.window
    ensures Inv(t)
  {
    assert Outside(t, NULL);
  }

  // ----- One process changes -----

  function Patch(t: Table, p: nat, a: Proc): Table
    requires p < |t.proc|
  {
    t.(proc := t.proc[p := a])
  }

  lemma PatchKeeps(t: Table, x: int, p: nat, a: Proc)
    requires InvBut(t, x) && p < |t.proc| && FieldsOk(a, p in t.window)
    requires p != x ==> (a.state == t.proc[p].state && a.level == t.proc[p].level) || !(a.state.Runnable? || t.proc[p].state.Runnable? || p in t.window)
    ensures InvBut(Patch(t, p, a), x)
  {
    var t' := Patch(t, p, a);
    assert Members(t');
    assert Complete(t', x);
  }

  // ----- The lists -----

  function Append(t: Table, p: nat): Table
    requires p < |t.proc| && t.proc[p].level < |t.queue|
  {
    t.(queue := t.queue[t.proc[p].level := t.queue[t.proc[p].level] + [p]])
  }

  lemma AppendKeeps(t: Table, p: nat)
    requires InvBut(t, p) && p < |t.proc| && t.proc[p].state.Runnable? && p !in t.window
    ensures t.proc[p].level <= 2 && Inv(Append(t, p))
  {
    var t' := Append(t, p);
    var l := t.proc[p].level;
    assert t'.queue[l] == t.queue[l] + [p];
    assert Fields(t');
    forall k, i | 0 <= k < 3 && 0 <= i < |t'.queue[k]|
      ensures t'.queue[k][i] < |t.proc| && t.proc[t'.queue[k][i]].state.Runnable? && t.proc[t'.queue[k][i]].level == k
    {
      if k == l && i == |t.queue[l]| {
        assert t'.queue[k][i] == p;
      } else {
        assert t'.queue[k][i] == t.queue[k][i];
      }
    }
    forall k, i, j | 0 <= k < 3 && 0 <= i < j < |t'.queue[k]| ensures t'.queue[k][i] != t'.queue[k][j] {
      assert t'.queue[k][i] == t.queue[k][i];
    }
    assert Complete(t', NULL);
    assert Outside(t', NULL);
  }

  function Remove(q: seq<nat>, i: nat): seq<nat>
    requires i < |q|
  {
    q[..i] + q[i + 1..]
  }

  /** Process number i of list l leaves it. */
  function Unlink(t: Table, l: nat, i: nat): Table
    requires l < |t.queue| && i < |t.queue[l]|
  {
    t.(queue := t.queue[l := Remove(t.queue[l], i)])
  }

  lemma RemoveAt(q: seq<nat>, i: nat)
    requires i < |q|
    requires forall j, k :: 0 <= j < k < |q| ==> q[j] != q[k]
    ensures var r := Remove(q, i);
            && |r| == |q| - 1
            && (forall j :: 0 <= j < |r| ==> r[j] == q[if j < i then j else j + 1])
            && (forall j, k :: 0 <= j < k < |r| ==> r[j] != r[k])
            && (forall p :: p in r <==> p in q && p != q[i])
  {
    var r := Remove(q, i);
    forall p | p in q && p != q[i] ensures p in r {
      var j :| 0 <= j < |q| && q[j] == p;
      assert r[if j < i then j else j - 1] == p;
    }
  }

  lemma UnlinkKeeps(t: Table, l: nat, i: nat)
    requires Inv(t) && l < 3 && i < |t.queue[l]|
    ensures InvBut(Unlink(t, l, i), t.queue[l][i])
  {
    RemoveAt(t.queue[l], i);
    hide Remove;
    var t', x := Unlink(t, l, i), t.queue[l][i];
    assert Fields(t');
    assert Members(t');
    assert Distinct(t');
    assert Complete(t', x);
    assert Outside(t', x);
  }

  // ----- enqueue, wakeup1, kill -----

  /** A process that is on no list and not running becomes RUNNABLE and goes to the tail. */
  function Ready(t: Table, p: nat, a: Proc): Table
    requires p < |t.proc| && a.level < |t.queue|
  {
    Append(Patch(t, p, a), p)
  }

  lemma ReadyKeeps(t: Table, p: nat, a: Proc)
    requires Inv(t) && p < |t.proc| && !t.proc[p].state.Runnable? && !t.proc[p].state.Running?
    requires a.state.Runnable? && FieldsOk(a, false)
    ensures Inv(Ready(t, p, a))
  {
    SetAside(t, p);
    assert p !in t.window;
    PatchKeeps(t, p, p, a);
    AppendKeeps(Patch(t, p, a), p);
  }

  function Awake(t: Table, p: nat): Table
    requires p < |t.proc| && t.proc[p].level < |t.queue|
  {
    Ready(t, p, t.proc[p].(state := Runnable))
  }

  lemma AwakeKeeps(t: Table, p: nat)
    requires Inv(t) && p < |t.proc| && (t.proc[p].state.Sleeping? || t.proc[p].state.Embryo?)
    ensures t.proc[p].level <= 2 && |t.queue| == 3 && Inv(Awake(t, p)) && |Awake(t, p).proc| == |t.proc|
  {
    assert FieldsOk(t.proc[p], p in t.window);
    assert p !in t.window;
    ReadyKeeps(t, p, t.proc[p].(state := Runnable));
  }

  /** wakeup1 from entry i of the table on. */
  function WakeFrom(t: Table, chan: Chan, i: nat): Table
    requires Inv(t)
    decreases |t.proc| - i
    ensures Inv(WakeFrom(t, chan, i)) && |WakeFrom(t, chan, i).proc| == |t.proc|
  {
    if i >= |t.proc| then t
    else if t.proc[i].state.Sleeping? && t.proc[i].chan == chan then
      AwakeKeeps(t, i);
      WakeFrom(Awake(t, i), chan, i + 1)
    else WakeFrom(t, chan, i + 1)
  }

  // ----- The scheduler's choice -----

  /** The scan of L2: the first entry with the least priority number, given the best so far. */
  function Best(t: Table, q: seq<nat>, i: nat, best: nat): (k: nat)
    requires i <= |q| && best < |q| && forall j :: 0 <= j < |q| ==> q[j] < |t.proc|
    ensures k < |q|
    decreases |q| - i
  {
    if i == |q| then best
    else Best(t, q, i + 1, if t.proc[q[i]].priority < t.proc[q[best]].priority then i else best)
  }

  lemma {:induction false} BestIsFirstLeast(t: Table, q: seq<nat>, i: nat, best: nat)
    requires best < i <= |q| && forall j :: 0 <= j < |q| ==> q[j] < |t.proc|
    requires forall j :: 0 <= j < i ==> t.proc[q[best]].priority <= t.proc[q[j]].priority
    requires forall j :: 0 <= j < best ==> t.proc[q[best]].priority < t.proc[q[j]].priority
    ensures var k := Best(t, q, i, best);
            && (forall j :: 0 <= j < |q| ==> t.proc[q[k]].priority <= t.proc[q[j]].priority)
            && (forall j :: 0 <= j < k ==> t.proc[q[k]].priority < t.proc[q[j]].priority)
    decreases |q| - i
  {
    if i < |q| {
      BestIsFirstLeast(t, q, i + 1, if t.proc[q[i]].priority < t.proc[q[best]].priority then i else best);
    }
  }

  lemma BestStep(t: Table, q: seq<nat>, i: nat, best: nat)
    requires best < |q| && i < |q| && forall j :: 0 <= j < |q| ==> q[j] < |t.proc|
    ensures Best(t, q, i, best) == Best(t, q, i + 1, if t.proc[q[i]].priority < t.proc[q[best]].priority then i else best)
    ensures Best(t, q, |q|, best) == best
  {
  }

  datatype Choice = Idle | Choice(level: nat, index: nat)

  function Choose(t: Table): (c: Choice)
    requires Inv(t)
    ensures c.Choice? ==> c.level < 3 && c.index < |t.queue[c.level]|
  {
    if t.queue[0] != [] then Choice(0, 0)
    else if t.queue[1] != [] then Choice(1, 0)
    else if t.queue[2] != [] then Choice(2, Best(t, t.queue[2], 0, 0))
    else Idle
  }

  lemma SameEntry(t: Table, l: nat, i: int, j: int)
    requires Inv(t) && l < 3 && 0 <= i < |t.queue[l]| && 0 <= j < |t.queue[l]| && t.queue[l][i] == t.queue[l][j]
    ensures i == j
  {
  }

  function Picked(t: Table): int
    requires Inv(t)
  {
    var c := Choose(t);
    if c.Idle? then NULL else t.queue[c.level][c.index]
  }

  /** The levels are tried from the top, and a list is looked at only if those above are empty. */
  lemma ChoiceAt(t: Table, level: nat)
    requires Inv(t) && level < 3 && forall l :: 0 <= l < level ==> t.queue[l] == []
    ensures |t.queue| == 3 && forall i :: 0 <= i < |t.queue[2]| ==> t.queue[2][i] < |t.proc|
    ensures t.queue[level] != [] ==>
              var k := if level == 2 then Best(t, t.queue[2], 0, 0) else 0;
              && Choose(t) == Choice(level, k) && Picked(t) == t.queue[level][k]
              && Unlink(t, level, k) == t.(queue := t.queue[level := Remove(t.queue[level], k)])
    ensures level == 2 && t.queue[2] == [] ==> Choose(t) == Idle && Picked(t) == NULL
  {
  }

  /** The chosen process runs; if it was in sleep, it clears its channel before it lets go
      of the lock. */
  function Pick(t: Table): Table
    requires Inv(t)
  {
    var c := Choose(t);
    if c.Idle? then t
    else
      var p := t.queue[c.level][c.index];
      Patch(Unlink(t, c.level, c.index), p, t.proc[p].(state := Running, chan := NoChan))
  }

  lemma PickKeeps(t: Table)
    requires Inv(t)
    ensures Inv(Pick(t)) && |Pick(t).proc| == |t.proc|
  {
    var c := Choose(t);
    if c.Choice? {
      var p := t.queue[c.level][c.index];
      UnlinkKeeps(t, c.level, c.index);
      var t1 := Unlink(t, c.level, c.index);
      assert p !in t.window;
      PatchKeeps(t1, p, p, t.proc[p].(state := Running, chan := NoChan));
      PutBack(Pick(t), p);
    }
  }

  // ----- Back in the scheduler -----

  /** A quantum used up costs a level, and on the last level a priority number. */
  function Demote(a: Proc): Proc {
    if a.level < 2 && a.allotment >= a.quantum then
      a.(level := a.level + 1, quantum := Quantum(a.level + 1), allotment := 0)
    else if a.level == 2 && a.allotment >= a.quantum then
      a.(priority := if a.priority - 1 >= 0 then a.priority - 1 else 0, allotment := 0)
    else a
  }

  lemma DemoteOk(a: Proc, charged: bool)
    requires FieldsOk(a, charged) && !a.state.Unused?
    ensures FieldsOk(Demote(a), false) && FieldsOk(Demote(a), charged)
    ensures Demote(a).state == a.state && Demote(a).level <= 2
  {
  }

  function Fresh(a: Proc): Proc {
    a.(level := 0, priority := 3, allotment := 0, quantum := Quantum(0))
  }

  function Freshened(ps: seq<Proc>, s: seq<nat>): seq<Proc> {
    seq(|ps|, i requires 0 <= i < |ps| => if i in s then Fresh(ps[i]) else ps[i])
  }

  /** Every queued process starts over, on one list. */
  function Boost(t: Table): Table
    requires |t.queue| == 3
  {
    var all := t.queue[0] + t.queue[1] + t.queue[2];
    t.(proc := Freshened(t.proc, all), queue := [all, [], []], tick := 0)
  }

  /** A hundred ticks: the lists are joined in order of level, and everybody on them is back
      at level 0, priority 3, with nothing used up; the others are not touched. */
  lemma BoostStartsOver(t: Table, p: nat)
    requires Inv(t) && p < |t.proc|
    ensures var t' := Boost(t);
            && t'.queue[0] == t.queue[0] + t.queue[1] + t.queue[2] && t'.queue[1] == t'.queue[2] == []
            && |t'.proc| == |t.proc|
            && if t.proc[p].state.Runnable?
               then t'.proc[p] == t.proc[p].(level := 0, priority := 3, allotment := 0, quantum := 4)
               else t'.proc[p] == t.proc[p]
  {
    QueuedIffRunnable(t, p, 0);
    var all := t.queue[0] + t.queue[1] + t.queue[2];
    assert p in all <==> Queued(t, p);
  }

  lemma BoostMembers(t: Table)
    requires Inv(t)
    ensures Members(Boost(t)) && Distinct(Boost(t))
  {
    var t' := Boost(t);
    assert t'.queue[1] == t'.queue[2] == [];
    forall i | 0 <= i < |t'.queue[0]|
      ensures t'.queue[0][i] < |t.proc| && t'.proc[t'.queue[0][i]].state.Runnable? && t'.proc[t'.queue[0][i]].level == 0
    {
      AllFrom(t, i);
      BoostStartsOver(t, t'.queue[0][i]);
    }
    forall i, j | 0 <= i < j < |t'.queue[0]| ensures t'.queue[0][i] != t'.queue[0][j] {
      AllFrom(t, i);
      AllFrom(t, j);
    }
  }

  lemma BoostComplete(t: Table)
    requires Inv(t)
    ensures Complete(Boost(t), NULL) && Outside(Boost(t), NULL)
  {
    var t' := Boost(t);
    forall p | 0 <= p < |t'.proc| && t'.proc[p].state.Runnable?
      ensures t'.proc[p].level == 0 && p in t'.queue[0]
    {
      BoostStartsOver(t, p);
      QueuedIffRunnable(t, p, 0);
    }
  }

  lemma BoostFields(t: Table)
    requires Inv(t)
    ensures Fields(Boost(t)) && Charged(Boost(t), NULL)
  {
    var t' := Boost(t);
    forall p | 0 <= p < |t.proc|
      ensures t'.proc[p].state == t.proc[p].state && FieldsOk(t'.proc[p], p in t.window)
    {
      BoostStartsOver(t, p);
    }
    hide Freshened;
  }

  lemma BoostKeeps(t: Table)
    requires Inv(t)
    ensures Inv(Boost(t))
  {
    BoostMembers(t);
    BoostComplete(t);
    BoostFields(t);
    hide Members, Distinct, Complete, Outside, Fields, Charged, Boost;
  }

  /** Where entry i of the boosted list comes from. */
  lemma AllFrom(t: Table, i: nat)
    requires Inv(t) && i < |t.queue[0] + t.queue[1] + t.queue[2]|
    ensures var n0, n1 := |t.queue[0]|, |t.queue[1]|;
            var l := if i < n0 then 0 else if i < n0 + n1 then 1 else 2;
            var j := if i < n0 then i else if i < n0 + n1 then i - n0 else i - n0 - n1;
            && j < |t.queue[l]| && (t.queue[0] + t.queue[1] + t.queue[2])[i] == t.queue[l][j] < |t.proc|
            && t.proc[t.queue[l][j]].state.Runnable? && t.proc[t.queue[l][j]].level == l
  {
  }

  /** The scheduler after swtch: p has left its CPU with its new state. */
  function Back(t: Table, p: nat): Table
    requires InvBut(t, p) && p < |t.proc|
  {
    var t1 := Patch(t, p, Demote(t.proc[p])).(window := t.window - {p});
    var t2 := if t1.proc[p].state.Runnable? then Append(t1, p) else t1;
    if t2.tick >= BOOST then Boost(t2) else t2
  }

  lemma UnchargeKeeps(t: Table, p: nat)
    requires InvBut(t, p) && p < |t.proc|
    requires FieldsOk(t.proc[p], false)
    ensures InvBut(t.(window := t.window - {p}), p) && p !in t.window - {p}
  {
  }

  lemma BackKeeps(t: Table, p: nat)
    requires InvBut(t, p) && p < |t.proc| && !t.proc[p].state.Unused?
    ensures Inv(Back(t, p)) && |Back(t, p).proc| == |t.proc|
  {
    var a := Demote(t.proc[p]);
    PatchKeeps(t, p, p, a);
    var t0 := Patch(t, p, a);
    UnchargeKeeps(t0, p);
    var t1 := t0.(window := t.window - {p});
    hide InvBut;
    if a.state.Runnable? {
      AppendKeeps(t1, p);
      BoostKeeps(Append(t1, p));
    } else {
      PutBack(t1, p);
      BoostKeeps(t1);
    }
  }

  /** Back in two steps. */
  ghost function BeforeBoost(t: Table, p: nat): Table
    requires InvBut(t, p) && p < |t.proc|
  {
    var t1 := Patch(t, p, Demote(t.proc[p])).(window := t.window - {p});
    if t1.proc[p].state.Runnable? then Append(t1, p) else t1
  }

  lemma BackMid(t: Table, p: nat)
    requires InvBut(t, p) && p < |t.proc| && !t.proc[p].state.Unused?
    ensures Demote(t.proc[p]).level <= 2 && |t.queue| == 3
    ensures Inv(BeforeBoost(t, p)) && Inv(Back(t, p))
    ensures Back(t, p) == if t.tick >= BOOST then Boost(BeforeBoost(t, p)) else BeforeBoost(t, p)
  {
    var a := Demote(t.proc[p]);
    BackKeeps(t, p);
    DemoteOk(t.proc[p], p in t.window);
    PatchKeeps(t, p, p, a);
    var t0 := Patch(t, p, a);
    UnchargeKeeps(t0, p);
    var t1 := t0.(window := t.window - {p});
    if a.state.Runnable? {
      AppendKeeps(t1, p);
    } else {
      PutBack(t1, p);
    }
  }
}
