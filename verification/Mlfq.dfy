/** proc.c's scheduler, step by step on ptable and its lists, with scheduler_locked == 0. */
module Mlfq {
  import opened MlfqSpec
  import opened MlfqLists
  import opened MlfqRuns

  lemma ZeroTable(t: Table)
    requires t.queue == [[], [], []] && t.window == {}
    requires forall p :: 0 <= p < |t.proc| ==> t.proc[p] == Proc(Unused, 0, NULL, NoChan, false, 0, 0, 0, 0)
    ensures Inv(t)
  {
  }

  lemma NoLinks(next: seq<int>, flag: seq<bool>)
    requires |next| == |flag| && forall p :: 0 <= p < |flag| ==> !flag[p]
    ensures Linked(next, flag, [NULL, NULL, NULL], [[], [], []])
  {
  }

  class Scheduler {
    const proc: array<Proc>      // ptable.proc, without the two list fields
    const next: array<int>       // proc[p].next
    const enqueued: array<bool>  // proc[p].already_enqueued
    var levelQueue: seq<int>
    var globalTick: nat
    var nextpid: nat

    ghost var queue: seq<seq<nat>>
    ghost var window: set<nat>

    ghost function T(): Table
      reads this, proc
    {
      Table(proc[..], queue, globalTick, nextpid, window)
    }

    ghost predicate Links()
      reads this, next, enqueued
    {
      proc.Length == next.Length == enqueued.Length && Linked(next[..], enqueued[..], levelQueue, queue)
    }

    ghost predicate ValidBut(x: int)
      reads this, proc, next, enqueued
    {
      Links() && InvBut(T(), x)
    }

    ghost predicate Valid()
      reads this, proc, next, enqueued
    {
      ValidBut(NULL)
    }

    /** The table once event e is over. */
    ghost function Following(e: MlfqRuns.Event): Table
      reads this, proc, next, enqueued
      requires Valid() && Enabled(T(), e)
    {
      Do(T(), e)
    }

    /** The zeroed ptable the kernel starts with. */
    constructor (nproc: nat)
      ensures Valid() && proc.Length == nproc && fresh(proc) && fresh(next) && fresh(enqueued)
      ensures queue == [[], [], []] && globalTick == 0 && forall p :: 0 <= p < nproc ==> proc[p].state.Unused?
    {
      var zero := Proc(Unused, 0, NULL, NoChan, false, 0, 0, 0, 0);
      proc := new Proc[nproc](_ => zero);
      next := new int[nproc](_ => NULL);
      enqueued := new bool[nproc](_ => false);
      levelQueue := [NULL, NULL, NULL];
      globalTick, nextpid := 0, 1;
      queue, window := [[], [], []], {};
      new;
      hide InvBut, Linked;
      ZeroTable(T());
      NoLinks(next[..], enqueued[..]);
    }

    // ----- The lists -----

    /** To the tail of its level's list, unless it is on a list already. */
    method Enqueue(p: nat)
      requires Links() && p < proc.Length && proc[p].level <= 2
      modifies this`levelQueue, this`queue, next, enqueued
      ensures Links()
      ensures |old(queue)| == 3 && T() == if old(enqueued[p]) then old(T()) else old(Append(T(), p))
    {
      hide Linked;
      HeadOf(proc[p].level);
      if !enqueued[p] {
        AppendTo(proc[p].level, p);
      }
    }

    method AppendTo(level: nat, p: nat)
      requires Links() && p < proc.Length && level < 3 && !enqueued[p] && |queue| == 3
      modifies this`levelQueue, this`queue, next, enqueued
      ensures Links() && T() == old(T()).(queue := old(queue)[level := old(queue)[level] + [p]])
    {
      hide Linked;
      HeadOf(level);
      ghost var q := queue[level];
      AppendLinked(next[..], enqueued[..], levelQueue, queue, level, p);
      if levelQueue[level] == NULL {
        levelQueue := levelQueue[level := p];
        next[p] := NULL;
        enqueued[p] := true;
      } else {
        var tmp := FindTail(level);
        next[tmp] := p;
        next[p] := NULL;
        enqueued[p] := true;
      }
      queue := queue[level := q + [p]];
    }

    lemma HeadOf(level: nat)
      requires Links() && level < 3
      ensures |levelQueue| == 3 && |queue| == 3
      ensures levelQueue[level] == (if queue[level] == [] then NULL else queue[level][0])
    {
      assert Chain(next[..], levelQueue[level], queue[level]);
    }

    /** The i-th process of a list, and the step to the next. */
    lemma NodeAt(level: nat, i: nat)
      requires Links() && level < 3 && |queue| == 3 && i < |queue[level]|
      ensures var q := queue[level];
              q[i] < next.Length && next[q[i]] == (if i + 1 < |q| then q[i + 1] else NULL)
    {
      assert Chain(next[..], levelQueue[level], queue[level]);
      assert next[..][queue[level][i]] == After(queue[level], i);
    }

    lemma PrevInRange(level: nat, i: nat)
      requires Links() && level < 3 && |queue| == 3 && i < |queue[level]|
      ensures i > 0 ==> queue[level][i - 1] < next.Length && queue[level][i - 1] != queue[level][i]
    {
      InRange(level);
    }

    lemma NotOnAny(level: nat, p: nat)
      requires Links() && level < 3 && p < proc.Length && !enqueued[p]
      ensures |queue| == 3 && p !in queue[level]
    {
      assert !enqueued[..][p];
      NotOn(queue, level, p);
    }

    /** The lists hold processes of the table. */
    lemma InRange(level: nat)
      requires Links() && level < 3
      ensures |queue| == 3 && forall i :: 0 <= i < |queue[level]| ==> queue[level][i] < proc.Length
    {
      assert Chain(next[..], levelQueue[level], queue[level]);
    }

    lemma HeadAndRoom(level: nat)
      requires Links() && level < 3
      ensures |levelQueue| == 3 && |queue| == 3
      ensures levelQueue[level] == (if queue[level] == [] then NULL else queue[level][0])
      ensures forall i :: 0 <= i < |queue[level]| ==> queue[level][i] < next.Length
      ensures forall i {:trigger After(queue[level], i)} :: 0 <= i < |queue[level]| ==>
                next[queue[level][i]] == After(queue[level], i)
      ensures forall i, j :: 0 <= i < j < |queue[level]| ==> queue[level][i] != queue[level][j]
      ensures forall i :: 0 <= i < |queue[level]| ==> enqueued[queue[level][i]]
    {
      ghost var q := queue[level];
      assert Chain(next[..], levelQueue[level], q);
      forall i | 0 <= i < |q| ensures q[i] < next.Length && next[q[i]] == After(q, i) && enqueued[q[i]] {
        OnListAt(queue, level, i);
        assert next[..][q[i]] == After(q, i);
      }
    }

    /** enqueue's walk to the last element. */
    method FindTail(level: nat) returns (tmp: nat)
      requires Links() && level < 3 && |queue| == 3 && queue[level] != []
      ensures tmp == queue[level][|queue[level]| - 1] && tmp < next.Length
    {
      HeadAndRoom(level);
      hide Linked;
      ghost var q := queue[level];
      tmp := levelQueue[level];
      ghost var i := 0;
      while next[tmp] != NULL
        invariant 0 <= i < |q| && tmp == q[i]
        decreases |q| - i
      {
        assert next[q[i]] == After(q, i);
        tmp := next[tmp];
        i := i + 1;
      }
      assert next[q[i]] == After(q, i);
    }

    method Dequeue(level: nat) returns (p: int)
      requires Links() && level < 3
      modifies this`levelQueue, this`queue, next, enqueued
      ensures Links() && |queue| == |old(queue)| == 3
      ensures old(queue[level]) == [] ==> p == NULL && T() == old(T())
      ensures old(queue[level]) != [] ==>
                p == old(queue[level][0]) && T() == old(T()).(queue := old(queue[level := Remove(queue[level], 0)]))
    {
      HeadAndRoom(level);
      hide Linked;
      p := levelQueue[level];
      if p == NULL {
        return;
      }
      ghost var q := queue[level];
      RemoveLinked(next[..], enqueued[..], levelQueue, queue, level, 0);
      levelQueue := levelQueue[level := next[p]];
      next[p] := NULL;
      enqueued[p] := false;
      queue := queue[level := Remove(q, 0)];
    }

    method DequeueSpecific(level: nat, specific: nat) returns (ghost k: int)
      requires Links() && level < 3 && specific < proc.Length
      modifies this`levelQueue, this`queue, next, enqueued
      ensures Links() && |queue| == |old(queue)| == 3
      ensures if k == NULL then specific !in old(queue[level]) && queue == old(queue)
              else && 0 <= k < |old(queue[level])| && old(queue[level])[k] == specific
                   && queue == old(queue)[level := Remove(old(queue[level]), k)]
    {
      hide Linked;
      HeadOf(level);
      k := NULL;
      if !enqueued[specific] {
        NotOnAny(level, specific);
        return;
      }
      ghost var q := queue[level];
      var p, prev := levelQueue[level], NULL;
      ghost var i := 0;
      while p != NULL
        invariant Links() && |levelQueue| == 3 && queue == old(queue) && 0 <= i <= |q| && specific !in q[..i]
        invariant p == (if i < |q| then q[i] else NULL) && prev == (if i > 0 then q[i - 1] else NULL)
        decreases |q| - i
      {
        NodeAt(level, i);
        PrevInRange(level, i);
        if p == specific {
          RemoveLinked(next[..], enqueued[..], levelQueue, queue, level, i);
          if prev != NULL {
            next[prev] := next[p];
          } else {
            levelQueue := levelQueue[level := next[p]];
          }
          next[p] := NULL;
          enqueued[p] := false;
          queue := queue[level := Remove(q, i)];
          k := i;
          break;
        }
        prev, p := p, next[p];
        i := i + 1;
      }
    }

    // ----- Becoming RUNNABLE -----

    lemma NotEnqueued(x: int, p: nat)
      requires ValidBut(x) && p < proc.Length && (p == x || !proc[p].state.Runnable?)
      ensures !enqueued[p]
    {
      assert enqueued[..][p] <==> OnList(queue, p);
      if p != x {
        assert T().proc[p] == proc[p];
      }
    }

    /** The two lines with which wakeup1, kill, fork and userinit end. */
    method MakeRunnable(p: nat)
      requires Valid() && p < proc.Length
      requires proc[p].state.Sleeping? || proc[p].state.Embryo?
      modifies this`levelQueue, this`queue, proc, next, enqueued
      ensures Valid() && T() == old(Awake(T(), p))
    {
      hide InvBut, Linked;
      ghost var t := T();
      AwakeKeeps(t, p);
      NotEnqueued(NULL, p);
      proc[p] := proc[p].(state := Runnable);
      Enqueue(p);
      assert T() == Awake(t, p);
    }

    method Wakeup1(chan: Chan)
      requires Valid()
      modifies this`levelQueue, this`queue, proc, next, enqueued
      ensures Valid() && T() == old(WakeFrom(T(), chan, 0))
    {
      hide InvBut, Linked;
      ghost var t := T();
      var p := 0;
      while p < proc.Length
        invariant 0 <= p <= proc.Length && Valid() && WakeFrom(T(), chan, p) == WakeFrom(t, chan, 0)
      {
        if proc[p].state.Sleeping? && proc[p].chan == chan {
          MakeRunnable(p);
        }
        p := p + 1;
      }
    }

    method Wakeup(chan: Chan)
      requires Valid()
      modifies this`levelQueue, this`queue, proc, next, enqueued
      ensures Valid() && T() == old(Following(MlfqRuns.Event.Wakeup(chan)))
    {
      hide InvBut, Linked, WakeFrom;
      Wakeup1(chan);
    }

    // ----- Picking -----

    /** The scan of L2 for the first process of least priority. */
    method FindLeast() returns (best: int)
      requires Valid()
      ensures |queue| == 3
      ensures queue[2] == [] ==> best == NULL
      ensures queue[2] != [] ==> (forall j :: 0 <= j < |queue[2]| ==> queue[2][j] < proc.Length)
                                 && best == queue[2][Best(T(), queue[2], 0, 0)]
    {
      hide InvBut, Linked, Best;
      HeadOf(2);
      InRange(2);
      ghost var q := queue[2];
      var p := levelQueue[2];
      best := NULL;
      ghost var i, k := 0, 0;
      while p != NULL
        invariant 0 <= i <= |q| && p == (if i < |q| then q[i] else NULL)
        invariant if i == 0 then best == NULL && k == 0
                  else 0 <= k < |q| && best == q[k] && Best(T(), q, i, k) == Best(T(), q, 0, 0)
        decreases |q| - i
      {
        NodeAt(2, i);
        BestStep(T(), q, i, k);
        if best == NULL || proc[p].priority < proc[best].priority {
          best := p;
          k := i;
        }
        p := next[p];
        i := i + 1;
      }
      if q != [] {
        BestStep(T(), q, 0, k);
      }
    }

    /** What the scheduler does on L2. */
    method TakeLeast() returns (p: int)
      requires Valid() && |queue| == 3 && forall j :: 0 <= j < |queue[2]| ==> queue[2][j] < proc.Length
      modifies this`levelQueue, this`queue, next, enqueued
      ensures Links()
      ensures if old(queue[2]) == [] then p == NULL && T() == old(T())
              else var k := old(Best(T(), queue[2], 0, 0));
                   p == old(queue[2])[k] && T() == old(T()).(queue := old(queue)[2 := Remove(old(queue[2]), k)])
    {
      hide InvBut, Linked, Best, Remove;
      ghost var t := T();
      p := FindLeast();
      if p != NULL {
        ghost var k := DequeueSpecific(2, p);
        SameEntry(t, 2, k, Best(t, t.queue[2], 0, 0));
      }
    }

    /** The loop over the levels: the chosen process leaves its list. */
    method TakeChosen() returns (p: int)
      requires Valid()
      modifies this`levelQueue, this`queue, next, enqueued
      ensures Links() && p == old(Picked(T()))
      ensures var c := old(Choose(T()));
              T() == if c.Idle? then old(T()) else Unlink(old(T()), c.level, c.index)
    {
      hide InvBut, Linked, Best, Remove, Choose, Picked, Unlink;
      ghost var t := T();
      ChoiceAt(t, 0);
      p := NULL;
      var level := 0;
      while level < 3
        invariant 0 <= level <= 3 && Valid() && T() == t && p == NULL
        invariant |t.queue| == 3 && forall l :: 0 <= l < level ==> t.queue[l] == []
        invariant level == 3 ==> Choose(t) == Idle && Picked(t) == NULL
      {
        ChoiceAt(t, level);
        if level == 2 {
          p := TakeLeast();
          if p != NULL {
            break;
          }
        } else {
          p := Dequeue(level);
          if p != NULL {
            break;
          }
        }
        level := level + 1;
      }
    }

    /** One choice of the scheduler, up to the swtch; the process clears its channel on its
        way out of sleep before it releases the lock. */
    method Pick() returns (p: int)
      requires Valid()
      modifies this`levelQueue, this`queue, proc, next, enqueued
      ensures Valid() && p == old(Picked(T())) && T() == old(Following(PickNext))
    {
      ghost var t := T();
      PickKeeps(t);
      PickIsDo(t);
      hide InvBut, Linked, Choose, Do;
      p := TakeChosen();
      if p != NULL {
        proc[p] := proc[p].(state := Running, chan := NoChan);
      }
      assert T() == MlfqSpec.Pick(t);
    }

    // ----- Back in the scheduler -----

    method DemoteIfDue(p: nat)
      requires p < proc.Length
      modifies proc
      ensures proc[..] == old(proc[..][p := Demote(proc[p])])
    {
      if proc[p].level < 2 && proc[p].allotment >= proc[p].quantum {
        proc[p] := proc[p].(level := proc[p].level + 1);
        proc[p] := proc[p].(quantum := 2 * proc[p].level + 4);
        proc[p] := proc[p].(allotment := 0);
      } else if proc[p].level == 2 && proc[p].allotment >= proc[p].quantum {
        proc[p] := proc[p].(priority := if proc[p].priority - 1 >= 0 then proc[p].priority - 1 else 0);
        proc[p] := proc[p].(allotment := 0);
      }
    }

    /** The processes of L0 start over; current ends on the last of them. */
    method RefreshFront() returns (current: int)
      requires Valid()
      modifies proc
      ensures |queue| == 3 && current == LastOf(queue[0])
      ensures proc[..] == Freshened(old(proc[..]), queue[0])
    {
      hide InvBut, Linked, Freshened, Fresh;
      HeadOf(0);
      ghost var t, q := T(), queue[0];
      FrontIsFresh(t);
      NoneFreshened(proc[..]);
      current := levelQueue[0];
      ghost var i := 0;
      if q != [] {
        NodeAt(0, 0);
      }
      while current != NULL && next[current] != NULL
        invariant 0 <= i <= |q| && (q != [] ==> i < |q| && current == q[i]) && (q == [] ==> current == NULL)
        invariant Links() && |queue| == 3 && proc[..] == Freshened(t.proc, q[..i])
        decreases |q| - i
      {
        NodeAt(0, i);
        Refresh(current, t.proc, q, i);
        current := next[current];
        i := i + 1;
        NodeAt(0, i);
      }
      if current != NULL {
        NodeAt(0, i);
        Refresh(current, t.proc, q, i);
        assert q[..i + 1] == q;
      } else {
        assert q[..i] == q;
      }
    }

    /** One process of L0 starts over; its level and quantum are those of L0 already. */
    method Refresh(p: nat, ghost ps: seq<Proc>, ghost q: seq<nat>, ghost i: nat)
      requires p < proc.Length && i < |q| && q[i] == p && proc[..] == Freshened(ps, q[..i])
      requires p < |ps| && ps[p].(priority := 3, allotment := 0) == Fresh(ps[p])
      modifies proc
      ensures proc[..] == Freshened(ps, q[..i + 1])
    {
      FreshenOne(ps, q[..i], p);
      assert q[..i] + [p] == q[..i + 1];
      proc[p] := proc[p].(priority := 3);
      proc[p] := proc[p].(allotment := 0);
    }

    /** One turn of the inner loop of the boost. */
    method HangBehind(last: int, p: nat)
      requires p < proc.Length && last < next.Length && (last == NULL || last >= 0) && |levelQueue| > 0
      modifies this`levelQueue, proc, next
      ensures proc[..] == old(proc[..][p := Fresh(proc[p])])
      ensures next[..] == if last == NULL then old(next[..]) else old(next[..])[last := p]
      ensures levelQueue == if last == NULL then old(levelQueue)[0 := p] else old(levelQueue)
    {
      proc[p] := proc[p].(level := 0, priority := 3);
      proc[p] := proc[p].(allotment := 0, quantum := 2 * proc[p].level + 4);
      if last == NULL {
        levelQueue := levelQueue[0 := p];
      } else {
        next[last] := p;
      }
    }

    /** The inner loop of the boost: list b of a lower level is hung behind a. */
    method SpliceLevel(level: nat, current: int, ghost a: seq<nat>, ghost b: seq<nat>) returns (last: int)
      requires proc.Length == next.Length && 0 < level < |levelQueue| && current == LastOf(a)
      requires Joinable(next[..], levelQueue[level], a, b)
      modifies this`levelQueue, proc, next
      ensures next[..] == Splice(old(next[..]), a, b) && proc[..] == Freshened(old(proc[..]), b)
      ensures levelQueue == HeadAfter(old(levelQueue), a, b, level) && |levelQueue| == |old(levelQueue)|
      ensures last == LastOf(a + b)
    {
      hide Freshened, Splice, Joinable, Fresh;
      ghost var ps, n0, h0 := proc[..], next[..], levelQueue;
      var p := levelQueue[level];
      last := current;
      JoinableFrom(n0, p, a, b);
      NoneFreshened(ps);
      ghost var i := 0;
      while p != NULL
        invariant 0 <= i <= |b| && p == (if i < |b| then b[i] else NULL)
        invariant last == (if i == 0 then LastOf(a) else b[i - 1])
        invariant next[..] == (if i == 0 then n0 else Splice(n0, a, b))
        invariant levelQueue == (if i == 0 then h0 else h0[0 := if a == [] then b[0] else h0[0]])
        invariant proc[..] == Freshened(ps, b[..i])
        decreases |b| - i
      {
        SpliceStep(n0, h0[level], a, b, i);
        FreshenOne(ps, b[..i], p);
        assert b[..i] + [p] == b[..i + 1];
        HangBehind(last, p);
        last := p;
        p := next[p];
        i := i + 1;
      }
      assert b[..i] == b;
      levelQueue := levelQueue[level := NULL];
    }

    /** The boost: L1 and L2 are hung behind L0, everybody on the lists starts over. */
    method BoostQueues()
      requires Valid()
      modifies this`levelQueue, this`queue, this`globalTick, proc, next
      ensures Valid() && T() == old(Boost(T()))
    {
      ghost var t := T();
      BoostKeeps(t);
      BoostIs(t);
      hide InvBut, Linked, Freshened, Boost;
      JoinQueues();
      globalTick := 0;
      assert T() == Boost(t);
    }

    method JoinQueues()
      requires Valid()
      modifies this`levelQueue, this`queue, proc, next
      ensures Links() && |old(queue)| == 3
      ensures var all := old(queue[0] + queue[1] + queue[2]);
              T() == old(T()).(queue := [all, [], []], proc := Freshened(old(proc[..]), all))
    {
      hide InvBut, Linked, Freshened, Joining, Joined, Joinable, Splice, OnList, HeadAfter, LastOf;
      ghost var ps, flags := proc[..], enqueued[..];
      HeadOf(0);
      JoinStart(next[..], flags, levelQueue, queue);
      JoinMore(queue, 1);
      var current := RefreshFront();
      ghost var acc := queue[0];
      var level := 1;
      while level <= 2
        invariant 1 <= level <= 3 && |queue| == |levelQueue| == 3 && proc.Length == next.Length
        invariant queue == old(queue) && acc == Joined(queue, level) && current == LastOf(acc)
        invariant Joining(next[..], levelQueue, queue, level) && proc[..] == Freshened(ps, acc)
        decreases 3 - level
      {
        JoinStep(next[..], levelQueue, queue, level);
        FreshenedTwice(ps, acc, queue[level]);
        JoinMore(queue, level);
        current := SpliceLevel(level, current, acc, queue[level]);
        acc := acc + queue[level];
        level := level + 1;
      }
      JoinEnd(next[..], flags, levelQueue, queue);
      queue := [acc, [], []];
    }

    /** The scheduler after swtch: p comes back in its new state. */
    method Back(p: nat)
      requires ValidBut(p) && p < proc.Length && !proc[p].state.Unused?
      modifies this, proc, next, enqueued
      ensures Valid() && T() == old(MlfqSpec.Back(T(), p)) && proc.Length == |old(proc[..])|
    {
      hide InvBut, Linked, Demote, Boost, MlfqSpec.Back;
      ghost var t := T();
      BackMid(t, p);
      NotEnqueued(p, p);
      DemoteIfDue(p);
      window := window - {p};
      if proc[p].state.Runnable? {
        Enqueue(p);
      }
      assert T() == BeforeBoost(t, p);
      if globalTick >= 100 {
        BoostQueues();
      }
    }

    // ----- What processes do -----

    method Yield(p: nat)
      requires Valid() && Enabled(T(), MlfqRuns.Event.Yield(p))
      modifies this, proc, next, enqueued
      ensures Valid() && T() == old(Following(MlfqRuns.Event.Yield(p)))
    {
      hide InvBut, Linked, MlfqSpec.Back;
      ghost var t := T();
      LeavePatch(t, p, proc[p].(state := Runnable));
      proc[p] := proc[p].(state := Runnable);
      assert T() == Patch(t, p, proc[p]);
      Back(p);
    }

    method Sleep(p: nat, chan: Chan)
      requires Valid() && Enabled(T(), MlfqRuns.Event.Sleep(p, chan))
      modifies this, proc, next, enqueued
      ensures Valid() && T() == old(Following(MlfqRuns.Event.Sleep(p, chan)))
    {
      hide InvBut, Linked, MlfqSpec.Back;
      ghost var t := T();
      LeavePatch(t, p, proc[p].(state := Sleeping, chan := chan));
      proc[p] := proc[p].(chan := chan);
      proc[p] := proc[p].(state := Sleeping);
      assert T() == Patch(t, p, proc[p]);
      Back(p);
    }

    /** exit's pass over the children. */
    method PassChildren(p: nat, init: nat)
      requires Valid()
      modifies this`levelQueue, this`queue, proc, next, enqueued
      ensures Valid() && T() == old(Reparent(T(), p, init, 0))
    {
      hide InvBut, Linked, WakeFrom;
      ghost var t := T();
      var i := 0;
      while i < proc.Length
        invariant 0 <= i <= proc.Length && Valid() && Reparent(T(), p, init, i) == Reparent(t, p, init, 0)
      {
        if proc[i].parent == p {
          ghost var now := T();
          ReparentKeeps(now, i, init);
          proc[i] := proc[i].(parent := init);
          assert T() == Patch(now, i, proc[i]);
          if proc[i].state.Zombie? {
            Wakeup1(OfProc(init));
          }
        }
        i := i + 1;
      }
    }

    method Exit(p: nat, init: nat)
      requires Valid() && Enabled(T(), MlfqRuns.Event.Exit(p, init))
      modifies this, proc, next, enqueued
      ensures Valid() && T() == old(Following(MlfqRuns.Event.Exit(p, init)))
    {
      ghost var t := T();
      hide InvBut, Linked, WakeFrom, Reparent, Bequeath, Leave, Do, MlfqSpec.Back;
      ghost var t1 := ExitSteps(t, p, init);
      Wakeup1(OfProc(proc[p].parent));
      PassChildren(p, init);
      proc[p] := proc[p].(state := Zombie);
      assert T() == Patch(t1, p, t1.proc[p].(state := Zombie));
      Back(p);
    }

    method Kill(pid: int) returns (found: bool)
      requires Valid()
      modifies this`levelQueue, this`queue, proc, next, enqueued
      ensures Valid() && T() == old(Following(MlfqRuns.Event.Kill(pid)))
      ensures found <==> exists p :: 0 <= p < |old(proc[..])| && old(proc[..])[p].pid == pid
    {
      ghost var t := T();
      hide InvBut, Linked, Do;
      var p := 0;
      while p < proc.Length
        invariant 0 <= p <= proc.Length && T() == t && Valid()
        invariant forall i :: 0 <= i < p ==> t.proc[i].pid != pid
        invariant FindPid(t, pid, p) == FindPid(t, pid, 0)
      {
        if proc[p].pid == pid {
          KillIs(t, pid);
          KillFound(p);
          return true;
        }
        p := p + 1;
      }
      KillIs(t, pid);
      return false;
    }

    method KillFound(p: nat)
      requires Valid() && p < proc.Length
      modifies this`levelQueue, this`queue, proc, next, enqueued
      ensures Valid() && T() == old(Killed(T(), p))
    {
      hide InvBut, Linked;
      ghost var t := T();
      KillPatch(t, p);
      proc[p] := proc[p].(killed := true);
      assert T() == Patch(t, p, proc[p]);
      if proc[p].state.Sleeping? {
        MakeRunnable(p);
      }
    }

    method SetPriority(pid: int, priority: int)
      requires Valid()
      modifies proc
      ensures Valid() && T() == old(Following(MlfqRuns.Event.SetPriority(pid, priority)))
    {
      hide InvBut, Linked;
      ghost var t := T();
      StepKeepsInv(t, MlfqRuns.Event.SetPriority(pid, priority));
      if priority < 0 || priority > 3 {
        return;
      }
      var p := 0;
      while p < proc.Length
        invariant 0 <= p <= proc.Length && T() == t && Valid()
        invariant FindPid(t, pid, p) == FindPid(t, pid, 0)
      {
        if proc[p].pid == pid {
          proc[p] := proc[p].(priority := priority);
          assert T() == Do(t, MlfqRuns.Event.SetPriority(pid, priority));
          return;
        }
        p := p + 1;
      }
    }

    /** The part of allocproc under the lock. */
    method Allocproc() returns (p: int)
      requires Valid()
      modifies this`nextpid, proc, next
      ensures Valid() && T() == old(Following(Alloc))
      ensures p == NULL ==> forall i :: 0 <= i < |old(proc[..])| ==> !old(proc[..])[i].state.Unused?
      ensures p != NULL ==> 0 <= p < |old(proc[..])| && old(proc[..])[p].state.Unused? && proc[p].state.Embryo?
    {
      ghost var t := T();
      hide InvBut, Linked, Do, NewProc;
      p := 0;
      while p < proc.Length
        invariant 0 <= p <= proc.Length && T() == t && Valid()
        invariant FindUnused(t, p) == FindUnused(t, 0)
        invariant forall i :: 0 <= i < p ==> !t.proc[i].state.Unused?
      {
        if proc[p].state.Unused? {
          AllocIs(t);
          InitProc(p);
          return;
        }
        p := p + 1;
      }
      AllocIs(t);
      p := NULL;
    }

    method InitProc(p: nat)
      requires Valid() && p < proc.Length && proc[p].state.Unused?
      modifies this`nextpid, proc, next
      ensures Valid() && T() == old(Allotted(T(), p))
    {
      hide InvBut, Linked;
      ghost var t := T();
      AllotKeeps(t, p);
      NotEnqueued(NULL, p);
      UnqueuedNext(p);
      proc[p] := proc[p].(state := Embryo, pid := nextpid);
      nextpid := nextpid + 1;
      proc[p] := proc[p].(level := 0, priority := 3);
      proc[p] := proc[p].(quantum := 2 * proc[p].level + 4, allotment := 0);
      next[p] := NULL;
      assert T() == Allotted(t, p);
    }

    /** Clearing the next field of a process that is on no list changes no list. */
    lemma UnqueuedNext(p: nat)
      requires Links() && p < proc.Length && !enqueued[p]
      ensures Linked(next[..][p := NULL], enqueued[..], levelQueue, queue)
    {
      forall l | 0 <= l < 3 ensures Chain(next[..][p := NULL], levelQueue[l], queue[l]) {
        assert !enqueued[..][p];
        assert Chain(next[..], levelQueue[l], queue[l]);
        OtherChain(next[..], levelQueue[l], queue[l], p, NULL);
      }
    }

    /** A new process that could not be built. */
    method Abandon(p: nat)
      requires Valid() && Enabled(T(), AllocFails(p))
      modifies proc
      ensures Valid() && T() == old(Following(AllocFails(p)))
    {
      hide InvBut, Linked;
      ghost var t := T();
      StepKeepsInv(t, AllocFails(p));
      proc[p] := proc[p].(state := Unused);
      assert T() == Do(t, AllocFails(p));
    }

    /** The end of fork and of userinit. */
    method StartChild(p: nat, parent: int)
      requires Valid() && Enabled(T(), Start(p, parent))
      modifies this`levelQueue, this`queue, proc, next, enqueued
      ensures Valid() && T() == old(Following(Start(p, parent)))
    {
      hide InvBut, Linked;
      ghost var t := T();
      ReparentKeeps(t, p, parent);
      proc[p] := proc[p].(parent := parent);
      assert T() == Patch(t, p, proc[p]);
      MakeRunnable(p);
    }

    /** wait's scan for a dead child. */
    method ReapChild(parent: int) returns (pid: int)
      requires Valid()
      modifies proc
      ensures Valid() && T() == old(Following(Reap(parent)))
      ensures pid == -1 <==> forall i :: 0 <= i < |old(proc[..])| ==> !DeadChild(old(proc[..])[i], parent)
    {
      hide InvBut, Linked;
      ghost var t := T();
      StepKeepsInv(t, Reap(parent));
      var p := 0;
      while p < proc.Length
        invariant 0 <= p <= proc.Length && T() == t && Valid()
        invariant FindZombie(t, parent, p) == FindZombie(t, parent, 0)
        invariant forall i :: 0 <= i < p ==> !DeadChild(t.proc[i], parent)
      {
        if proc[p].parent == parent && proc[p].state.Zombie? {
          pid := proc[p].pid;
          proc[p] := proc[p].(pid := 0, parent := NULL);
          proc[p] := proc[p].(killed := false, state := Unused);
          assert T() == Do(t, Reap(parent));
          return;
        }
        p := p + 1;
      }
      pid := -1;
    }

    // ----- The timer trap -----

    method CountTick()
      requires Valid()
      modifies this`globalTick
      ensures Valid() && T() == old(Following(Tick))
    {
      hide InvBut, Linked;
      ghost var t := T();
      StepKeepsInv(t, Tick);
      globalTick := globalTick + 1;
      assert T() == Do(t, Tick);
    }

    method ChargeProc(p: nat)
      requires Valid() && Enabled(T(), Charge(p))
      modifies this`window, proc
      ensures Valid() && T() == old(Following(Charge(p)))
    {
      hide InvBut, Linked;
      ghost var t := T();
      StepKeepsInv(t, Charge(p));
      proc[p] := proc[p].(allotment := proc[p].allotment + 1);
      window := window + {p};
      assert T() == Do(t, Charge(p));
    }
  }
}
