/** The three intrusive lists of proc.c: level_queue holds the heads, next and
    already_enqueued are fields of struct proc. */
module MlfqLists {
  import opened MlfqSpec

  function After(q: seq<nat>, i: nat): int
    requires i < |q|
  {
    if i + 1 < |q| then q[i + 1] else NULL
  }

  ghost predicate Chain(next: seq<int>, head: int, q: seq<nat>) {
    && head == (if q == [] then NULL else q[0])
    && (forall i :: 0 <= i < |q| ==> q[i] < |next|)
    && (forall i {:trigger After(q, i)} :: 0 <= i < |q| ==> next[q[i]] == After(q, i))
  }

  /** No process is twice on the lists. */
  ghost predicate Apart(queue: seq<seq<nat>>) {
    forall l, i, m, j :: 0 <= l < |queue| && 0 <= m < |queue| && 0 <= i < |queue[l]| && 0 <= j < |queue[m]| ==>
      queue[l][i] == queue[m][j] ==> l == m && i == j
  }

  ghost predicate Linked(next: seq<int>, flag: seq<bool>, head: seq<int>, queue: seq<seq<nat>>) {
    && |head| == |queue| == 3 && |flag| == |next|
    && (forall l :: 0 <= l < 3 ==> Chain(next, head[l], queue[l]))
    && Apart(queue)
    && (forall p :: 0 <= p < |flag| ==> (flag[p] <==> OnList(queue, p)))
  }

  lemma OnListAt(queue: seq<seq<nat>>, l: nat, i: nat)
    requires |queue| == 3 && l < 3 && i < |queue[l]|
    ensures OnList(queue, queue[l][i])
  {
  }

  // ----- Linking in and out -----

  /** Writing one next field leaves every list alone that the process is not on. */
  lemma OtherChain(next: seq<int>, head: int, q: seq<nat>, p: nat, v: int)
    requires Chain(next, head, q) && p < |next| && p !in q
    ensures Chain(next[p := v], head, q)
  {
    forall i {:trigger After(q, i)} | 0 <= i < |q| ensures next[p := v][q[i]] == After(q, i) {
      assert q[i] != p;
    }
  }

  function Linkage(next: seq<int>, q: seq<nat>, p: nat): seq<int>
    requires p < |next| && (q != [] ==> q[|q| - 1] < |next|)
  {
    (if q == [] then next else next[q[|q| - 1] := p])[p := NULL]
  }

  lemma AppendChain(next: seq<int>, head: int, q: seq<nat>, p: nat)
    requires Chain(next, head, q) && p < |next| && p !in q
    requires forall i, j :: 0 <= i < j < |q| ==> q[i] != q[j]
    ensures Chain(Linkage(next, q, p), if q == [] then p else head, q + [p])
  {
    var r, next' := q + [p], Linkage(next, q, p);
    forall i {:trigger After(r, i)} | 0 <= i < |r| ensures next'[r[i]] == After(r, i) {
      if i < |q| {
        assert r[i] == q[i] && next[q[i]] == After(q, i);
      }
    }
  }

  lemma AppendApart(queue: seq<seq<nat>>, l: nat, p: nat)
    requires |queue| == 3 && Apart(queue) && l < 3 && !OnList(queue, p)
    ensures Apart(queue[l := queue[l] + [p]])
    ensures forall x :: OnList(queue[l := queue[l] + [p]], x) <==> OnList(queue, x) || x == p
  {
    var queue' := queue[l := queue[l] + [p]];
    forall m, i | 0 <= m < 3 && 0 <= i < |queue'[m]|
      ensures if m == l && i == |queue[l]| then queue'[m][i] == p else i < |queue[m]| && queue'[m][i] == queue[m][i] != p
    {
      if !(m == l && i == |queue[l]|) {
        OnListAt(queue, m, i);
      }
    }
    forall x ensures OnList(queue', x) <==> OnList(queue, x) || x == p {
      assert queue'[l][|queue[l]|] == p;
    }
  }

  /** enqueue on a process that is on no list. */
  lemma AppendLinked(next: seq<int>, flag: seq<bool>, head: seq<int>, queue: seq<seq<nat>>, l: nat, p: nat)
    requires Linked(next, flag, head, queue) && l < 3 && p < |next| && !flag[p]
    ensures var q := queue[l];
            && (q != [] ==> q[|q| - 1] < |next|)
            && Linked(Linkage(next, q, p), flag[p := true], if q == [] then head[l := p] else head, queue[l := q + [p]])
  {
    hide Linkage, Chain, Apart, OnList;
    var q := queue[l];
    assert Chain(next, head[l], q);
    InsideList(next, head[l], queue, l);
    var next' := Linkage(next, q, p);
    var head' := if q == [] then head[l := p] else head;
    assert !OnList(queue, p);
    AppendApart(queue, l, p);
    forall m | 0 <= m < 3 ensures Chain(next', head'[m], queue[l := q + [p]][m]) {
      assert Chain(next, head[m], queue[m]);
      NotOn(queue, m, p);
      if m == l {
        AppendChain(next, head[l], q, p);
      } else {
        LinkageOther(next, queue, head[m], l, m, p);
      }
    }
    LinkageLength(next, q, p);
  }

  lemma NotOn(queue: seq<seq<nat>>, m: nat, p: nat)
    requires |queue| == 3 && m < 3 && !OnList(queue, p)
    ensures p !in queue[m]
  {
  }

  lemma LinkageOther(next: seq<int>, queue: seq<seq<nat>>, head: int, l: nat, m: nat, p: nat)
    requires |queue| == 3 && Apart(queue) && l < 3 && m < 3 && l != m && p < |next| && p !in queue[m]
    requires Chain(next, head, queue[m]) && forall j :: 0 <= j < |queue[l]| ==> queue[l][j] < |next|
    ensures Chain(Linkage(next, queue[l], p), head, queue[m])
  {
    var q := queue[l];
    assert q != [] ==> q[|q| - 1] !in queue[m];
    hide Chain, Apart;
    if q != [] {
      OtherChain(next, head, queue[m], q[|q| - 1], p);
    }
    OtherChain(if q == [] then next else next[q[|q| - 1] := p], head, queue[m], p, NULL);
  }

  lemma LinkageLength(next: seq<int>, q: seq<nat>, p: nat)
    requires p < |next| && (q != [] ==> q[|q| - 1] < |next|)
    ensures |Linkage(next, q, p)| == |next|
  {
  }

  lemma InsideList(next: seq<int>, head: int, queue: seq<seq<nat>>, l: nat)
    requires l < |queue| && Chain(next, head, queue[l]) && Apart(queue)
    ensures forall j :: 0 <= j < |queue[l]| ==> queue[l][j] < |next|
    ensures forall i, j :: 0 <= i < j < |queue[l]| ==> queue[l][i] != queue[l][j]
  {
  }

  function Bypass(next: seq<int>, q: seq<nat>, i: nat): seq<int>
    requires i < |q| && forall j :: 0 <= j < |q| ==> q[j] < |next|
  {
    (if i == 0 then next else next[q[i - 1] := next[q[i]]])[q[i] := NULL]
  }

  lemma BypassChain(next: seq<int>, head: int, q: seq<nat>, i: nat)
    requires Chain(next, head, q) && i < |q|
    requires forall i, j :: 0 <= i < j < |q| ==> q[i] != q[j]
    ensures Chain(Bypass(next, q, i), if i == 0 then next[q[0]] else head, Remove(q, i))
  {
    RemoveAt(q, i);
    var r, next' := Remove(q, i), Bypass(next, q, i);
    hide Remove;
    assert next[q[i]] == After(q, i);
    forall j {:trigger After(r, j)} | 0 <= j < |r| ensures next'[r[j]] == After(r, j) {
      var o := if j < i then j else j + 1;
      assert r[j] == q[o] && next[q[o]] == After(q, o);
    }
  }

  lemma RemoveApart(queue: seq<seq<nat>>, l: nat, i: nat)
    requires |queue| == 3 && Apart(queue) && l < 3 && i < |queue[l]|
    ensures Apart(queue[l := Remove(queue[l], i)])
    ensures forall x :: OnList(queue[l := Remove(queue[l], i)], x) <==> OnList(queue, x) && x != queue[l][i]
  {
    RemoveAt(queue[l], i);
    var queue' := queue[l := Remove(queue[l], i)];
    hide Remove;
    forall x ensures OnList(queue', x) <==> OnList(queue, x) && x != queue[l][i] {
      if exists m :: 0 <= m < 3 && m != l && x in queue[m] {
        var m :| 0 <= m < 3 && m != l && x in queue[m];
        var j :| 0 <= j < |queue[m]| && queue[m][j] == x;
        assert queue[l][i] != x;
        assert queue'[m] == queue[m];
      } else {
        assert queue'[l] == Remove(queue[l], i);
      }
    }
  }

  /** dequeue and dequeue_specific on a process that is on list l. */
  lemma RemoveLinked(next: seq<int>, flag: seq<bool>, head: seq<int>, queue: seq<seq<nat>>, l: nat, i: nat)
    requires Linked(next, flag, head, queue) && l < 3 && i < |queue[l]|
    ensures var q := queue[l];
            && (forall j :: 0 <= j < |q| ==> q[j] < |next|)
            && Linked(Bypass(next, q, i), flag[q[i] := false], if i == 0 then head[l := next[q[0]]] else head, queue[l := Remove(q, i)])
  {
    hide Remove, Bypass, Chain, Apart, OnList;
    var q := queue[l];
    assert Chain(next, head[l], q);
    InsideList(next, head[l], queue, l);
    OnListAt(queue, l, i);
    var next' := Bypass(next, q, i);
    var head' := if i == 0 then head[l := next[q[0]]] else head;
    RemoveApart(queue, l, i);
    forall m | 0 <= m < 3 ensures Chain(next', head'[m], queue[l := Remove(q, i)][m]) {
      assert Chain(next, head[m], queue[m]);
      if m == l {
        BypassChain(next, head[l], q, i);
      } else {
        BypassOther(next, queue, head[m], l, i, m);
      }
    }
    BypassLength(next, q, i);
  }

  lemma BypassLength(next: seq<int>, q: seq<nat>, i: nat)
    requires i < |q| && forall j :: 0 <= j < |q| ==> q[j] < |next|
    ensures |Bypass(next, q, i)| == |next|
  {
  }

  lemma BypassOther(next: seq<int>, queue: seq<seq<nat>>, head: int, l: nat, i: nat, m: nat)
    requires |queue| == 3 && Apart(queue) && l < 3 && m < 3 && l != m && i < |queue[l]|
    requires Chain(next, head, queue[m]) && forall j :: 0 <= j < |queue[l]| ==> queue[l][j] < |next|
    ensures Chain(Bypass(next, queue[l], i), head, queue[m])
  {
    var q := queue[l];
    assert q[i] !in queue[m];
    assert i > 0 ==> q[i - 1] !in queue[m];
    hide Chain, Apart;
    if i > 0 {
      OtherChain(next, head, queue[m], q[i - 1], next[q[i]]);
    }
    OtherChain(if i == 0 then next else next[q[i - 1] := next[q[i]]], head, queue[m], q[i], NULL);
  }

  // ----- The boost's splice -----

  function Splice(next: seq<int>, a: seq<nat>, b: seq<nat>): seq<int>
    requires forall j :: 0 <= j < |a| ==> a[j] < |next|
  {
    if a == [] || b == [] then next else next[a[|a| - 1] := b[0]]
  }

  /** List b, with head g, can be hung behind a. */
  ghost predicate Joinable(next: seq<int>, g: int, a: seq<nat>, b: seq<nat>) {
    && Chain(next, g, b) && (forall j :: 0 <= j < |a| ==> a[j] < |next|)
    && (forall i, j :: 0 <= i < |a| && 0 <= j < |b| ==> a[i] != b[j])
    && (forall i, j :: 0 <= i < j < |b| ==> b[i] != b[j])
  }

  lemma JoinableFrom(next: seq<int>, g: int, a: seq<nat>, b: seq<nat>)
    requires Joinable(next, g, a, b)
    ensures g == (if b == [] then NULL else b[0]) && (forall j :: 0 <= j < |b| ==> b[j] < |next|)
    ensures (forall j :: 0 <= j < |a| ==> a[j] < |next|) && (b == [] ==> Splice(next, a, b) == next)
  {
  }

  lemma SpliceChain(next: seq<int>, h: int, a: seq<nat>, g: int, b: seq<nat>)
    requires Chain(next, h, a) && Joinable(next, g, a, b)
    requires forall i, j :: 0 <= i < j < |a| ==> a[i] != a[j]
    ensures Chain(Splice(next, a, b), if a == [] then g else h, a + b)
  {
    var r, next' := a + b, Splice(next, a, b);
    if a == [] {
      assert r == b;
    } else if b == [] {
      assert r == a;
    } else {
      forall i {:trigger After(r, i)} | 0 <= i < |r| ensures next'[r[i]] == After(r, i) {
        if i < |a| {
          assert r[i] == a[i] && next[a[i]] == After(a, i);
        } else {
          assert r[i] == b[i - |a|] && next[b[i - |a|]] == After(b, i - |a|);
        }
      }
    }
  }

  /** One step of it: `next` before the i-th process of b is moved, and after. */
  lemma SpliceStep(next: seq<int>, g: int, a: seq<nat>, b: seq<nat>, i: nat)
    requires Joinable(next, g, a, b) && i < |b|
    ensures |Splice(next, a, b)| == |next| && b[i] < |next|
    ensures var last := if i > 0 then b[i - 1] else LastOf(a);
            var now := if i > 0 then Splice(next, a, b) else next;
            && NULL <= last < |next| && Splice(next, a, b)[b[i]] == (if i + 1 < |b| then b[i + 1] else NULL)
            && (if last == NULL then now else now[last := b[i]]) == Splice(next, a, b)
  {
    assert next[b[i]] == After(b, i);
    if i > 0 {
      assert next[b[i - 1]] == After(b, i - 1);
    }
  }

  lemma FreshenOne(ps: seq<Proc>, s: seq<nat>, x: nat)
    requires x < |ps|
    ensures |Freshened(ps, s)| == |ps| && Fresh(Freshened(ps, s)[x]) == Fresh(ps[x])
    ensures Freshened(ps, s)[x := Fresh(ps[x])] == Freshened(ps, s + [x])
  {
  }

  lemma NoneFreshened(ps: seq<Proc>)
    ensures Freshened(ps, []) == ps
  {
  }

  function LastOf(q: seq<nat>): int {
    if q == [] then NULL else q[|q| - 1]
  }

  lemma FrontIsFresh(t: Table)
    requires Inv(t)
    ensures forall i :: 0 <= i < |t.queue[0]| ==>
              t.queue[0][i] < |t.proc| && t.proc[t.queue[0][i]].(priority := 3, allotment := 0) == Fresh(t.proc[t.queue[0][i]])
  {
    forall i | 0 <= i < |t.queue[0]|
      ensures t.queue[0][i] < |t.proc|
      ensures t.proc[t.queue[0][i]].(priority := 3, allotment := 0) == Fresh(t.proc[t.queue[0][i]])
    {
      assert FieldsOk(t.proc[t.queue[0][i]], t.queue[0][i] in t.window);
    }
  }

  // ----- The boost's outer loop -----

  /** The front list when the levels below `level` have been joined. */
  function Joined(queue: seq<seq<nat>>, level: nat): seq<nat>
    requires |queue| == 3 && 1 <= level <= 3
  {
    if level == 1 then queue[0] else Joined(queue, level - 1) + queue[level - 1]
  }

  lemma JoinMore(queue: seq<seq<nat>>, level: nat)
    requires |queue| == 3 && 1 <= level <= 2
    ensures Joined(queue, level + 1) == Joined(queue, level) + queue[level] && Joined(queue, 1) == queue[0]
  {
  }

  ghost predicate Joining(next: seq<int>, head: seq<int>, queue: seq<seq<nat>>, level: nat)
    requires |queue| == |head| == 3 && 1 <= level <= 3
  {
    && Apart(queue)
    && Chain(next, head[0], Joined(queue, level))
    && (forall m :: level <= m < 3 ==> Chain(next, head[m], queue[m]))
    && (forall m :: 1 <= m < level ==> head[m] == NULL)
  }

  lemma JoinStart(next: seq<int>, flag: seq<bool>, head: seq<int>, queue: seq<seq<nat>>)
    requires Linked(next, flag, head, queue)
    ensures Joining(next, head, queue, 1)
    ensures forall p :: 0 <= p < |flag| ==> (flag[p] <==> OnList(queue, p))
  {
  }

  /** Where the entries of the joined list come from. */
  lemma {:induction false} JoinedFrom(queue: seq<seq<nat>>, level: nat, p: nat)
    requires |queue| == 3 && 1 <= level <= 3
    ensures p in Joined(queue, level) <==> exists m :: 0 <= m < level && p in queue[m]
  {
    if level > 1 {
      JoinedFrom(queue, level - 1, p);
    }
  }

  lemma {:induction false} JoinedDistinct(queue: seq<seq<nat>>, level: nat)
    requires |queue| == 3 && Apart(queue) && 1 <= level <= 3
    ensures forall i, j :: 0 <= i < j < |Joined(queue, level)| ==> Joined(queue, level)[i] != Joined(queue, level)[j]
    ensures level < 3 ==> forall i, j :: 0 <= i < |Joined(queue, level)| && 0 <= j < |queue[level]| ==>
              Joined(queue, level)[i] != queue[level][j]
  {
    var a := Joined(queue, level);
    if level > 1 {
      JoinedDistinct(queue, level - 1);
      hide Apart;
    }
    if level < 3 {
      forall i, j | 0 <= i < |a| && 0 <= j < |queue[level]| ensures a[i] != queue[level][j] {
        NotJoinedYet(queue, level, level, j);
      }
    }
  }

  lemma NotJoinedYet(queue: seq<seq<nat>>, level: nat, m: nat, j: nat)
    requires |queue| == 3 && Apart(queue) && 1 <= level <= m < 3 && j < |queue[m]|
    ensures queue[m][j] !in Joined(queue, level)
  {
    JoinedFrom(queue, level, queue[m][j]);
  }

  lemma CanJoin(next: seq<int>, head: seq<int>, queue: seq<seq<nat>>, level: nat)
    requires |queue| == |head| == 3 && 1 <= level <= 2 && Joining(next, head, queue, level)
    ensures Joinable(next, head[level], Joined(queue, level), queue[level])
    ensures Chain(next, head[0], Joined(queue, level)) && Apart(queue)
    ensures Joined(queue, level) == [] && queue[level] == [] ==> head[level] == head[0]
    ensures forall m :: level <= m < 3 ==> Chain(next, head[m], queue[m])
    ensures forall m :: 1 <= m < level ==> head[m] == NULL
    ensures forall i, j :: 0 <= i < j < |Joined(queue, level)| ==> Joined(queue, level)[i] != Joined(queue, level)[j]
  {
    JoinedDistinct(queue, level);
  }

  function HeadAfter(head: seq<int>, a: seq<nat>, b: seq<nat>, level: nat): seq<int>
    requires 0 < level < |head|
  {
    head[0 := if a == [] && b != [] then b[0] else head[0]][level := NULL]
  }

  lemma JoinStep(next: seq<int>, head: seq<int>, queue: seq<seq<nat>>, level: nat)
    requires |queue| == |head| == 3 && 1 <= level <= 2 && Joining(next, head, queue, level)
    ensures var a, b := Joined(queue, level), queue[level];
            Joinable(next, head[level], a, b) && Joining(Splice(next, a, b), HeadAfter(head, a, b, level), queue, level + 1)
  {
    hide Joined, Apart, Splice, Chain, Joinable, Joining;
    var a, b := Joined(queue, level), queue[level];
    CanJoin(next, head, queue, level);
    var next', head' := Splice(next, a, b), HeadAfter(head, a, b, level);
    assert Chain(next', head'[0], Joined(queue, level + 1)) by {
      JoinMore(queue, level);
      SpliceChain(next, head[0], a, head[level], b);
    }
    forall m | level < m < 3 ensures Chain(next', head'[m], queue[m]) {
      JoinRest(next, head, queue, level, m);
    }
    NowJoining(next', head', queue, level + 1);
  }

  lemma NowJoining(next: seq<int>, head: seq<int>, queue: seq<seq<nat>>, level: nat)
    requires |queue| == |head| == 3 && 1 <= level <= 3 && Apart(queue) && Chain(next, head[0], Joined(queue, level))
    requires forall m :: level <= m < 3 ==> Chain(next, head[m], queue[m])
    requires forall m :: 1 <= m < level ==> head[m] == NULL
    ensures Joining(next, head, queue, level)
  {
  }

  lemma JoinRest(next: seq<int>, head: seq<int>, queue: seq<seq<nat>>, level: nat, m: nat)
    requires |queue| == |head| == 3 && 1 <= level < m < 3 && Apart(queue) && Chain(next, head[m], queue[m])
    requires Joinable(next, head[level], Joined(queue, level), queue[level])
    ensures Chain(Splice(next, Joined(queue, level), queue[level]), head[m], queue[m])
  {
    var a, b := Joined(queue, level), queue[level];
    hide Joined, Chain, Apart;
    if a != [] && b != [] {
      forall j | 0 <= j < |queue[m]| ensures queue[m][j] != a[|a| - 1] {
        NotJoinedYet(queue, level, m, j);
      }
      OtherChain(next, head[m], queue[m], a[|a| - 1], b[0]);
    }
  }

  lemma JoinEnd(next: seq<int>, flag: seq<bool>, head: seq<int>, queue: seq<seq<nat>>)
    requires |queue| == |head| == 3 && |next| == |flag| && Joining(next, head, queue, 3)
    requires forall p :: 0 <= p < |flag| ==> (flag[p] <==> OnList(queue, p))
    ensures Joined(queue, 3) == queue[0] + queue[1] + queue[2]
    ensures Linked(next, flag, head, [Joined(queue, 3), [], []])
  {
    var all := Joined(queue, 3);
    JoinedDistinct(queue, 3);
    assert all == Joined(queue, 2) + queue[2] && Joined(queue, 2) == Joined(queue, 1) + queue[1];
    JoinedAlone(all, queue);
    assert Chain(next, head[0], all);
    hide Joined, Chain, Apart, OnList, Linked;
    OneListLinked(next, flag, head, all);
  }

  lemma OneListLinked(next: seq<int>, flag: seq<bool>, head: seq<int>, all: seq<nat>)
    requires |head| == 3 && |next| == |flag| && Chain(next, head[0], all) && head[1] == head[2] == NULL
    requires Apart([all, [], []]) && forall p :: 0 <= p < |flag| ==> (flag[p] <==> OnList([all, [], []], p))
    ensures Linked(next, flag, head, [all, [], []])
  {
    assert Chain(next, NULL, []);
    hide Chain, Apart, OnList;
  }

  lemma JoinedAlone(all: seq<nat>, queue: seq<seq<nat>>)
    requires |queue| == 3 && all == queue[0] + queue[1] + queue[2]
    requires forall i, j :: 0 <= i < j < |all| ==> all[i] != all[j]
    ensures Apart([all, [], []])
    ensures forall p {:trigger OnList(queue, p)} :: OnList([all, [], []], p) <==> OnList(queue, p)
  {
  }

  lemma FreshenedTwice(ps: seq<Proc>, a: seq<nat>, b: seq<nat>)
    ensures Freshened(Freshened(ps, a), b) == Freshened(ps, a + b)
  {
  }

  lemma BoostIs(t: Table)
    requires |t.queue| == 3
    ensures var all := t.queue[0] + t.queue[1] + t.queue[2];
            Boost(t) == t.(proc := Freshened(t.proc, all), queue := [all, [], []], tick := 0)
  {
  }
}
