/** pipe.c as a machine over the regions in which p->lock is held: who sleeps, who is woken,
    and what goes through the pipe. */
module PipeSpec {

  type byte = x: int | 0 <= x < 256

  const PIPESIZE: nat := 512

  /** Everything ever written and everything ever read, in order. */
  datatype View = View(accepted: seq<byte>, delivered: seq<byte>, readopen: bool, writeopen: bool)

  ghost predicate Sound(v: View) {
    v.delivered <= v.accepted && |v.accepted| - |v.delivered| <= PIPESIZE
  }

  function Buffered(v: View): seq<byte>
    requires v.delivered <= v.accepted
  {
    v.accepted[|v.delivered|..]
  }

  /** How a region ends: in sleep, `done` bytes into the transfer, or with the call's result.
      Both may or may not have woken the other side. */
  datatype Outcome = Asleep(done: nat) | Returned(r: int)

  function Min(a: int, b: int): int {
    if a <= b then a else b
  }

  /** What pipewrite transfers from byte i on before the pipe is full. */
  function Fits(v: View, addr: seq<byte>, i: nat): (k: nat)
    requires v.delivered <= v.accepted && |v.accepted| - |v.delivered| <= PIPESIZE && i <= |addr|
    ensures i + k <= |addr|
  {
    Min(|addr| - i, PIPESIZE - |Buffered(v)|)
  }

  function AfterWrite(v: View, addr: seq<byte>, i: nat): View
    requires v.delivered <= v.accepted && |v.accepted| - |v.delivered| <= PIPESIZE && i <= |addr|
  {
    v.(accepted := v.accepted + addr[i..i + Fits(v, addr, i)])
  }

  function WriteOutcome(v: View, addr: seq<byte>, i: nat, killed: bool): Outcome
    requires v.delivered <= v.accepted && |v.accepted| - |v.delivered| <= PIPESIZE && i <= |addr|
  {
    if i + Fits(v, addr, i) == |addr| then Returned(|addr|)
    else if !v.readopen || killed then Returned(-1)
    else Asleep(i + Fits(v, addr, i))
  }

  /** piperead goes to sleep, or gives up, before it takes anything. */
  predicate MustWait(v: View)
    requires v.delivered <= v.accepted
  {
    Buffered(v) == [] && v.writeopen
  }

  function Taken(v: View, n: nat): (bytes: seq<byte>)
    requires v.delivered <= v.accepted
    ensures |bytes| <= n && bytes <= Buffered(v)
  {
    if MustWait(v) then [] else Buffered(v)[..Min(n, |Buffered(v)|)]
  }

  function AfterRead(v: View, n: nat): View
    requires v.delivered <= v.accepted
  {
    v.(delivered := v.delivered + Taken(v, n))
  }

  function AfterClose(v: View, writable: bool): View {
    if writable then v.(writeopen := false) else v.(readopen := false)
  }

  function ReadOutcome(v: View, n: nat, killed: bool): Outcome
    requires v.delivered <= v.accepted
  {
    if MustWait(v) then (if killed then Returned(-1) else Asleep(0)) else Returned(|Taken(v, n)|)
  }

  /** First in, first out: what was delivered, followed by what is in the buffer, is what was
      accepted; a write adds at the end of it, a read moves the front. */
  lemma WriteAddsAtEnd(v: View, addr: seq<byte>, i: nat)
    requires Sound(v) && i <= |addr|
    ensures var v' := AfterWrite(v, addr, i);
            && Sound(v') && v'.delivered + Buffered(v') == v'.accepted
            && Buffered(v') == Buffered(v) + addr[i..i + Fits(v, addr, i)]
            && (i + Fits(v, addr, i) < |addr| ==> |Buffered(v')| == PIPESIZE)
  {
    var v' := AfterWrite(v, addr, i);
    assert v'.accepted[..|v.delivered|] == v.accepted[..|v.delivered|];
  }

  lemma ReadTakesFront(v: View, n: nat)
    requires Sound(v)
    ensures var v' := AfterRead(v, n);
            && Sound(v') && v'.delivered + Buffered(v') == v'.accepted && Taken(v, n) + Buffered(v') == Buffered(v)
            && (MustWait(v) || Taken(v, n) == Buffered(v) || |Taken(v, n)| == n)
  {
    var v' := AfterRead(v, n);
    assert Buffered(v) == Taken(v, n) + Buffered(v)[|Taken(v, n)|..];
    assert v.accepted == v.delivered + Buffered(v);
    assert v'.accepted[|v'.delivered|..] == Buffered(v)[|Taken(v, n)|..];
  }

  // ----- Processes -----

  datatype Status = Idle | Writer(addr: seq<byte>, i: nat, asleep: bool) | Reader(n: nat, asleep: bool)

  datatype World = World(v: View, procs: map<nat, Status>)

  datatype Step =
    | BeginWrite(p: nat, addr: seq<byte>)
    | BeginRead(p: nat, n: nat)
    | RunWriter(p: nat, killed: bool)
    | RunReader(p: nat, killed: bool)
    | KillSleeper(p: nat)
    | CloseWrite
    | CloseRead

  /** Everyone asleep on the channel of the readers, or on that of the writers, wakes up. */
  function Wake(procs: map<nat, Status>, readers: bool): map<nat, Status> {
    map p | p in procs ::
      match procs[p]
      case Writer(addr, i, asleep) => Writer(addr, i, asleep && readers)
      case Reader(n, asleep) => Reader(n, asleep && !readers)
      case Idle => Idle
  }

  ghost predicate Legal(w: World) {
    && Sound(w.v)
    && (forall p :: p in w.procs && w.procs[p].Writer? ==> w.procs[p].i <= |w.procs[p].addr| && w.v.writeopen)
    && (forall p :: p in w.procs && w.procs[p].Reader? ==> w.v.readopen)
  }

  /** A process inside a call holds its end open: the file it uses has a reference, and the
      last reference closes the end, once. kill wakes a sleeper without a wakeup; the flag it
      leaves behind is the `killed` of a later region. */
  ghost predicate Enabled(w: World, s: Step) {
    match s
    case BeginWrite(p, _) => p in w.procs && w.procs[p].Idle? && w.v.writeopen
    case BeginRead(p, _) => p in w.procs && w.procs[p].Idle? && w.v.readopen
    case RunWriter(p, _) => p in w.procs && w.procs[p].Writer? && !w.procs[p].asleep
    case RunReader(p, _) => p in w.procs && w.procs[p].Reader? && !w.procs[p].asleep
    case KillSleeper(p) => p in w.procs && !w.procs[p].Idle? && w.procs[p].asleep
    case CloseWrite => w.v.writeopen && forall p :: p in w.procs ==> !w.procs[p].Writer?
    case CloseRead => w.v.readopen && forall p :: p in w.procs ==> !w.procs[p].Reader?
  }

  ghost function Do(w: World, s: Step): World
    requires Legal(w) && Enabled(w, s)
  {
    match s
    case BeginWrite(p, addr) => w.(procs := w.procs[p := Writer(addr, 0, false)])
    case BeginRead(p, n) => w.(procs := w.procs[p := Reader(n, false)])
    case RunWriter(p, killed) =>
      var x := w.procs[p];
      var v' := AfterWrite(w.v, x.addr, x.i);
      (match WriteOutcome(w.v, x.addr, x.i, killed)
       case Asleep(i) => World(v', Wake(w.procs, true)[p := Writer(x.addr, i, true)])
       case Returned(r) => World(v', (if r < 0 then w.procs else Wake(w.procs, true))[p := Idle]))
    case RunReader(p, killed) =>
      var x := w.procs[p];
      var v' := AfterRead(w.v, x.n);
      (match ReadOutcome(w.v, x.n, killed)
       case Asleep(_) => World(v', w.procs[p := Reader(x.n, true)])
       case Returned(r) => World(v', (if r < 0 then w.procs else Wake(w.procs, false))[p := Idle]))
    case KillSleeper(p) => w.(procs := w.procs[p := w.procs[p].(asleep := false)])
    case CloseWrite => World(AfterClose(w.v, true), Wake(w.procs, true))
    case CloseRead => World(AfterClose(w.v, false), Wake(w.procs, false))
  }

  /** Nobody sleeps without a reason: a sleeping reader means an empty pipe that can still be
      written, a sleeping writer a full pipe that can still be read. */
  ghost predicate Inv(w: World) {
    && Legal(w)
    && (forall p :: p in w.procs && w.procs[p].Reader? && w.procs[p].asleep ==> Buffered(w.v) == [] && w.v.writeopen)
    && (forall p :: p in w.procs && w.procs[p].Writer? && w.procs[p].asleep ==> |Buffered(w.v)| == PIPESIZE && w.v.readopen)
  }

  predicate Kills(s: Step) {
    (s.RunWriter? || s.RunReader?) && s.killed
  }

  ghost predicate ReaderAsleep(w: World) {
    exists p :: p in w.procs && w.procs[p].Reader? && w.procs[p].asleep
  }

  lemma WriterStep(w: World, p: nat, killed: bool)
    requires Inv(w) && Enabled(w, RunWriter(p, killed))
    ensures !(killed && ReaderAsleep(w) && |w.procs[p].addr| - w.procs[p].i > PIPESIZE) ==> Inv(Do(w, RunWriter(p, killed)))
  {
    var x, w' := w.procs[p], Do(w, RunWriter(p, killed));
    WriteAddsAtEnd(w.v, x.addr, x.i);
    hide AfterWrite, Buffered;
    if WriteOutcome(w.v, x.addr, x.i, killed) == Returned(-1) && ReaderAsleep(w) {
      assert Buffered(w.v) == [];
    }
  }

  /** With nobody killed, every region keeps the invariant. */
  lemma StepKeepsInv(w: World, s: Step)
    requires Inv(w) && Enabled(w, s) && !Kills(s)
    ensures Inv(Do(w, s))
  {
    match s {
      case RunWriter(p, killed) => WriterStep(w, p, killed);
      case RunReader(p, killed) => ReadTakesFront(w.v, w.procs[p].n);
      case _ =>
    }
  }

  /** A killed reader does no harm either; a killed writer loses a wakeup exactly when a
      reader sleeps and more is to be written than the pipe holds: it fills the pipe and
      leaves without waking the reader. */
  lemma KilledKeepsInvIff(w: World, p: nat)
    requires Inv(w)
    ensures Enabled(w, RunReader(p, true)) ==> Inv(Do(w, RunReader(p, true)))
    ensures Enabled(w, RunWriter(p, true)) ==>
              (Inv(Do(w, RunWriter(p, true))) <==> !(ReaderAsleep(w) && |w.procs[p].addr| - w.procs[p].i > PIPESIZE))
  {
    if Enabled(w, RunReader(p, true)) {
      ReadTakesFront(w.v, w.procs[p].n);
    } else if Enabled(w, RunWriter(p, true)) {
      var x, w' := w.procs[p], Do(w, RunWriter(p, true));
      WriterStep(w, p, true);
      WriteAddsAtEnd(w.v, x.addr, x.i);
      if ReaderAsleep(w) && |x.addr| - x.i > PIPESIZE {
        var q :| q in w.procs && w.procs[q].Reader? && w.procs[q].asleep;
        assert Buffered(w.v) == [];
        assert q in w'.procs && w'.procs[q] == w.procs[q];
        assert |Buffered(w'.v)| == PIPESIZE;
      }
    }
  }

  // ----- Runs -----

  /** Regions follow each other in any order; any process may have been killed. */
  ghost predicate LegalRun(w: World, ss: seq<Step>)
    requires Legal(w)
    decreases |ss|
  {
    ss == [] || (Enabled(w, ss[0]) && (StepMoves(w, ss[0]); LegalRun(Do(w, ss[0]), ss[1..])))
  }

  ghost function Exec(w: World, ss: seq<Step>): (r: World)
    requires Legal(w) && LegalRun(w, ss)
    ensures Legal(r)
    decreases |ss|
  {
    if ss == [] then w else StepMoves(w, ss[0]); Exec(Do(w, ss[0]), ss[1..])
  }

  /** What one region takes from the pipe, and what it puts in. */
  ghost function Takes(w: World, s: Step): seq<byte>
    requires Legal(w) && Enabled(w, s)
  {
    if s.RunReader? then Taken(w.v, w.procs[s.p].n) else []
  }

  ghost function Puts(w: World, s: Step): seq<byte>
    requires Legal(w) && Enabled(w, s)
  {
    if s.RunWriter? then
      var x := w.procs[s.p];
      x.addr[x.i..x.i + Fits(w.v, x.addr, x.i)]
    else []
  }

  /** What the readers of a run are given, in order. */
  ghost function Given(w: World, ss: seq<Step>): seq<byte>
    requires Legal(w) && LegalRun(w, ss)
    decreases |ss|
  {
    if ss == [] then [] else StepMoves(w, ss[0]); Takes(w, ss[0]) + Given(Do(w, ss[0]), ss[1..])
  }

  /** What its writers have put in, in order. */
  ghost function Put(w: World, ss: seq<Step>): seq<byte>
    requires Legal(w) && LegalRun(w, ss)
    decreases |ss|
  {
    if ss == [] then [] else StepMoves(w, ss[0]); Puts(w, ss[0]) + Put(Do(w, ss[0]), ss[1..])
  }

  lemma WriterMoves(w: World, p: nat, killed: bool)
    requires Legal(w) && Enabled(w, RunWriter(p, killed))
    ensures var w' := Do(w, RunWriter(p, killed));
            Legal(w') && Buffered(w'.v) == Buffered(w.v) + Puts(w, RunWriter(p, killed))
  {
    var x := w.procs[p];
    WriteAddsAtEnd(w.v, x.addr, x.i);
    var w' := Do(w, RunWriter(p, killed));
    hide Buffered, Fits;
    assert w'.v == AfterWrite(w.v, x.addr, x.i);
  }

  lemma ReaderMoves(w: World, p: nat, killed: bool)
    requires Legal(w) && Enabled(w, RunReader(p, killed))
    ensures var w' := Do(w, RunReader(p, killed));
            Legal(w') && Takes(w, RunReader(p, killed)) + Buffered(w'.v) == Buffered(w.v)
  {
    ReadTakesFront(w.v, w.procs[p].n);
    var w' := Do(w, RunReader(p, killed));
    hide Buffered, Taken, MustWait;
    assert w'.v == AfterRead(w.v, w.procs[p].n);
  }

  lemma StepMoves(w: World, s: Step)
    requires Legal(w) && Enabled(w, s)
    ensures Legal(Do(w, s)) && Takes(w, s) + Buffered(Do(w, s).v) == Buffered(w.v) + Puts(w, s)
  {
    hide AfterWrite, AfterRead, Taken, Fits;
    match s {
      case RunWriter(p, killed) => WriterMoves(w, p, killed);
      case RunReader(p, killed) => ReaderMoves(w, p, killed);
      case _ =>
    }
  }

  /** Over any run, however readers and writers take turns and whoever is killed: what the
      readers got, followed by what is still in the pipe, is what was in it followed by what
      the writers put in, and never more than PIPESIZE bytes of it wait. */
  lemma {:induction false} NothingLostOrReordered(w: World, ss: seq<Step>)
    requires Legal(w) && LegalRun(w, ss)
    ensures Given(w, ss) + Buffered(Exec(w, ss).v) == Buffered(w.v) + Put(w, ss)
    ensures |Buffered(Exec(w, ss).v)| <= PIPESIZE
    decreases |ss|
  {
    hide Do, Takes, Puts, Enabled, Wake;
    if ss != [] {
      StepMoves(w, ss[0]);
      var w1, rest := Do(w, ss[0]), ss[1..];
      NothingLostOrReordered(w1, rest);
      hide Buffered;
      calc {
        Given(w, ss) + Buffered(Exec(w, ss).v);
        (Takes(w, ss[0]) + Given(w1, rest)) + Buffered(Exec(w1, rest).v);
        Takes(w, ss[0]) + (Given(w1, rest) + Buffered(Exec(w1, rest).v));
        Takes(w, ss[0]) + (Buffered(w1.v) + Put(w1, rest));
        (Takes(w, ss[0]) + Buffered(w1.v)) + Put(w1, rest);
        (Buffered(w.v) + Puts(w, ss[0])) + Put(w1, rest);
        Buffered(w.v) + Put(w, ss);
      }
    }
  }

  /** A killed writer that has more left than the pipe holds, beside a sleeping reader. */
  ghost predicate Harmful(w: World, s: Step)
    requires Enabled(w, s)
  {
    s.RunWriter? && s.killed && ReaderAsleep(w) && |w.procs[s.p].addr| - w.procs[s.p].i > PIPESIZE
  }

  ghost predicate Harmless(w: World, ss: seq<Step>)
    requires Legal(w) && LegalRun(w, ss)
    decreases |ss|
  {
    ss == [] || (!Harmful(w, ss[0]) && (StepMoves(w, ss[0]); Harmless(Do(w, ss[0]), ss[1..])))
  }

  ghost predicate AlwaysInv(w: World, ss: seq<Step>)
    requires Legal(w) && LegalRun(w, ss)
    decreases |ss|
  {
    Inv(w) && (ss == [] || (StepMoves(w, ss[0]); AlwaysInv(Do(w, ss[0]), ss[1..])))
  }

  /** Nobody ever sleeps without a reason in a run, if and only if no such writer is in it. */
  lemma {:induction false} RunKeepsInvIff(w: World, ss: seq<Step>)
    requires Inv(w) && LegalRun(w, ss)
    ensures AlwaysInv(w, ss) <==> Harmless(w, ss)
    decreases |ss|
  {
    hide Do, Enabled, Buffered, ReaderAsleep;
    if ss != [] {
      if Kills(ss[0]) {
        KilledKeepsInvIff(w, ss[0].p);
      } else {
        StepKeepsInv(w, ss[0]);
      }
      StepMoves(w, ss[0]);
      if !Harmful(w, ss[0]) {
        RunKeepsInvIff(Do(w, ss[0]), ss[1..]);
      }
    }
  }

  lemma FillsAndLeaves(w: World, addr: seq<byte>, n: nat)
    requires w == World(View([], [], true, true), map[0 := Reader(n, true), 1 := Writer(addr, 0, false)])
    requires |addr| > PIPESIZE
    ensures Legal(w) && Enabled(w, RunWriter(1, true))
    ensures var w' := Do(w, RunWriter(1, true));
            Legal(w') && |Buffered(w'.v)| == PIPESIZE && w'.procs == map[0 := Reader(n, true), 1 := Idle] && !Inv(w')
  {
    var w' := Do(w, RunWriter(1, true));
    WriteAddsAtEnd(w.v, addr, 0);
    assert w'.procs == map[0 := Reader(n, true), 1 := Idle];
    assert 0 in w'.procs && w'.procs[0].Reader? && w'.procs[0].asleep && Buffered(w'.v) != [];
  }

  /** A killed writer among them can do it: on an idle, empty pipe a reader goes to sleep, a
      writer starts on more than the pipe holds and is killed, and the reader sleeps on
      beside a full pipe. */
  lemma KilledWriterLosesWakeup(addr: seq<byte>, n: nat)
    requires |addr| > PIPESIZE
    ensures var w := World(View([], [], true, true), map[0 := Idle, 1 := Idle]);
            var ss := [BeginRead(0, n), RunReader(0, false), BeginWrite(1, addr), RunWriter(1, true)];
            && Inv(w) && LegalRun(w, ss)
            && var w' := Exec(w, ss);
               |Buffered(w'.v)| == PIPESIZE && w'.procs == map[0 := Reader(n, true), 1 := Idle] && !Inv(w')
  {
    var w := World(View([], [], true, true), map[0 := Idle, 1 := Idle]);
    var w1, w2, w3 := SleepThenWrite(w, addr, n);
    hide Do, Legal, Enabled, Inv, Buffered, LegalRun, Exec;
    FillsAndLeaves(w3, addr, n);
    NoMore(Do(w3, RunWriter(1, true)));
    OneMore(w3, RunWriter(1, true), []);
    assert [RunWriter(1, true)] + [] == [RunWriter(1, true)];
    OneMore(w2, BeginWrite(1, addr), [RunWriter(1, true)]);
    OneMore(w1, RunReader(0, false), [BeginWrite(1, addr), RunWriter(1, true)]);
    OneMore(w, BeginRead(0, n), [RunReader(0, false), BeginWrite(1, addr), RunWriter(1, true)]);
  }

  /** Its first three steps. */
  lemma SleepThenWrite(w: World, addr: seq<byte>, n: nat) returns (w1: World, w2: World, w3: World)
    requires w == World(View([], [], true, true), map[0 := Idle, 1 := Idle])
    ensures w3 == World(w.v, map[0 := Reader(n, true), 1 := Writer(addr, 0, false)])
    ensures Inv(w) && Legal(w1) && Legal(w2) && Legal(w3)
    ensures Enabled(w, BeginRead(0, n)) && Enabled(w1, RunReader(0, false)) && Enabled(w2, BeginWrite(1, addr))
    ensures Do(w, BeginRead(0, n)) == w1 && Do(w1, RunReader(0, false)) == w2 && Do(w2, BeginWrite(1, addr)) == w3
  {
    w1 := World(w.v, map[0 := Reader(n, false), 1 := Idle]);
    w2 := World(w.v, map[0 := Reader(n, true), 1 := Idle]);
    w3 := World(w.v, map[0 := Reader(n, true), 1 := Writer(addr, 0, false)]);
    hide Wake, Taken, AfterWrite, WriteOutcome;
  }

  lemma NoMore(w: World)
    requires Legal(w)
    ensures LegalRun(w, []) && Exec(w, []) == w
  {
  }

  lemma OneMore(w: World, s: Step, ss: seq<Step>)
    requires Legal(w) && Enabled(w, s) && Legal(Do(w, s)) && LegalRun(Do(w, s), ss)
    ensures LegalRun(w, [s] + ss) && Exec(w, [s] + ss) == Exec(Do(w, s), ss)
  {
    assert ([s] + ss)[1..] == ss;
  }

  /** A reader and a writer are never asleep on the same pipe. */
  lemma NoDeadlock(w: World, p: nat, q: nat)
    requires Inv(w) && p in w.procs && q in w.procs
    ensures !(w.procs[p].Reader? && w.procs[p].asleep && w.procs[q].Writer? && w.procs[q].asleep)
  {
    assert w.procs[p].Reader? && w.procs[p].asleep ==> |Buffered(w.v)| == 0;
  }

  /** Once both ends are closed nobody is inside a call and no region follows, given that an
      end is only closed with nobody inside: the reference counts of open files see to that. */
  lemma FreedUnused(w: World, s: Step)
    requires Legal(w) && !w.v.readopen && !w.v.writeopen
    ensures (forall p :: p in w.procs ==> w.procs[p].Idle?) && !Enabled(w, s)
  {
    assert forall p :: p in w.procs ==> !w.procs[p].Reader? && !w.procs[p].Writer?;
  }
}
