/** filewrite on the log: every chunk is one operation, and while other operations do the same
    no log_write of it is ever turned away. */
module FileRuns {
  import opened BlockDevice
  import opened LogProtocol
  import opened LogSafety
  import opened LogReservation
  import opened FileWrite
  import FsTree
  import FsContent
  import FsDirty

  /** The blocks that an operation passes to log_write, in any order and any number of times,
      but for the inode block: writei calls iupdate once, when everything else is done. */
  datatype Plan = Plan(log: set<nat>, iblock: nat)

  ghost predicate AllFit(plans: map<int, Plan>) {
    forall op :: op in plans ==> FitsReservation(plans[op].log, plans[op].iblock)
  }

  /** Operation i of state s is about to log block b. */
  ghost predicate Planned(plans: map<int, Plan>, s: State, i: nat, b: int) {
    && i < |s.active| && s.active[i].id in plans
    && var plan := plans[s.active[i].id];
       b in plan.log && s.active[i].blocks <= plan.log - {plan.iblock}
  }

  ghost predicate Follows(g: Geometry, plans: map<int, Plan>, s: State, run: seq<Step>)
    requires Legal(g, s, run)
    decreases |run|
  {
    run == [] || ((run[0].LogWrite? ==> Planned(plans, s, run[0].i, run[0].block))
                  && Follows(g, plans, Do(g, s, run[0]), run[1..]))
  }

  lemma {:induction false} SmallerSet(a: set<int>, b: set<int>)
    requires a <= b
    ensures |a| <= |b|
  {
    assert b == a + (b - a);
  }

  lemma PlannedIsWithinBudget(g: Geometry, plans: map<int, Plan>, s: State, i: nat, b: int)
    requires g.maxop == MAXOPBLOCKS && AllFit(plans) && Planned(plans, s, i, b)
    ensures WithinBudget(g, s, i, b) && |s.active[i].blocks| < g.maxop
  {
    var plan := plans[s.active[i].id];
    SmallerSet(s.active[i].blocks + {b}, plan.log);
    SmallerSet(s.active[i].blocks, plan.log - {plan.iblock});
  }

  /** A run of such operations keeps to the budget that begin_op reserves. */
  lemma {:induction false} FollowsIsDisciplined(g: Geometry, plans: map<int, Plan>, s: State, run: seq<Step>)
    requires g.maxop == MAXOPBLOCKS && AllFit(plans) && Legal(g, s, run) && Follows(g, plans, s, run)
    ensures Disciplined(g, s, run)
    decreases |run|
  {
    hide Do, Enabled, Planned;
    if run != [] {
      if run[0].LogWrite? {
        PlannedIsWithinBudget(g, plans, s, run[0].i, run[0].block);
      }
      FollowsIsDisciplined(g, plans, Do(g, s, run[0]), run[1..]);
    }
  }

  /** Main theorem.  With a log area longer than LOGSIZE no log_write of such an operation meets
      the panic, one that only rewrites a block included: any number of them, interleaved with
      each other, with commits, crashes and recoveries. */
  lemma PlannedWriteFits(g: Geometry, plans: map<int, Plan>, s: State, run: seq<Step>, i: nat, b: int, data: Block)
    requires g.maxop == MAXOPBLOCKS && g.logsize < g.size && AllFit(plans)
    requires Boot(g, s) && Legal(g, s, run) && Follows(g, plans, s, run)
    requires var t := Exec(g, s, run);
             t.phase.Normal? && Planned(plans, t, i, b) && g.IsHome(b) && |data| == g.words
    ensures Enabled(g, Exec(g, s, run), LogWrite(i, b, data)) && KeepsWord(g, Exec(g, s, run), LogWrite(i, b, data))
  {
    var t, init := Exec(g, s, run), Recovered(g, s.disk);
    FollowsIsDisciplined(g, plans, s, run);
    BootGivesInv(g, s);
    RunKeepsInv(g, init, s, run);
    RunKeepsReserved(g, init, s, run);
    hide Legal, Exec, Disciplined, Follows, Boot;
    InvShows(g, init, t);
    hide Inv, Reserved;
    NextFits(g, plans, t, i, b, data);
  }

  lemma NextFits(g: Geometry, plans: map<int, Plan>, t: State, i: nat, b: int, data: Block)
    requires g.maxop == MAXOPBLOCKS && g.logsize < g.size && AllFit(plans) && Shaped(g, t) && Reserved(g, t)
    requires t.phase.Normal? && Planned(plans, t, i, b) && g.IsHome(b) && |data| == g.words
    ensures Enabled(g, t, LogWrite(i, b, data)) && KeepsWord(g, t, LogWrite(i, b, data))
  {
    PlannedIsWithinBudget(g, plans, t, i, b);
    UnspentLeft(g, t.active, i);
  }

  /** A chunk of filewrite is such an operation. */
  lemma ChunkFits(l: FsTree.Layout, t: FsTree.Trees, t': FsTree.Trees, ino: nat, iblock: nat, size: nat, off: nat, n: nat,
                  log: set<nat>)
    requires FsTree.Shaped(l, t) && FsContent.Kept(l, t, t', ino) && ino < |t.addrs| && l.tiers == 1
    requires off <= size && FsContent.NoHoles(l, t, ino, size) && n <= MAXCHUNK
    requires FsDirty.WriteLogged(l, t, t', ino, off, n, log)
    ensures FitsReservation(log + FsDirty.InodeBlock(iblock, size, off, n), iblock)
  {
    hide FsContent.Kept, FsContent.NoHoles, FsDirty.WriteLogged;
    FsDirty.WriteiLogBound(l, t, t', ino, iblock, size, off, n, log, 3);
  }
}
