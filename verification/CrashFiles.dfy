/** What a crash leaves of the file system: whatever holds of the home blocks at every commit
    holds of them after recovery; so the block trees are a well-formed forest again. */
module CrashFiles {
  import Dev = BlockDevice
  import opened LogProtocol
  import opened LogSafety
  import opened DiskBytes
  import opened FsOnDisk
  import FsTree

  // ----- Any invariant of the home blocks -----

  /** P looks at home blocks only. */
  ghost predicate OnHomes(g: Geometry, P: seq<Dev.Block> -> bool) {
    forall d, d' :: |d| == |d'| == g.nblocks && SameHomes(g, d, d') ==> P(d) == P(d')
  }

  /** At every commit of the run, when no operation is running, P holds of the blocks as the
      cache shows them. */
  ghost predicate HoldsAtCommits(g: Geometry, s: State, run: seq<Step>, P: seq<Dev.Block> -> bool)
    requires Legal(g, s, run)
    decreases |run|
  {
    run == [] || ((run[0].WriteHead? ==> P(s.mem)) && HoldsAtCommits(g, Do(g, s, run[0]), run[1..], P))
  }

  lemma CommitGives(g: Geometry, init: seq<Dev.Block>, s: State, P: seq<Dev.Block> -> bool)
    requires Inv(g, init, s) && Enabled(g, s, WriteHead) && OnHomes(g, P) && P(s.mem)
    ensures P(ApplyAll(init, Do(g, s, WriteHead).history))
  {
    hide DiskInv, OpsInv, SleepInv, Distinct, GetHead, PutHead;
    ApplyAllSnoc(init, s.history, s.pending);
    assert SameHomes(g, s.mem, Apply(ApplyAll(init, s.history), s.pending));
    assert |s.mem| == g.nblocks && |ApplyAll(init, s.history)| == g.nblocks;
  }

  lemma {:induction false} HistoryHolds(g: Geometry, init: seq<Dev.Block>, s: State, run: seq<Step>, P: seq<Dev.Block> -> bool)
    requires Inv(g, init, s) && Legal(g, s, run) && OnHomes(g, P) && P(ApplyAll(init, s.history))
    requires HoldsAtCommits(g, s, run, P)
    ensures P(ApplyAll(init, Exec(g, s, run).history))
    decreases |run|
  {
    hide Inv, Enabled, Do, OnHomes, ApplyAll;
    if run != [] {
      StepKeepsInv(g, init, s, run[0]);
      if run[0].WriteHead? {
        CommitGives(g, init, s, P);
      } else {
        OnlyCommits(g, init, s, run[0]);
      }
      HistoryHolds(g, init, Do(g, s, run[0]), run[1..], P);
    }
  }

  lemma OnlyCommits(g: Geometry, init: seq<Dev.Block>, s: State, step: Step)
    requires Inv(g, init, s) && Enabled(g, s, step) && !step.WriteHead?
    ensures Do(g, s, step).history == s.history
  {
    CommitPoint(g, init, s, step);
  }

  /** Stop any run after any step: if P held after power-on and at every commit, it holds of
      what recovery makes of the disk. */
  lemma InvariantSurvives(g: Geometry, s: State, run: seq<Step>, P: seq<Dev.Block> -> bool)
    requires Boot(g, s) && Legal(g, s, run) && OnHomes(g, P)
    requires P(Recovered(g, s.disk)) && HoldsAtCommits(g, s, run, P)
    ensures var d := Exec(g, s, run).disk;
            && g.Valid() && g.DiskShape(d) && HeaderValid(g, d) && P(Recovered(g, d))
  {
    CrashAtomicity(g, s, run);
    BootGivesInv(g, s);
    var init := Recovered(g, s.disk);
    assert ApplyAll(init, []) == init;
    HistoryHolds(g, init, s, run, P);
    hide Legal, Exec, Boot, Inv, Recovered, ApplyAll, HoldsAtCommits;
  }

  // ----- The forest on disk -----

  /** The bytes of a block; what is no byte, in the log's own blocks, counts as 0. */
  function Bytes(b: Dev.Block): Block {
    seq(BSIZE, i requires 0 <= i < BSIZE => if i < |b| && 0 <= b[i] < 256 then b[i] else 0)
  }

  function Image(d: seq<Dev.Block>): (r: FsTree.Disk)
    ensures |r| == |d|
  {
    seq(|d|, b requires 0 <= b < |d| => Bytes(d[b]))
  }

  /** Main theorem.  With the log in front of the inodes: if the disk was consistent after power
      came on, and the cached blocks are at every commit, recovery makes it consistent again. */
  lemma CrashKeepsForest(g: Geometry, l: FsTree.Layout, inodes: Inodes, s: State, run: seq<Step>)
    requires Boot(g, s) && Legal(g, s, run) && g.nblocks == l.size && g.start + g.size <= inodes.start
    requires Consistent(l, inodes, Image(Recovered(g, s.disk)))
    requires HoldsAtCommits(g, s, run, d => Consistent(l, inodes, Image(d)))
    ensures var d := Exec(g, s, run).disk;
            && g.Valid() && g.DiskShape(d) && HeaderValid(g, d) && Consistent(l, inodes, Image(Recovered(g, d)))
  {
    var P: seq<Dev.Block> -> bool := d => Consistent(l, inodes, Image(d));
    assert OnHomes(g, P) by {
      forall d, d' | |d| == |d'| == g.nblocks && SameHomes(g, d, d') ensures P(d) == P(d') {
        TailIsHome(g, l, inodes, d, d');
        TailIsHome(g, l, inodes, d', d);
      }
    }
    hide Consistent, Image, Legal, Exec, Boot, Recovered;
    InvariantSurvives(g, s, run, P);
  }

  lemma TailIsHome(g: Geometry, l: FsTree.Layout, inodes: Inodes, d: seq<Dev.Block>, d': seq<Dev.Block>)
    requires |d| == |d'| == g.nblocks == l.size && g.start + g.size <= inodes.start
    requires SameHomes(g, d, d') || SameHomes(g, d', d)
    ensures Consistent(l, inodes, Image(d)) ==> Consistent(l, inodes, Image(d'))
  {
    hide Consistent;
    if Consistent(l, inodes, Image(d)) {
      forall b | inodes.start <= b < l.size ensures Image(d')[b] == Image(d)[b] {
        assert g.IsHome(b) && d'[b] == d[b];
      }
      ConsistentFromTail(l, inodes, Image(d), Image(d'));
    }
  }
}
