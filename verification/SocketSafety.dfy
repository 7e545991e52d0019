/** What the publication protocol guarantees in every run. */
module SocketSafety {
  import opened SocketProtocol

  lemma InitInv()
    ensures Inv(INIT)
  {
  }

  /** In every interleaving, with crashes anywhere, at most one instance is between a successful flock and closing its
      lock. */
  lemma AtMostOneInLock(steps: seq<Step>, w: World, j: nat, k: nat)
    requires Run(INIT, steps, w) && j < |w.insts| && k < |w.insts|
    requires InLock(w.insts[j].pc) && InLock(w.insts[k].pc)
    ensures j == k
  {
    InitInv();
    RunKeepsInv(INIT, steps, w);
    assert LockOk(w, j) && LockOk(w, k);
  }

  // --------------------------------------------------------------- the lock file

  lemma LockFileStep(w: World, step: Step)
    requires Enabled(w, step) && LockPath in w.names
    ensures var w' := Apply(w, step); LockPath in w'.names && w'.names[LockPath] == w.names[LockPath]
  {
    if step.Act? {
      var (e, pc) := Call(w, step.k, step.ok);
      CallAndLock(w, step.k, step.ok);
      PerformLockPath(w, step.k, e);
    } else if step.Crash? {
      CrashShape(w, step.k);
    }
  }

  lemma PerformLockPath(w: World, k: nat, e: Effect)
    requires k < |w.insts| && LockPath in w.names && e != Unlink(LockPath)
    ensures LockPath in Perform(w, k, e).names && Perform(w, k, e).names[LockPath] == w.names[LockPath]
  {
  }

  /** Once there, the lock file is never unlinked or replaced. */
  lemma {:induction false} LockFileStays(w: World, steps: seq<Step>, w': World)
    requires Run(w, steps, w') && LockPath in w.names
    ensures LockPath in w'.names && w'.names[LockPath] == w.names[LockPath]
    decreases |steps|
  {
    if steps != [] {
      LockFileStep(w, steps[0]);
      LockFileStays(Apply(w, steps[0]), steps[1..], w');
    }
  }

  lemma {:induction false} RunAppend(w: World, steps: seq<Step>, w': World, step: Step)
    requires Run(w, steps, w') && Enabled(w', step)
    ensures Run(w, steps + [step], Apply(w', step))
    decreases |steps|
  {
    if steps == [] {
      assert [step][1..] == [];
    } else {
      assert (steps + [step])[1..] == steps[1..] + [step];
      RunAppend(Apply(w, steps[0]), steps[1..], w', step);
    }
  }

  lemma StartStep(w: World, k: nat)
    requires k < |w.insts| && w.insts[k].pc.Start?
    ensures Next(w, k, true) == Go(Perform(w, k, OpenLockFile), k, LockOpened)
  {
  }

  lemma FlockStep(w: World, k: nat)
    requires k < |w.insts| && w.insts[k].pc.LockOpened? && LockIsFree(w, k)
    ensures Next(w, k, true) == Go(Perform(w, k, TakeLock), k, Locked)
  {
  }

  /** Bring a new instance up to where it has the lock, when nobody holds it on the file the lock path names. */
  lemma TakeLockAlone(w: World, mode: nat) returns (steps: seq<Step>, w': World)
    requires ValidMode(mode) && (LockPath in w.names ==> w.names[LockPath] !in w.holders) && w.nextIno !in w.holders
    ensures Run(w, steps, w') && |w'.insts| == |w.insts| + 1 && w'.insts[|w.insts|].pc.Locked?
    ensures forall j :: 0 <= j < |w.insts| ==> w'.insts[j] == w.insts[j]
    ensures LockPath in w'.names && w'.holders == w.holders[w'.names[LockPath] := |w.insts|]
  {
    var k := |w.insts|;
    var w1 := Apply(w, Spawn(mode, mode));
    steps := [Spawn(mode, mode)];
    assert steps[1..] == [];
    StartStep(w1, k);
    var w2 := Next(w1, k, true);
    RunAppend(w, steps, w1, Act(k, true));
    FlockStep(w2, k);
    RunAppend(w, steps + [Act(k, true)], w2, Act(k, true));
    steps, w' := steps + [Act(k, true)] + [Act(k, true)], Next(w2, k, true);
  }

  /** Why it must not be: were the lock file unlinked while it is held, a second instance could hold the lock too. */
  lemma UnlinkingTheLockBreaksExclusion()
    returns (steps: seq<Step>, w: World, unlinked: World, more: seq<Step>, w': World)
    ensures Run(INIT, steps, w) && unlinked == w.(names := w.names - {LockPath}) && Run(unlinked, more, w')
    ensures |w'.insts| == 2 && InLock(w'.insts[0].pc) && InLock(w'.insts[1].pc)
  {
    steps, w := TakeLockAlone(INIT, 0x180);
    unlinked := w.(names := w.names - {LockPath});
    assert w.holders == map[w.names[LockPath] := 0];
    InitInv();
    RunKeepsInv(INIT, steps, w);
    assert NameOk(w, LockPath) && InodeOk(w, w.names[LockPath]);
    more, w' := TakeLockAlone(unlinked, 0x180);
  }

  // --------------------------------------------------------------- the path entry

  predicate SameEntry(w: World, w': World) {
    && (FinalPath in w'.names <==> FinalPath in w.names)
    && (FinalPath in w.names ==> w'.names[FinalPath] == w.names[FinalPath])
  }

  /** A step that instance `k` does not make itself. */
  predicate IsNotOf(step: Step, k: nat) {
    match step
    case Act(j, _) => j != k
    case Crash(j) => j != k
    case _ => true
  }

  /** While an instance is in the lock, no other instance's step changes what the path names. */
  lemma OthersLeaveTheEntry(w: World, step: Step, k: nat)
    requires Inv(w) && Enabled(w, step) && k < |w.insts| && InLock(w.insts[k].pc)
    requires IsNotOf(step, k) && !IsForeign(step)
    ensures SameEntry(w, Apply(w, step)) && |Apply(w, step).insts| >= |w.insts| && Apply(w, step).insts[k] == w.insts[k]
  {
    assert LockOk(w, k);
    if step.Act? {
      assert LockOk(w, step.k);
      OutsideLockFrame(w, step.k, step.ok);
      NextOthers(w, step.k, step.ok, k);
    } else if step.Crash? {
      CrashShape(w, step.k);
    }
  }

  /** From its rename until it closes its lock, whatever other instances do, start or suffer, the path names the socket
      an instance published; other programs can only unlink it. */
  lemma {:induction false} EntryStays(w: World, steps: seq<Step>, w': World, k: nat)
    requires Inv(w) && Run(w, steps, w') && k < |w.insts| && InLock(w.insts[k].pc) && NamesOwn(w, k)
    requires forall i :: 0 <= i < |steps| ==> IsNotOf(steps[i], k) && !steps[i].ForeignUnlink?
    ensures k < |w'.insts| && w'.insts[k] == w.insts[k] && NamesOwn(w', k) && SameEntry(w, w')
    decreases |steps|
  {
    if steps != [] {
      StepKeepsInv(w, steps[0]);
      if !IsForeign(steps[0]) {
        OthersLeaveTheEntry(w, steps[0], k);
      }
      EntryStays(Apply(w, steps[0]), steps[1..], w', k);
    }
  }

  lemma EntryCall(w: World, k: nat, ok: bool)
    requires k < |w.insts| && CheckOk(w, k)
    ensures var (e, pc) := Call(w, k, ok); var at := w.insts[k].pc;
            && (e.RenameStaged? ==> at.PathFree?)
            && (e == Unlink(FinalPath) ==> at.StaleChecked? || at.OwnSeen?)
  {
  }

  lemma PerformEntry(w: World, k: nat, e: Effect)
    requires k < |w.insts| && !e.RenameStaged? && e != Unlink(FinalPath)
    ensures SameEntry(w, Perform(w, k, e))
  {
  }

  /** No step of an instance replaces an entry at the path, and the only entries such a step removes are sockets on
      which nobody listens: another program's or a crashed instance's, or its own. */
  lemma OnlyDeadSocketsAreRemoved(w: World, step: Step)
    requires Inv(w) && Enabled(w, step) && !IsForeign(step) && FinalPath in w.names
    ensures SameEntry(w, Apply(w, step)) ||
            (&& FinalPath !in Apply(w, step).names && SocketAt(w, FinalPath) && !ListeningAt(w, FinalPath)
             && step.Act? && (w.insts[step.k].pc.StaleChecked? || NamesOwn(w, step.k)))
  {
    if step.Act? {
      var (e, pc) := Call(w, step.k, step.ok);
      assert CheckOk(w, step.k) && SockOk(w, step.k);
      EntryCall(w, step.k, step.ok);
      if !e.RenameStaged? && e != Unlink(FinalPath) {
        PerformEntry(w, step.k, e);
      }
    } else if step.Crash? {
      CrashShape(w, step.k);
    }
  }

  /** At every moment of every run, a gangway socket at the path has exactly the mode its instance was given, and was
      listening when it got there. */
  lemma VisibleSocketsAreReady(steps: seq<Step>, w: World)
    requires Run(INIT, steps, w) && SocketAt(w, FinalPath) && w.inodes[w.names[FinalPath]].owner.Gangway?
    ensures var inode := w.inodes[w.names[FinalPath]];
            && inode.owner.inst < |w.insts| && inode.mode == w.insts[inode.owner.inst].mode
            && !inode.phase.Bound?
  {
    InitInv();
    RunKeepsInv(INIT, steps, w);
  }

  /** The step that makes a gangway socket visible: its instance's rename, to a path that names nothing, of a socket
      that is listening and has its mode. */
  lemma PublicationIsClean(w: World, step: Step)
    requires Inv(w) && Enabled(w, step) && !SameEntry(w, Apply(w, step)) && !IsForeign(step)
    requires FinalPath in Apply(w, step).names
    ensures FinalPath !in w.names && step.Act? && w.insts[step.k].pc.PathFree? && ListeningAt(Apply(w, step), FinalPath)
    ensures var w' := Apply(w, step); var inode := w'.inodes[w'.names[FinalPath]];
            inode == Socket(Gangway(step.k), w.insts[step.k].mode, Listening)
  {
    if FinalPath in w.names {
      OnlyDeadSocketsAreRemoved(w, step);
    } else if step.Act? {
      var (e, pc) := Call(w, step.k, step.ok);
      assert CheckOk(w, step.k) && SockOk(w, step.k);
      EntryCall(w, step.k, step.ok);
      if e.RenameStaged? {
        assert e == RenameStaged;
      } else if e != Unlink(FinalPath) {
        PerformEntry(w, step.k, e);
      }
    } else if step.Crash? {
      CrashShape(w, step.k);
    }
  }

  // ------------------------------------------------------- the staging directories

  /** Where an instance may have an entry in its staging directory: from its bind until its rename, in the removal that
      a failure leads to, or for good if it has crashed. */
  predicate MayStage(pc: PC) {
    InStaging(pc) || pc.AbortListener? || pc.AbortStaging? || pc.Crashed?
  }

  ghost predicate StagingInv(w: World) {
    forall k: nat :: StagedPath(k) in w.names ==> k < |w.insts| && MayStage(w.insts[k].pc)
  }

  lemma StagingCall(w: World, k: nat, ok: bool)
    requires k < |w.insts|
    ensures var (e, pc) := Call(w, k, ok);
            && (e.BindStaged? ==> MayStage(pc))
            && (e.RenameStaged? || e == Unlink(StagedPath(k)) || (MayStage(w.insts[k].pc) ==> MayStage(pc)))
  {
  }

  lemma PerformStaging(w: World, k: nat, e: Effect)
    requires k < |w.insts|
    ensures var w' := Perform(w, k, e);
            && (forall j: nat :: j != k && StagedPath(j) in w'.names ==> StagedPath(j) in w.names)
            && (StagedPath(k) in w'.names && !e.BindStaged? ==>
                  StagedPath(k) in w.names && !e.RenameStaged? && e != Unlink(StagedPath(k)))
  {
  }

  lemma ActKeepsStaging(w: World, k: nat, ok: bool)
    requires StagingInv(w) && k < |w.insts|
    ensures StagingInv(Next(w, k, ok))
  {
    var (e, pc) := Call(w, k, ok);
    StagingCall(w, k, ok);
    PerformStaging(w, k, e);
    forall j: nat | StagedPath(j) in Next(w, k, ok).names
      ensures j < |w.insts| && MayStage(Next(w, k, ok).insts[j].pc)
    {
      if j != k {
        assert j < |w.insts|;
        NextOthers(w, k, ok, j);
      }
    }
  }

  lemma StagingStep(w: World, step: Step)
    requires StagingInv(w) && Enabled(w, step)
    ensures StagingInv(Apply(w, step))
  {
    if step.Act? {
      ActKeepsStaging(w, step.k, step.ok);
    } else if step.Crash? {
      CrashShape(w, step.k);
    }
  }

  lemma {:induction false} RunKeepsStaging(w: World, steps: seq<Step>, w': World)
    requires StagingInv(w) && Run(w, steps, w')
    ensures StagingInv(w')
    decreases |steps|
  {
    if steps != [] {
      StagingStep(w, steps[0]);
      RunKeepsStaging(Apply(w, steps[0]), steps[1..], w');
    }
  }

  /** In every run, an instance that has published its socket, has closed, or has given up, at whichever call, has left
      nothing in its staging directory, and unless it serves, nothing that listens. */
  lemma NothingIsLeftBehind(steps: seq<Step>, w: World, k: nat)
    requires Run(INIT, steps, w) && k < |w.insts|
    requires Renamed(w.insts[k].pc) || w.insts[k].pc.AbortLock? || w.insts[k].pc.GaveUp?
    ensures StagedPath(k) !in w.names
    ensures w.insts[k].sock.Some? && !w.insts[k].pc.Published? && !w.insts[k].pc.Serving? ==>
              IsSocket(w, w.insts[k].sock.value) && w.inodes[w.insts[k].sock.value].phase.Dead?
  {
    RunKeepsStaging(INIT, steps, w);
    InitInv();
    RunKeepsInv(INIT, steps, w);
    assert SockOk(w, k);
  }
}
