/** Why `Close` of internal/gangway/socket.go releases the lock last: with the lock given up before the unlink, a later
    instance's entry can be what is unlinked. */
module SocketOrder {
  import opened SocketProtocol
  import opened SocketSafety
  import opened SocketHost

  /** What the invariant says of files and sockets; it does not depend on who holds the lock. */
  ghost predicate Fit(w: World) {
    FilesInv(w) && SocksInv(w)
  }

  /** Nobody holds the lock on the file that the lock path names or would come to name. */
  predicate LockIsUnheld(w: World) {
    (LockPath in w.names ==> w.names[LockPath] !in w.holders) && w.nextIno !in w.holders
  }

  ghost predicate OthersKept(w: World, w': World, k: nat) {
    |w'.insts| == |w.insts| && forall j :: 0 <= j < |w.insts| && j != k ==> w'.insts[j] == w.insts[j]
  }

  lemma FitStep(w: World, k: nat)
    requires Fit(w) && k < |w.insts|
    ensures Fit(Next(w, k, true))
  {
    assert SockOk(w, k);
    FilesStep(w, k, true);
    SocksStep(w, k, true);
  }

  lemma NextKeepsOthers(w: World, k: nat)
    requires k < |w.insts|
    ensures OthersKept(w, Next(w, k, true), k)
  {
    var (e, _) := Call(w, k, true);
    forall j | 0 <= j < |w.insts| && j != k
      ensures |Next(w, k, true).insts| == |w.insts| && Next(w, k, true).insts[j] == w.insts[j]
    {
      NextOthers(w, k, true, j);
    }
  }

  /** One more call, which works. */
  lemma Advance(w0: World, steps: seq<Step>, w: World, k: nat) returns (steps': seq<Step>, w': World)
    requires Run(w0, steps, w) && Fit(w) && k < |w.insts| && !IsOver(w.insts[k].pc)
    ensures Run(w0, steps', w') && w' == Next(w, k, true) && Fit(w') && OthersKept(w, w', k)
  {
    FitStep(w, k);
    NextKeepsOthers(w, k);
    RunAppend(w0, steps, w, Act(k, true));
    steps', w' := steps + [Act(k, true)], Next(w, k, true);
  }

  lemma OpenUnheld(w: World, k: nat)
    requires IsAt(w, k, PC.Start) && FilesInv(w) && LockIsUnheld(w)
    ensures var w' := Next(w, k, true);
            IsAt(w', k, LockOpened) && Kept(w, w', k) && EntryKept(w, w') && LockIsFree(w', k)
  {
    StartStep(w, k);
    if FinalPath in w.names {
      assert NameOk(w, FinalPath) && InodeOk(w, w.names[FinalPath]);
    }
  }

  lemma FlockUnheld(w: World, k: nat)
    requires IsAt(w, k, LockOpened) && LockIsFree(w, k)
    ensures var w' := Next(w, k, true); IsAt(w', k, Locked) && Kept(w, w', k) && EntryKept(w, w')
  {
    FlockStep(w, k);
  }

  lemma OpenOn(w0: World, steps: seq<Step>, w: World, k: nat) returns (steps': seq<Step>, w': World)
    requires Run(w0, steps, w) && Fit(w) && IsAt(w, k, PC.Start) && LockIsUnheld(w)
    ensures Run(w0, steps', w') && Fit(w') && OthersKept(w, w', k)
    ensures IsAt(w', k, LockOpened) && LockIsFree(w', k) && EntryKept(w, w')
  {
    OpenUnheld(w, k);
    steps', w' := Advance(w0, steps, w, k);
  }

  lemma FlockOn(w0: World, steps: seq<Step>, w: World, k: nat) returns (steps': seq<Step>, w': World)
    requires Run(w0, steps, w) && Fit(w) && IsAt(w, k, LockOpened) && LockIsFree(w, k)
    ensures Run(w0, steps', w') && Fit(w') && OthersKept(w, w', k) && IsAt(w', k, Locked) && EntryKept(w, w')
  {
    FlockUnheld(w, k);
    steps', w' := Advance(w0, steps, w, k);
  }

  lemma LockAlone(w0: World, steps: seq<Step>, w: World, k: nat) returns (steps': seq<Step>, w': World)
    requires Run(w0, steps, w) && Fit(w) && IsAt(w, k, PC.Start) && LockIsUnheld(w)
    ensures Run(w0, steps', w') && Fit(w') && OthersKept(w, w', k)
    ensures IsAt(w', k, Locked) && EntryKept(w, w')
  {
    steps', w' := OpenOn(w0, steps, w, k);
    steps', w' := FlockOn(w0, steps', w', k);
  }

  lemma DialOn(w0: World, steps: seq<Step>, w: World, k: nat) returns (steps': seq<Step>, w': World)
    requires Run(w0, steps, w) && Fit(w) && IsAt(w, k, StaleSeen) && NamesSeen(w, k) && !ListeningAt(w, FinalPath)
    ensures Run(w0, steps', w') && Fit(w') && OthersKept(w, w', k) && IsAt(w', k, StaleRefused) && NamesSeen(w', k)
  {
    DialAlone(w, k, true);
    steps', w' := Advance(w0, steps, w, k);
  }

  lemma RecheckOn(w0: World, steps: seq<Step>, w: World, k: nat) returns (steps': seq<Step>, w': World)
    requires Run(w0, steps, w) && Fit(w) && IsAt(w, k, StaleRefused) && NamesSeen(w, k)
    ensures Run(w0, steps', w') && Fit(w') && OthersKept(w, w', k) && IsAt(w', k, StaleChecked)
  {
    RecheckAlone(w, k, true);
    steps', w' := Advance(w0, steps, w, k);
  }

  lemma RemoveOn(w0: World, steps: seq<Step>, w: World, k: nat) returns (steps': seq<Step>, w': World)
    requires Run(w0, steps, w) && Fit(w) && IsAt(w, k, StaleChecked)
    ensures Run(w0, steps', w') && Fit(w') && OthersKept(w, w', k) && IsAt(w', k, PathClear) && FinalPath !in w'.names
  {
    RemoveAlone(w, k, true);
    steps', w' := Advance(w0, steps, w, k);
  }

  /** A stale socket is probed and removed. */
  lemma ProbeAlone(w0: World, steps: seq<Step>, w: World, k: nat) returns (steps': seq<Step>, w': World)
    requires Run(w0, steps, w) && Fit(w) && IsAt(w, k, StaleSeen) && NamesSeen(w, k) && !ListeningAt(w, FinalPath)
    ensures Run(w0, steps', w') && Fit(w') && OthersKept(w, w', k)
    ensures IsAt(w', k, PathClear) && FinalPath !in w'.names
  {
    steps', w' := DialOn(w0, steps, w, k);
    steps', w' := RecheckOn(w0, steps', w', k);
    steps', w' := RemoveOn(w0, steps', w', k);
  }

  lemma ClearAlone(w0: World, steps: seq<Step>, w: World, k: nat) returns (steps': seq<Step>, w': World)
    requires Run(w0, steps, w) && Fit(w) && IsAt(w, k, Locked) && IsClearable(w)
    ensures Run(w0, steps', w') && Fit(w') && OthersKept(w, w', k)
    ensures IsAt(w', k, PathClear) && FinalPath !in w'.names
  {
    SeeAlone(w, k, true);
    steps', w' := Advance(w0, steps, w, k);
    if FinalPath in w.names {
      steps', w' := ProbeAlone(w0, steps', w', k);
    }
  }

  /** How many of the calls before the rename are still to be made. */
  function ToRename(pc: PC): nat
    requires IsPreparing(pc) || pc.PathFree?
  {
    match pc
    case PathClear => 6
    case StagingMade => 5
    case SockBound => 4
    case SockListening => 3
    case StagedSeen => 2
    case ModeSet => 1
    case _ => 0
  }

  lemma {:induction false} PrepareRest(w0: World, steps: seq<Step>, w: World, k: nat)
    returns (steps': seq<Step>, w': World)
    requires Run(w0, steps, w) && Fit(w) && k < |w.insts| && FinalPath !in w.names
    requires IsPreparing(w.insts[k].pc) || w.insts[k].pc.PathFree?
    ensures Run(w0, steps', w') && Fit(w') && OthersKept(w, w', k)
    ensures IsAt(w', k, PathFree) && FinalPath !in w'.names
    decreases ToRename(w.insts[k].pc)
  {
    steps', w' := steps, w;
    if !w.insts[k].pc.PathFree? {
      PrepareAlone(w, k, true);
      steps', w' := Advance(w0, steps, w, k);
      steps', w' := PrepareRest(w0, steps', w', k);
    }
  }

  lemma RenameOn(w0: World, steps: seq<Step>, w: World, k: nat) returns (steps': seq<Step>, w': World)
    requires Run(w0, steps, w) && Fit(w) && IsAt(w, k, PathFree) && FinalPath !in w.names
    ensures Run(w0, steps', w') && Fit(w') && OthersKept(w, w', k) && IsAt(w', k, Published) && NamesReady(w', k)
  {
    assert SockOk(w, k);
    RenameReadies(w, k, true);
    steps', w' := Advance(w0, steps, w, k);
  }

  lemma TidyOn(w0: World, steps: seq<Step>, w: World, k: nat) returns (steps': seq<Step>, w': World)
    requires Run(w0, steps, w) && Fit(w) && IsAt(w, k, Published) && NamesReady(w, k)
    ensures Run(w0, steps', w') && Fit(w') && OthersKept(w, w', k) && Serves(w', k)
  {
    TidyAlone(w, k, true);
    steps', w' := Advance(w0, steps, w, k);
  }

  lemma PublishAlone(w0: World, steps: seq<Step>, w: World, k: nat) returns (steps': seq<Step>, w': World)
    requires Run(w0, steps, w) && Fit(w) && IsAt(w, k, PathClear) && FinalPath !in w.names
    ensures Run(w0, steps', w') && Fit(w') && OthersKept(w, w', k) && Serves(w', k)
  {
    steps', w' := PrepareRest(w0, steps, w, k);
    steps', w' := RenameOn(w0, steps', w', k);
    steps', w' := TidyOn(w0, steps', w', k);
  }

  lemma SpawnFit(w: World, mode: nat)
    requires ValidMode(mode) && Fit(w)
    ensures var w' := Apply(w, Spawn(mode, mode));
            Fit(w') && IsAt(w', |w.insts|, PC.Start) && EntryKept(w, w') && (LockIsUnheld(w) ==> LockIsUnheld(w'))
  {
    var w' := Apply(w, Spawn(mode, mode));
    SameFiles(w, w');
    forall j | 0 <= j < |w'.insts|
      ensures SockOk(w', j)
    {
      assert j < |w.insts| ==> SockOk(w, j);
    }
  }

  /** With the lock unheld and the path clearable, a new instance comes to where the path is clear. */
  lemma ReadyAlone(w: World, mode: nat) returns (steps: seq<Step>, w': World)
    requires ValidMode(mode) && Fit(w) && LockIsUnheld(w) && IsClearable(w)
    ensures Run(w, steps, w') && Fit(w') && IsAt(w', |w.insts|, PathClear) && FinalPath !in w'.names
    ensures OthersKept(Apply(w, Spawn(mode, mode)), w', |w.insts|)
  {
    var k := |w.insts|;
    SpawnFit(w, mode);
    steps, w' := [Spawn(mode, mode)], Apply(w, Spawn(mode, mode));
    assert steps[1..] == [];
    steps, w' := LockAlone(w, steps, w', k);
    steps, w' := ClearAlone(w, steps, w', k);
  }

  lemma SpawnKeepsOthers(w: World, mode: nat, w1: World, w2: World)
    requires ValidMode(mode) && OthersKept(Apply(w, Spawn(mode, mode)), w1, |w.insts|) && OthersKept(w1, w2, |w.insts|)
    ensures |w2.insts| == |w.insts| + 1 && forall j :: 0 <= j < |w.insts| ==> w2.insts[j] == w.insts[j]
  {
  }

  /** Then it comes to serve, and no other instance is changed by that. */
  lemma ServeAlone(w: World, mode: nat) returns (steps: seq<Step>, w': World)
    requires ValidMode(mode) && Fit(w) && LockIsUnheld(w) && IsClearable(w)
    ensures Run(w, steps, w') && Fit(w') && |w'.insts| == |w.insts| + 1 && Serves(w', |w.insts|)
    ensures forall j :: 0 <= j < |w.insts| ==> w'.insts[j] == w.insts[j]
  {
    var w1: World;
    steps, w1 := ReadyAlone(w, mode);
    steps, w' := PublishAlone(w, steps, w1, |w.insts|);
    SpawnKeepsOthers(w, mode, w1, w');
  }

  lemma ShutOn(w0: World, steps: seq<Step>, w: World, k: nat) returns (steps': seq<Step>, w': World)
    requires Run(w0, steps, w) && Fit(w) && Serves(w, k)
    ensures Run(w0, steps', w') && Fit(w') && OthersKept(w, w', k) && IsAt(w', k, ListenerShut) && NamesOwn(w', k)
  {
    ShutAlone(w, k, true);
    steps', w' := Advance(w0, steps, w, k);
  }

  lemma LookOn(w0: World, steps: seq<Step>, w: World, k: nat) returns (steps': seq<Step>, w': World)
    requires Run(w0, steps, w) && Fit(w) && IsAt(w, k, ListenerShut) && NamesOwn(w, k)
    ensures Run(w0, steps', w') && OthersKept(w, w', k) && IsAt(w', k, OwnSeen)
  {
    LookAlone(w, k, true);
    steps', w' := Advance(w0, steps, w, k);
  }

  /** An instance that has served and is about to unlink its entry. */
  lemma ToUnlink() returns (steps: seq<Step>, w: World)
    ensures Run(INIT, steps, w) && |w.insts| == 1 && IsAt(w, 0, OwnSeen)
  {
    steps, w := ServeAlone(INIT, 0x180);
    steps, w := ShutOn(INIT, steps, w, 0);
    steps, w := LookOn(INIT, steps, w, 0);
  }

  lemma EarlyIsFit(steps: seq<Step>, w: World, k: nat)
    requires Run(INIT, steps, w) && IsAt(w, k, OwnSeen)
    ensures Fit(Unlock(w, k)) && LockIsUnheld(Unlock(w, k)) && IsClearable(Unlock(w, k))
  {
    Reachable(steps, w);
    var early := Unlock(w, k);
    assert LockOk(w, k) && CheckOk(w, k) && SockOk(w, k);
    assert NameOk(w, LockPath) && InodeOk(w, w.names[LockPath]);
    SameFiles(w, early);
    forall j | 0 <= j < |early.insts|
      ensures SockOk(early, j)
    {
      assert SockOk(w, j);
    }
  }

  /** Were the lock dropped between the check of the entry and its unlink, a second instance could publish in between,
      and the first would unlink what the second serves on. */
  lemma DroppingTheLockEarlyLosesAnEntry()
    returns (steps: seq<Step>, w: World, more: seq<Step>, w': World, after: World)
    ensures Run(INIT, steps, w) && |w.insts| == 1 && IsAt(w, 0, OwnSeen)
    ensures Run(Unlock(w, 0), more, w') && |w'.insts| == 2 && Serves(w', 1) && w'.insts[0].pc.OwnSeen?
    ensures after == Next(w', 0, true) && IsAt(after, 1, Serving) && FinalPath !in after.names
  {
    steps, w := ToUnlink();
    EarlyIsFit(steps, w, 0);
    more, w' := ServeAlone(Unlock(w, 0), 0x180);
    after := Next(w', 0, true);
    UnlinkAlone(w', 0, true);
    NextOthers(w', 0, true, 1);
  }
}
