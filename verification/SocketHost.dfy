/** `Listen` and `Close` of internal/gangway/socket.go as code, run by one instance with nothing interleaved: each call
    is a step of the protocol, so what a method does is a run of it. Any call may fail; the check that the lock file is
    a regular file of this user's is one of the ways in which taking the lock does. */
module SocketHost {
  import opened Counting
  import opened Text
  import opened SocketProtocol
  import opened SocketSafety

  /** The path can be published at: it names nothing, or a socket on which nobody listens. */
  predicate IsClearable(w: World) {
    FinalPath !in w.names || (SocketAt(w, FinalPath) && !ListeningAt(w, FinalPath))
  }

  predicate IsAt(w: World, k: nat, pc: PC) {
    k < |w.insts| && w.insts[k].pc == pc
  }

  /** The path names the instance's own socket, which listens and has the mode it was given. */
  predicate NamesReady(w: World, k: nat)
    requires k < |w.insts|
  {
    NamesOwn(w, k) && SocketAt(w, FinalPath) &&
    w.inodes[w.names[FinalPath]] == Socket(Gangway(k), w.insts[k].mode, Listening)
  }

  predicate Serves(w: World, k: nat) {
    IsAt(w, k, Serving) && NamesReady(w, k)
  }

  /** The entry, and the socket it may name, are as they were. */
  predicate EntryKept(w: World, w': World) {
    SameEntry(w, w') && SocketAt(w', FinalPath) == SocketAt(w, FinalPath) &&
    ListeningAt(w', FinalPath) == ListeningAt(w, FinalPath)
  }

  /** The instance is still there, with the mode it was given. */
  predicate Kept(w: World, w': World, k: nat) {
    k < |w.insts| == |w'.insts| && w'.insts[k].mode == w.insts[k].mode
  }

  /** How many calls have failed. */
  ghost function Faults(steps: seq<Step>): nat {
    Count(steps, (step: Step) => step.Act? && !step.ok)
  }

  /** How many steps were not calls of instance `k`. */
  ghost function OtherSteps(steps: seq<Step>, k: nat): nat {
    Count(steps, (step: Step) => !step.Act? || step.k != k)
  }

  /** Since `before`, only instance `k` has made calls, and nothing else has happened. */
  ghost predicate OnlyActs(before: seq<Step>, after: seq<Step>, k: nat) {
    before <= after && OtherSteps(after, k) == OtherSteps(before, k) && Faults(before) <= Faults(after)
  }

  /** Since `before`, no call has failed. */
  ghost predicate Faultless(before: seq<Step>, after: seq<Step>) {
    Faults(after) == Faults(before)
  }

  ghost predicate AllOver(w: World) {
    forall k :: 0 <= k < |w.insts| ==> IsOver(w.insts[k].pc)
  }

  predicate HasDeadSocket(w: World, k: nat)
    requires k < |w.insts|
  {
    var sock := w.insts[k].sock;
    sock.Some? && sock.value in w.inodes && w.inodes[sock.value].Socket? && w.inodes[sock.value].phase.Dead?
  }

  /** What follows the close of the lock file. */
  function AfterDrop(pc: PC): PC {
    if pc.Unlinked? then Closed else GaveUp
  }

  /** The calls of `bindAndPublish` before the rename, each with what follows it. */
  predicate IsPreparing(pc: PC) {
    pc.PathClear? || pc.StagingMade? || pc.SockBound? || pc.SockListening? || pc.StagedSeen? || pc.ModeSet?
  }

  function AfterPreparing(pc: PC): PC {
    match pc
    case PathClear => StagingMade
    case StagingMade => SockBound
    case SockBound => SockListening
    case SockListening => StagedSeen
    case StagedSeen => ModeSet
    case _ => PathFree
  }

  predicate IsAborting(pc: PC) {
    pc.AbortListener? || pc.AbortStaging? || pc.AbortLock?
  }

  class Host {
    var w: World
    ghost var history: seq<Step>

    ghost predicate Valid()
      reads this
    {
      Run(INIT, history, w)
    }

    /** A host as any run, with any crashes, has left it. */
    constructor (w: World, ghost history: seq<Step>)
      requires Run(INIT, history, w)
      ensures Valid() && this.w == w && this.history == history
    {
      this.w := w;
      this.history := history;
    }

    /** One system call of instance `k`. Whether it fails is not up to the instance. */
    method Do(k: nat) returns (ok: bool)
      requires Valid() && k < |w.insts| && !IsOver(w.insts[k].pc)
      modifies this
      ensures Valid() && w == Next(old(w), k, ok) && OnlyActs(old(history), history, k)
      ensures Faultless(old(history), history) <==> ok
    {
      ok := *;
      RunAppend(INIT, history, w, Act(k, ok));
      w := Next(w, k, ok);
      CountAppend(history, Act(k, ok), (step: Step) => step.Act? && !step.ok);
      CountAppend(history, Act(k, ok), (step: Step) => !step.Act? || step.k != k);
      history := history + [Act(k, ok)];
    }

    method Start(mode: nat, umasked: nat) returns (k: nat)
      requires Valid() && ValidMode(mode)
      modifies this
      ensures Valid() && k == |old(w).insts| && w == Apply(old(w), Spawn(mode, umasked))
      ensures Faultless(old(history), history)
    {
      k := |w.insts|;
      RunAppend(INIT, history, w, Spawn(mode, umasked));
      CountAppend(history, Spawn(mode, umasked), (step: Step) => step.Act? && !step.ok);
      history := history + [Spawn(mode, umasked)];
      w := Apply(w, Spawn(mode, umasked));
    }

    method OpenLockFile(k: nat) returns (ok: bool)
      requires Valid() && IsAt(w, k, PC.Start)
      modifies this
      ensures Valid() && OnlyActs(old(history), history, k) && Kept(old(w), w, k) && EntryKept(old(w), w)
      ensures IsAt(w, k, if ok then LockOpened else GaveUp) && LockHolder(w) == LockHolder(old(w))
      ensures Faultless(old(history), history) ==> ok
    {
      OpenAlone(history, w, k, true);
      OpenAlone(history, w, k, false);
      ok := Do(k);
    }

    method Flock(k: nat) returns (ok: bool)
      requires Valid() && IsAt(w, k, LockOpened)
      modifies this
      ensures Valid() && OnlyActs(old(history), history, k) && Kept(old(w), w, k) && EntryKept(old(w), w)
      ensures IsAt(w, k, if ok then Locked else AbortFd) && (ok ==> LockHolder(old(w)).None?)
      ensures LockHolder(w) == if ok then Some(k) else LockHolder(old(w))
      ensures Faultless(old(history), history) ==> ok == LockHolder(old(w)).None?
    {
      ok := LockIsFree(w, k);
      FlockAlone(history, w, k, true);
      FlockAlone(history, w, k, false);
      var works := Do(k);
      ok := ok && works;
    }

    /** Closes the lock file, and releases the lock if this instance held it. */
    method CloseLockFile(k: nat)
      requires Valid() && k < |w.insts|
      requires w.insts[k].pc.AbortFd? || w.insts[k].pc.AbortLock? || w.insts[k].pc.Unlinked?
      modifies this
      ensures Valid() && OnlyActs(old(history), history, k) && Kept(old(w), w, k) && EntryKept(old(w), w)
      ensures IsAt(w, k, AfterDrop(old(w).insts[k].pc))
      ensures LockHolder(w) == if LockHolder(old(w)) == Some(k) then None else LockHolder(old(w))
    {
      DropStep(w, k, true);
      DropStep(w, k, false);
      DropAlone(history, w, k, AfterDrop(w.insts[k].pc));
      var _ := Do(k);
    }

    /** Takes the lock, or closes its file again. */
    method FlockOrClose(k: nat) returns (ok: bool)
      requires Valid() && IsAt(w, k, LockOpened) && LockHolder(w) != Some(k)
      modifies this
      ensures Valid() && OnlyActs(old(history), history, k) && Kept(old(w), w, k) && EntryKept(old(w), w)
      ensures IsAt(w, k, if ok then Locked else GaveUp) && (ok ==> LockHolder(old(w)).None?)
      ensures LockHolder(w) == if ok then Some(k) else LockHolder(old(w))
      ensures Faultless(old(history), history) ==> ok == LockHolder(old(w)).None?
    {
      ok := Flock(k);
      if !ok {
        CloseLockFile(k);
      }
    }

    /** Succeeds only if nobody holds the lock, and then holds it; no fault aside, it does succeed. */
    method AcquireInstanceLock(k: nat) returns (ok: bool)
      requires Valid() && IsAt(w, k, PC.Start)
      modifies this
      ensures Valid() && OnlyActs(old(history), history, k) && Kept(old(w), w, k) && EntryKept(old(w), w)
      ensures IsAt(w, k, if ok then Locked else GaveUp) && (ok ==> LockHolder(old(w)).None?)
      ensures LockHolder(w) == if ok then Some(k) else LockHolder(old(w))
      ensures Faultless(old(history), history) ==> ok == LockHolder(old(w)).None?
    {
      NotTheHolder(history, w, k);
      ok := OpenLockFile(k);
      if ok {
        ok := FlockOrClose(k);
      }
    }

    method Lstat(k: nat) returns (found: bool)
      requires Valid() && IsAt(w, k, Locked)
      modifies this
      ensures Valid() && OnlyActs(old(history), history, k) && Kept(old(w), w, k) && EntryKept(old(w), w)
      ensures found ==> IsAt(w, k, StaleSeen) && SocketAt(w, FinalPath) && NamesSeen(w, k)
      ensures !found ==> (IsAt(w, k, PathClear) && FinalPath !in w.names) || IsAt(w, k, AbortLock)
      ensures Faultless(old(history), history) ==>
                found == SocketAt(w, FinalPath) && (FinalPath !in w.names ==> IsAt(w, k, PathClear))
    {
      SeeAlone(w, k, true);
      SeeAlone(w, k, false);
      found := SocketAt(w, FinalPath);
      var works := Do(k);
      found := found && works;
    }

    method Dial(k: nat) returns (refused: bool)
      requires Valid() && IsAt(w, k, StaleSeen) && NamesSeen(w, k) && SocketAt(w, FinalPath)
      modifies this
      ensures Valid() && OnlyActs(old(history), history, k) && Kept(old(w), w, k) && EntryKept(old(w), w)
      ensures NamesSeen(w, k) && IsAt(w, k, if refused then StaleRefused else AbortLock)
      ensures refused ==> !ListeningAt(w, FinalPath)
      ensures Faultless(old(history), history) ==> refused == !ListeningAt(w, FinalPath)
    {
      DialAlone(w, k, true);
      DialAlone(w, k, false);
      refused := !ListeningAt(w, FinalPath);
      var works := Do(k);
      refused := refused && works;
    }

    method Recheck(k: nat) returns (ok: bool)
      requires Valid() && IsAt(w, k, StaleRefused) && NamesSeen(w, k)
      modifies this
      ensures Valid() && OnlyActs(old(history), history, k) && Kept(old(w), w, k) && EntryKept(old(w), w)
      ensures IsAt(w, k, if ok then StaleChecked else AbortLock)
      ensures Faultless(old(history), history) ==> ok
    {
      RecheckAlone(w, k, true);
      RecheckAlone(w, k, false);
      ok := Do(k);
    }

    method Remove(k: nat) returns (ok: bool)
      requires Valid() && IsAt(w, k, StaleChecked)
      modifies this
      ensures Valid() && OnlyActs(old(history), history, k) && Kept(old(w), w, k)
      ensures if ok then IsAt(w, k, PathClear) && FinalPath !in w.names
              else IsAt(w, k, AbortLock) && EntryKept(old(w), w)
      ensures Faultless(old(history), history) ==> ok
    {
      RemoveAlone(w, k, true);
      RemoveAlone(w, k, false);
      ok := Do(k);
    }

    /** Probes the socket that has been found, and removes it if it is stale. */
    method RemoveFound(k: nat) returns (ok: bool)
      requires Valid() && IsAt(w, k, StaleSeen) && NamesSeen(w, k) && SocketAt(w, FinalPath)
      modifies this
      ensures Valid() && OnlyActs(old(history), history, k) && Kept(old(w), w, k)
      ensures if ok then IsAt(w, k, PathClear) && FinalPath !in w.names
              else IsAt(w, k, AbortLock) && EntryKept(old(w), w)
      ensures ok ==> !ListeningAt(old(w), FinalPath)
      ensures Faultless(old(history), history) ==> ok == !ListeningAt(old(w), FinalPath)
    {
      ok := Dial(k);
      if ok {
        ok := Recheck(k);
        if ok {
          ok := Remove(k);
        }
      }
    }

    /** Succeeds only if the path names nothing, or a socket on which nobody listens, and then has cleared it; no fault
        aside, it does succeed. Where it fails it leaves the path alone. */
    method RemoveStaleSocket(k: nat) returns (ok: bool)
      requires Valid() && IsAt(w, k, Locked)
      modifies this
      ensures Valid() && OnlyActs(old(history), history, k) && Kept(old(w), w, k)
      ensures if ok then IsAt(w, k, PathClear) && FinalPath !in w.names
              else IsAt(w, k, AbortLock) && EntryKept(old(w), w)
      ensures ok ==> IsClearable(old(w))
      ensures Faultless(old(history), history) ==> ok == IsClearable(old(w))
    {
      var found := Lstat(k);
      if found {
        ok := RemoveFound(k);
      } else {
        ok := w.insts[k].pc.PathClear?;
      }
    }

    /** One of the calls before the rename. */
    method Prepare(k: nat, at: PC) returns (ok: bool)
      requires Valid() && IsAt(w, k, at) && IsPreparing(at) && FinalPath !in w.names
      modifies this
      ensures Valid() && OnlyActs(old(history), history, k) && Kept(old(w), w, k) && FinalPath !in w.names
      ensures if ok then IsAt(w, k, AfterPreparing(at)) else IsAborting(w.insts[k].pc)
      ensures Faultless(old(history), history) ==> ok
    {
      PrepareAlone(w, k, true);
      PrepareAlone(w, k, false);
      ok := Do(k);
    }

    method Rename(k: nat) returns (ok: bool)
      requires Valid() && IsAt(w, k, PathFree)
      modifies this
      ensures Valid() && OnlyActs(old(history), history, k) && Kept(old(w), w, k)
      ensures if ok then IsAt(w, k, Published) && NamesReady(w, k)
              else IsAt(w, k, AbortListener) && FinalPath !in w.names
      ensures Faultless(old(history), history) ==> ok
    {
      RenameAlone(history, w, k, true);
      RenameAlone(history, w, k, false);
      ok := Do(k);
    }

    /** Removes the emptied staging directory. */
    method Tidy(k: nat)
      requires Valid() && IsAt(w, k, Published) && NamesReady(w, k)
      modifies this
      ensures Valid() && OnlyActs(old(history), history, k) && Kept(old(w), w, k) && Serves(w, k)
    {
      TidyAlone(w, k, true);
      TidyAlone(w, k, false);
      var _ := Do(k);
    }

    /** One call of a publication that has failed: closes the listener, or removes the staging directory. */
    method UnwindOnce(k: nat)
      requires Valid() && k < |w.insts| && FinalPath !in w.names
      requires w.insts[k].pc.AbortListener? || w.insts[k].pc.AbortStaging?
      modifies this
      ensures Valid() && OnlyActs(old(history), history, k) && Kept(old(w), w, k) && FinalPath !in w.names
      ensures IsAt(w, k, if old(w).insts[k].pc.AbortListener? then AbortStaging else AbortLock)
    {
      UnwindAlone(w, k, true);
      UnwindAlone(w, k, false);
      var _ := Do(k);
    }

    /** Closes the listener and removes the staging directory, as far as there are any. */
    method Unwind(k: nat)
      requires Valid() && k < |w.insts| && IsAborting(w.insts[k].pc) && FinalPath !in w.names
      modifies this
      ensures Valid() && OnlyActs(old(history), history, k) && Kept(old(w), w, k)
      ensures IsAt(w, k, AbortLock) && FinalPath !in w.names
    {
      if w.insts[k].pc.AbortListener? {
        UnwindOnce(k);
      }
      if w.insts[k].pc.AbortStaging? {
        UnwindOnce(k);
      }
    }

    /** From a clear path to a listening socket in a private directory. */
    method ListenStaged(k: nat) returns (ok: bool)
      requires Valid() && IsAt(w, k, PathClear) && FinalPath !in w.names
      modifies this
      ensures Valid() && OnlyActs(old(history), history, k) && Kept(old(w), w, k) && FinalPath !in w.names
      ensures if ok then IsAt(w, k, SockListening) else IsAborting(w.insts[k].pc)
      ensures Faultless(old(history), history) ==> ok
    {
      ok := Prepare(k, PathClear);      // MkdirTemp
      if ok {
        ok := Prepare(k, StagingMade);  // bind
        if ok {
          ok := Prepare(k, SockBound);  // listen
        }
      }
    }

    /** From there to the check before the rename. */
    method ReadyStaged(k: nat) returns (ok: bool)
      requires Valid() && IsAt(w, k, SockListening) && FinalPath !in w.names
      modifies this
      ensures Valid() && OnlyActs(old(history), history, k) && Kept(old(w), w, k) && FinalPath !in w.names
      ensures if ok then IsAt(w, k, PathFree) else IsAborting(w.insts[k].pc)
      ensures Faultless(old(history), history) ==> ok
    {
      ok := Prepare(k, SockListening);  // Lstat of the socket
      if ok {
        ok := Prepare(k, StagedSeen);   // Chmod
        if ok {
          ok := Prepare(k, ModeSet);    // Lstat of the path
        }
      }
    }

    /** Renames the socket to the path, if nothing is there by now. */
    method PublishReady(k: nat) returns (ok: bool)
      requires Valid() && IsAt(w, k, PathFree)
      modifies this
      ensures Valid() && OnlyActs(old(history), history, k) && Kept(old(w), w, k)
      ensures if ok then Serves(w, k) else IsAborting(w.insts[k].pc) && FinalPath !in w.names
      ensures Faultless(old(history), history) ==> ok
    {
      ok := Rename(k);
      if ok {
        Tidy(k);
      }
    }

    /** All calls before the rename. */
    method StageSocket(k: nat) returns (ok: bool)
      requires Valid() && IsAt(w, k, PathClear) && FinalPath !in w.names
      modifies this
      ensures Valid() && OnlyActs(old(history), history, k) && Kept(old(w), w, k) && FinalPath !in w.names
      ensures if ok then IsAt(w, k, PathFree) else IsAborting(w.insts[k].pc)
      ensures Faultless(old(history), history) ==> ok
    {
      ok := ListenStaged(k);
      if ok {
        ok := ReadyStaged(k);
      }
    }

    /** Publishes the socket at the path, which names nothing; where a call fails, it still names nothing afterwards. */
    method BindAndPublish(k: nat) returns (ok: bool)
      requires Valid() && IsAt(w, k, PathClear) && FinalPath !in w.names
      modifies this
      ensures Valid() && OnlyActs(old(history), history, k) && Kept(old(w), w, k)
      ensures if ok then Serves(w, k) else IsAt(w, k, AbortLock) && FinalPath !in w.names
      ensures Faultless(old(history), history) ==> ok
    {
      ok := StageSocket(k);
      if ok {
        ok := PublishReady(k);
      }
      if !ok {
        Unwind(k);
      }
    }

    /** Serves only if the lock is free and the path clearable, and then, no fault aside, does. Otherwise it gives up:
        the lock is held by whoever held it before, and the path is as it was, unless a fault came after it had been
        cleared of a stale socket. */
    method Listen(k: nat) returns (ok: bool)
      requires Valid() && IsAt(w, k, PC.Start)
      modifies this
      ensures Valid() && OnlyActs(old(history), history, k) && Kept(old(w), w, k)
      ensures ok ==> Serves(w, k) && LockHolder(old(w)).None? && IsClearable(old(w))
      ensures !ok ==>
                && IsAt(w, k, GaveUp) && LockHolder(w) == LockHolder(old(w))
                && (EntryKept(old(w), w) || (IsClearable(old(w)) && FinalPath !in w.names))
      ensures Faultless(old(history), history) ==>
                && (ok <==> LockHolder(old(w)).None? && IsClearable(old(w)))
                && (!ok ==> EntryKept(old(w), w))
    {
      ok := AcquireInstanceLock(k);
      if ok {
        ok := PublishLocked(k);
      }
    }

    /** What Listen does once it has the lock. */
    method PublishLocked(k: nat) returns (ok: bool)
      requires Valid() && IsAt(w, k, Locked)
      modifies this
      ensures Valid() && OnlyActs(old(history), history, k) && Kept(old(w), w, k)
      ensures ok ==> Serves(w, k) && IsClearable(old(w))
      ensures !ok ==>
                && IsAt(w, k, GaveUp) && LockHolder(w).None?
                && (EntryKept(old(w), w) || (IsClearable(old(w)) && FinalPath !in w.names))
      ensures Faultless(old(history), history) ==>
                && (ok <==> IsClearable(old(w))) && (!ok ==> EntryKept(old(w), w))
    {
      ok := RemoveStaleSocket(k);
      if ok {
        ok := BindAndPublish(k);
      }
      if !ok {
        LockIsHeld(history, w, k);
        CloseLockFile(k);
      }
    }

    method ShutListener(k: nat)
      requires Valid() && IsAt(w, k, Serving)
      modifies this
      ensures Valid() && OnlyActs(old(history), history, k) && Kept(old(w), w, k) && IsAt(w, k, ListenerShut)
      ensures SameEntry(old(w), w) && NamesOwn(w, k) == NamesOwn(old(w), k)
    {
      ShutAlone(w, k, true);
      ShutAlone(w, k, false);
      var _ := Do(k);
    }

    /** Unlinks the path if it still names this instance's socket; where a call fails, the entry stays. */
    method UnlinkOwn(k: nat)
      requires Valid() && IsAt(w, k, ListenerShut)
      modifies this
      ensures Valid() && OnlyActs(old(history), history, k) && Kept(old(w), w, k) && IsAt(w, k, Unlinked)
      ensures SameEntry(old(w), w) || (NamesOwn(old(w), k) && FinalPath !in w.names)
      ensures Faultless(old(history), history) && NamesOwn(old(w), k) ==> FinalPath !in w.names
    {
      LookAlone(w, k, true);
      LookAlone(w, k, false);
      var own := NamesOwn(w, k);
      var works := Do(k);
      if own && works {
        UnlinkAlone(w, k, true);
        UnlinkAlone(w, k, false);
        var _ := Do(k);
      }
    }

    /** Closes once: the listener first, then the path if it still names this instance's socket, and the lock last,
        whatever fails before. Closing again changes nothing. */
    method Close(k: nat)
      requires Valid() && (IsAt(w, k, Serving) || IsAt(w, k, Closed))
      modifies this
      ensures Valid() && OnlyActs(old(history), history, k) && IsAt(w, k, Closed)
      ensures IsAt(old(w), k, Closed) ==> w == old(w)
      ensures IsAt(old(w), k, Serving) ==>
                && LockHolder(old(w)) == Some(k) && LockHolder(w).None? && HasDeadSocket(w, k)
                && (SameEntry(old(w), w) || (NamesOwn(old(w), k) && FinalPath !in w.names))
                && (Faultless(old(history), history) && NamesOwn(old(w), k) ==> FinalPath !in w.names)
    {
      if w.insts[k].pc.Serving? {
        LockIsHeld(history, w, k);
        ShutListener(k);
        UnlinkOwn(k);
        LockIsHeld(history, w, k);
        CloseLockFile(k);
        ClosedIsDead(history, w, k);
      }
    }

    /** Crash recovery: when all instances are over, crashed anywhere or closed or having given up, and the path names
        nothing or a gangway socket, the next instance gets to serve unless one of its calls fails. */
    method Restart(mode: nat, umasked: nat) returns (k: nat, ok: bool)
      requires Valid() && ValidMode(mode) && AllOver(w)
      requires FinalPath !in w.names || (SocketAt(w, FinalPath) && w.inodes[w.names[FinalPath]].owner.Gangway?)
      modifies this
      ensures Valid() && k == |old(w).insts| && (ok ==> Serves(w, k) && w.insts[k].mode == mode)
      ensures Faultless(old(history), history) ==> ok
    {
      Reachable(history, w);
      OverIsRecoverable(w);
      k := Start(mode, umasked);
      assert LockHolder(w) == None && IsClearable(w);
      ok := Listen(k);
    }
  }

  // -------------------------------------------------- one system call at a time

  lemma Reachable(steps: seq<Step>, w: World)
    requires Run(INIT, steps, w)
    ensures Inv(w)
  {
    InitInv();
    RunKeepsInv(INIT, steps, w);
  }

  lemma HolderIsInLock(w: World)
    requires LockInv(w) && LockHolder(w).Some?
    ensures LockHolder(w).value < |w.insts| && InLock(w.insts[LockHolder(w).value].pc)
  {
    assert LockOk(w, LockHolder(w).value);
  }

  lemma LockIsHeld(steps: seq<Step>, w: World, k: nat)
    requires Run(INIT, steps, w) && k < |w.insts| && InLock(w.insts[k].pc)
    ensures LockHolder(w) == Some(k)
  {
    Reachable(steps, w);
    assert LockOk(w, k);
  }

  lemma NotTheHolder(steps: seq<Step>, w: World, k: nat)
    requires Run(INIT, steps, w) && k < |w.insts| && !InLock(w.insts[k].pc)
    ensures LockHolder(w) != Some(k)
  {
    Reachable(steps, w);
    assert LockOk(w, k);
  }

  lemma ClosedIsDead(steps: seq<Step>, w: World, k: nat)
    requires Run(INIT, steps, w) && IsAt(w, k, Closed)
    ensures HasDeadSocket(w, k)
  {
    Reachable(steps, w);
    assert SockOk(w, k);
  }

  /** Where no instance runs, nobody holds the lock and no gangway socket has a listener. */
  lemma OverIsRecoverable(w: World)
    requires Inv(w) && AllOver(w)
    requires FinalPath !in w.names || (SocketAt(w, FinalPath) && w.inodes[w.names[FinalPath]].owner.Gangway?)
    ensures LockHolder(w) == None && IsClearable(w)
  {
    if LockHolder(w).Some? {
      HolderIsInLock(w);
    }
    if SocketAt(w, FinalPath) {
      assert InodeOk(w, w.names[FinalPath]);
      assert SockOk(w, w.inodes[w.names[FinalPath]].owner.inst);
    }
  }

  lemma OpenCreates(w: World, k: nat)
    requires IsAt(w, k, PC.Start) && FilesInv(w) && LockInv(w)
    ensures var w' := Next(w, k, true);
            && IsAt(w', k, LockOpened) && Kept(w, w', k) && EntryKept(w, w') && LockHolder(w') == LockHolder(w)
  {
    StartStep(w, k);
    if FinalPath in w.names {
      assert NameOk(w, FinalPath) && InodeOk(w, w.names[FinalPath]);
    }
  }

  lemma OpenAlone(steps: seq<Step>, w: World, k: nat, ok: bool)
    requires Run(INIT, steps, w) && IsAt(w, k, PC.Start)
    ensures var w' := Next(w, k, ok);
            && IsAt(w', k, if ok then LockOpened else GaveUp) && Kept(w, w', k) && EntryKept(w, w')
            && LockHolder(w') == LockHolder(w)
  {
    Reachable(steps, w);
    if ok {
      OpenCreates(w, k);
    }
  }

  lemma FlockAlone(steps: seq<Step>, w: World, k: nat, ok: bool)
    requires Run(INIT, steps, w) && IsAt(w, k, LockOpened)
    ensures var w' := Next(w, k, ok); var taken := ok && LockHolder(w).None?;
            && LockIsFree(w, k) == LockHolder(w).None?
            && IsAt(w', k, if taken then Locked else AbortFd) && Kept(w, w', k) && EntryKept(w, w')
            && LockHolder(w') == if taken then Some(k) else LockHolder(w)
  {
    Reachable(steps, w);
    assert LockOk(w, k);
  }

  lemma DropStep(w: World, k: nat, ok: bool)
    requires k < |w.insts| && (w.insts[k].pc.AbortFd? || w.insts[k].pc.AbortLock? || w.insts[k].pc.Unlinked?)
    ensures Next(w, k, ok) == Go(Unlock(w, k), k, AfterDrop(w.insts[k].pc))
  {
  }

  lemma DropAlone(steps: seq<Step>, w: World, k: nat, pc: PC)
    requires Run(INIT, steps, w) && k < |w.insts|
    ensures var w' := Go(Unlock(w, k), k, pc);
            && IsAt(w', k, pc) && Kept(w, w', k) && EntryKept(w, w')
            && LockHolder(w') == if LockHolder(w) == Some(k) then None else LockHolder(w)
  {
    Reachable(steps, w);
  }

  lemma SeeAlone(w: World, k: nat, ok: bool)
    requires IsAt(w, k, Locked)
    ensures var w' := Next(w, k, ok);
            && Kept(w, w', k) && EntryKept(w, w')
            && IsAt(w', k, if ok && FinalPath !in w.names then PathClear
                           else if ok && SocketAt(w, FinalPath) then StaleSeen else AbortLock)
            && (w'.insts[k].pc.StaleSeen? ==> NamesSeen(w', k))
  {
  }

  lemma DialAlone(w: World, k: nat, ok: bool)
    requires IsAt(w, k, StaleSeen) && NamesSeen(w, k)
    ensures var w' := Next(w, k, ok);
            && Kept(w, w', k) && EntryKept(w, w') && NamesSeen(w', k)
            && IsAt(w', k, if ok && !ListeningAt(w, FinalPath) then StaleRefused else AbortLock)
  {
  }

  lemma RecheckAlone(w: World, k: nat, ok: bool)
    requires IsAt(w, k, StaleRefused) && NamesSeen(w, k)
    ensures var w' := Next(w, k, ok);
            Kept(w, w', k) && EntryKept(w, w') && IsAt(w', k, if ok then StaleChecked else AbortLock)
  {
  }

  lemma RemoveAlone(w: World, k: nat, ok: bool)
    requires IsAt(w, k, StaleChecked)
    ensures var w' := Next(w, k, ok);
            && Kept(w, w', k)
            && if ok then IsAt(w', k, PathClear) && FinalPath !in w'.names
               else IsAt(w', k, AbortLock) && EntryKept(w, w')
  {
  }

  lemma PrepareAlone(w: World, k: nat, ok: bool)
    requires k < |w.insts| && IsPreparing(w.insts[k].pc) && FinalPath !in w.names
    ensures var w' := Next(w, k, ok);
            && Kept(w, w', k) && FinalPath !in w'.names
            && if ok then IsAt(w', k, AfterPreparing(w.insts[k].pc)) else IsAborting(w'.insts[k].pc)
  {
  }

  /** With its socket as it should be and nothing at the path, an instance's rename makes the path its own. */
  lemma RenameReadies(w: World, k: nat, ok: bool)
    requires IsAt(w, k, PathFree) && SockOk(w, k) && FinalPath !in w.names
    ensures var w' := Next(w, k, ok);
            && Kept(w, w', k)
            && if ok then IsAt(w', k, Published) && NamesReady(w', k)
               else IsAt(w', k, AbortListener) && FinalPath !in w'.names
  {
  }

  lemma RenameAlone(steps: seq<Step>, w: World, k: nat, ok: bool)
    requires Run(INIT, steps, w) && IsAt(w, k, PathFree)
    ensures var w' := Next(w, k, ok);
            && Kept(w, w', k)
            && if ok then IsAt(w', k, Published) && NamesReady(w', k)
               else IsAt(w', k, AbortListener) && FinalPath !in w'.names
  {
    Reachable(steps, w);
    assert CheckOk(w, k) && SockOk(w, k);
    RenameReadies(w, k, ok);
  }

  lemma TidyAlone(w: World, k: nat, ok: bool)
    requires IsAt(w, k, Published) && NamesReady(w, k)
    ensures var w' := Next(w, k, ok); Kept(w, w', k) && Serves(w', k)
  {
  }

  lemma UnwindAlone(w: World, k: nat, ok: bool)
    requires k < |w.insts| && (w.insts[k].pc.AbortListener? || w.insts[k].pc.AbortStaging?) && FinalPath !in w.names
    ensures var w' := Next(w, k, ok);
            && Kept(w, w', k) && FinalPath !in w'.names
            && IsAt(w', k, if w.insts[k].pc.AbortListener? then AbortStaging else AbortLock)
  {
  }

  lemma ShutAlone(w: World, k: nat, ok: bool)
    requires IsAt(w, k, Serving)
    ensures var w' := Next(w, k, ok);
            IsAt(w', k, ListenerShut) && Kept(w, w', k) && w'.names == w.names && w'.insts[k].sock == w.insts[k].sock
  {
  }

  lemma LookAlone(w: World, k: nat, ok: bool)
    requires IsAt(w, k, ListenerShut)
    ensures var w' := Next(w, k, ok);
            && IsAt(w', k, if ok && NamesOwn(w, k) then OwnSeen else Unlinked) && Kept(w, w', k)
            && w'.names == w.names && w'.insts[k].sock == w.insts[k].sock
  {
  }

  lemma UnlinkAlone(w: World, k: nat, ok: bool)
    requires IsAt(w, k, OwnSeen)
    ensures var w' := Next(w, k, ok);
            && IsAt(w', k, Unlinked) && Kept(w, w', k) && if ok then FinalPath !in w'.names else w'.names == w.names
  {
  }
}
