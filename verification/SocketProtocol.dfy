/** The publication protocol of internal/gangway/socket.go: any number of instances contend for one pathname through a
    lock file, a probe of a stale socket, a staged bind, a rename, and an unlink that checks the inode.

    Each step is one system call of one instance, a crash, or a step of some other program. A crash closes the
    instance's descriptors, which ends its listener and releases its lock, and leaves every file behind. Inode
    numbers are never reused. Other programs may unlink the path, or bind and listen on it, but they do not change
    what an instance has just checked before it has acted on that check (`NameRely` and `ListenRely`), and they leave
    the lock file alone. */
module SocketProtocol {
  import opened Text

  datatype Name = FinalPath | LockPath | StagedPath(inst: nat)

  datatype Owner = Gangway(inst: nat) | Foreign

  datatype Phase = Bound | Listening | Dead

  datatype Inode = LockFile | OtherFile | Socket(owner: Owner, mode: nat, phase: Phase)

  /** Where an instance stands between two system calls. */
  datatype PC =
    | Start
    | LockOpened    // has the lock file open
    | Locked        // holds the lock; the path comes next
    | StaleSeen     // has found a socket at the path
    | StaleRefused  // has been refused a connection
    | StaleChecked  // has found the same socket again
    | PathClear     // nothing stands in the way
    | StagingMade   // has a private directory
    | SockBound     // has bound a socket in it
    | SockListening // and listens on it
    | StagedSeen    // has noted its inode
    | ModeSet       // and set its mode
    | PathFree      // has found nothing at the path
    | Published     // has renamed the socket there
    | Serving
    | ListenerShut  // closing: no longer listens
    | OwnSeen       // has found its own inode at the path
    | Unlinked      // is done with the path
    | AbortListener | AbortStaging | AbortLock | AbortFd
    | GaveUp | Closed | Crashed

  datatype Inst = Inst(mode: nat, umasked: nat, pc: PC, lockFd: Option<nat>, seen: nat, sock: Option<nat>)

  datatype World = World(names: map<Name, nat>, inodes: map<nat, Inode>, nextIno: nat, holders: map<nat, nat>,
                         insts: seq<Inst>)

  datatype Step =
    | Spawn(mode: nat, umasked: nat)
    | Act(k: nat, ok: bool)  // the next system call of instance `k`; it fails if not `ok`
    | Crash(k: nat)
    | ForeignBind(mode: nat)
    | ForeignListen(ino: nat)
    | ForeignClose(ino: nat)
    | ForeignCreate
    | ForeignUnlink

  const INIT := World(map[], map[], 0, map[], [])

  /** 0600 and 0660. */
  predicate ValidMode(mode: nat) {
    mode == 0x180 || mode == 0x1B0
  }

  /** `removeStaleSocket`. */
  predicate InStale(pc: PC) {
    pc.Locked? || pc.StaleSeen? || pc.StaleRefused? || pc.StaleChecked?
  }

  /** `bindAndPublish`, with its deferred removal of the staging directory and its failures. */
  predicate InPublish(pc: PC) {
    pc.PathClear? || pc.StagingMade? || pc.SockBound? || pc.SockListening? || pc.StagedSeen? || pc.ModeSet? ||
    pc.PathFree? || pc.Published? || pc.AbortListener? || pc.AbortStaging?
  }

  /** `unixListener.Close`, and the release of the lock that `Listen` defers. */
  predicate InClose(pc: PC) {
    pc.Serving? || pc.ListenerShut? || pc.OwnSeen? || pc.Unlinked? || pc.AbortLock?
  }

  /** The instance is between a successful flock and closing its lock. */
  predicate InLock(pc: PC) {
    InStale(pc) || InPublish(pc) || InClose(pc)
  }

  predicate IsOver(pc: PC) {
    pc.GaveUp? || pc.Closed? || pc.Crashed?
  }

  /** Nobody stands between a check of what the path names and the act that relies on it. */
  predicate NameRely(w: World) {
    forall k :: 0 <= k < |w.insts| ==>
      !w.insts[k].pc.StaleChecked? && !w.insts[k].pc.PathFree? && !w.insts[k].pc.OwnSeen?
  }

  /** Nobody stands between a refused connection and the removal that relies on it. */
  predicate ListenRely(w: World) {
    forall k :: 0 <= k < |w.insts| ==> !w.insts[k].pc.StaleRefused? && !w.insts[k].pc.StaleChecked?
  }

  predicate IsSocket(w: World, ino: nat) {
    ino in w.inodes && w.inodes[ino].Socket?
  }

  predicate IsForeignSocket(w: World, ino: nat) {
    ino in w.inodes && w.inodes[ino].Socket? && w.inodes[ino].owner.Foreign?
  }

  predicate Enabled(w: World, step: Step) {
    match step
    case Spawn(mode, _) => ValidMode(mode)
    case Act(k, _) => k < |w.insts| && !IsOver(w.insts[k].pc)
    case Crash(k) => k < |w.insts| && !IsOver(w.insts[k].pc)
    case ForeignBind(_) => NameRely(w) && FinalPath !in w.names
    case ForeignListen(ino) => ListenRely(w) && IsForeignSocket(w, ino) && w.inodes[ino].phase.Bound?
    case ForeignClose(ino) => IsForeignSocket(w, ino)
    case ForeignCreate => NameRely(w) && FinalPath !in w.names
    case ForeignUnlink => NameRely(w) && FinalPath in w.names
  }

  // ------------------------------------------------------------- system calls

  predicate SocketAt(w: World, name: Name) {
    name in w.names && w.names[name] in w.inodes && w.inodes[w.names[name]].Socket?
  }

  predicate ListeningAt(w: World, name: Name) {
    SocketAt(w, name) && w.inodes[w.names[name]].phase.Listening?
  }

  predicate NamesSeen(w: World, k: nat)
    requires k < |w.insts|
  {
    FinalPath in w.names && w.names[FinalPath] == w.insts[k].seen
  }

  predicate NamesOwn(w: World, k: nat)
    requires k < |w.insts|
  {
    FinalPath in w.names && w.insts[k].sock == Some(w.names[FinalPath])
  }

  predicate LockIsFree(w: World, k: nat)
    requires k < |w.insts|
  {
    w.insts[k].lockFd.Some? && w.insts[k].lockFd.value !in w.holders
  }

  /** What a system call changes. */
  datatype Effect = Nothing | OpenLockFile | TakeLock | DropLock | NoteSeen | Unlink(name: Name) | BindStaged
                  | SetPhase(phase: Phase) | Chmod | RenameStaged

  /** The next system call of instance `k` in `acquireInstanceLock`: what it changes, and where it leads. */
  function Acquiring(w: World, k: nat, ok: bool): (Effect, PC)
    requires k < |w.insts|
  {
    match w.insts[k].pc
    case Start => if ok then (OpenLockFile, LockOpened) else (Nothing, GaveUp)
    case LockOpened => if ok && LockIsFree(w, k) then (TakeLock, Locked) else (Nothing, AbortFd)
    case AbortFd => (DropLock, GaveUp)
    case pc => (Nothing, pc)
  }

  /** In `removeStaleSocket`. */
  function RemovingStale(w: World, k: nat, ok: bool): (Effect, PC)
    requires k < |w.insts|
  {
    match w.insts[k].pc
    case Locked =>
      if !ok then (Nothing, AbortLock)
      else if FinalPath !in w.names then (Nothing, PathClear)
      else if SocketAt(w, FinalPath) then (NoteSeen, StaleSeen)
      else (Nothing, AbortLock)
    // A connection to anything but a listening socket is refused; to a path that names nothing it fails otherwise.
    case StaleSeen =>
      (Nothing, if ok && FinalPath in w.names && !ListeningAt(w, FinalPath) then StaleRefused else AbortLock)
    case StaleRefused => (Nothing, if ok && NamesSeen(w, k) then StaleChecked else AbortLock)
    case StaleChecked => if ok then (Unlink(FinalPath), PathClear) else (Nothing, AbortLock)
    case pc => (Nothing, pc)
  }

  /** In `bindAndPublish`. */
  function Publishing(w: World, k: nat, ok: bool): (Effect, PC)
    requires k < |w.insts|
  {
    match w.insts[k].pc
    case PathClear => (Nothing, if ok then StagingMade else AbortLock)
    case StagingMade => if ok then (BindStaged, SockBound) else (Nothing, AbortStaging)
    case SockBound => if ok then (SetPhase(Listening), SockListening) else (Nothing, AbortListener)
    case SockListening => (Nothing, if ok then StagedSeen else AbortListener)
    case StagedSeen => if ok then (Chmod, ModeSet) else (Nothing, AbortListener)
    case ModeSet => (Nothing, if ok && FinalPath !in w.names then PathFree else AbortListener)
    case PathFree => if ok then (RenameStaged, Published) else (Nothing, AbortListener)
    case Published => (Unlink(StagedPath(k)), Serving)
    case AbortListener => (SetPhase(Dead), AbortStaging)
    case AbortStaging => (Unlink(StagedPath(k)), AbortLock)
    case pc => (Nothing, pc)
  }

  /** In `unixListener.Close`, or in the deferred release of the lock. */
  function Closing(w: World, k: nat, ok: bool): (Effect, PC)
    requires k < |w.insts|
  {
    match w.insts[k].pc
    case Serving => (SetPhase(Dead), ListenerShut)
    case ListenerShut => (Nothing, if ok && NamesOwn(w, k) then OwnSeen else Unlinked)
    case OwnSeen => (if ok then Unlink(FinalPath) else Nothing, Unlinked)
    case Unlinked => (DropLock, Closed)
    case AbortLock => (DropLock, GaveUp)
    case pc => (Nothing, pc)
  }

  function Call(w: World, k: nat, ok: bool): (Effect, PC)
    requires k < |w.insts|
  {
    var pc := w.insts[k].pc;
    if InStale(pc) then RemovingStale(w, k, ok)
    else if InPublish(pc) then Publishing(w, k, ok)
    else if InClose(pc) then Closing(w, k, ok)
    else Acquiring(w, k, ok)
  }

  /** A new inode under a name. */
  function Create(w: World, name: Name, inode: Inode): World {
    World(w.names[name := w.nextIno], w.inodes[w.nextIno := inode], w.nextIno + 1, w.holders, w.insts)
  }

  /** A socket with another inode content. */
  function PutPhase(w: World, ino: nat, phase: Phase): World {
    if IsSocket(w, ino) then w.(inodes := w.inodes[ino := w.inodes[ino].(phase := phase)]) else w
  }

  function PutMode(w: World, ino: nat, mode: nat): World {
    if IsSocket(w, ino) then w.(inodes := w.inodes[ino := w.inodes[ino].(mode := mode)]) else w
  }

  function PutInst(w: World, k: nat, inst: Inst): World
    requires k < |w.insts|
  {
    w.(insts := w.insts[k := inst])
  }

  /** Closing the descriptor releases the lock if the instance held it. */
  function Unlock(w: World, k: nat): World
    requires k < |w.insts|
  {
    var held := set ino | ino in w.holders && w.holders[ino] == k;
    PutInst(w, k, w.insts[k].(lockFd := None)).(holders := w.holders - held)
  }

  function Perform(w: World, k: nat, e: Effect): World
    requires k < |w.insts|
  {
    var inst := w.insts[k];
    match e
    case Nothing => w
    case OpenLockFile =>
      var w' := if LockPath in w.names then w else Create(w, LockPath, LockFile);
      PutInst(w', k, inst.(lockFd := Some(w'.names[LockPath])))
    case TakeLock => if inst.lockFd.Some? then w.(holders := w.holders[inst.lockFd.value := k]) else w
    case DropLock => Unlock(w, k)
    case NoteSeen => if FinalPath in w.names then PutInst(w, k, inst.(seen := w.names[FinalPath])) else w
    case Unlink(name) => w.(names := w.names - {name})
    case BindStaged =>
      PutInst(Create(w, StagedPath(k), Socket(Gangway(k), inst.umasked, Bound)), k, inst.(sock := Some(w.nextIno)))
    case SetPhase(phase) => if inst.sock.Some? then PutPhase(w, inst.sock.value, phase) else w
    case Chmod => if inst.sock.Some? then PutMode(w, inst.sock.value, inst.mode) else w
    case RenameStaged =>
      if StagedPath(k) in w.names then
        w.(names := w.names[FinalPath := w.names[StagedPath(k)]] - {StagedPath(k)})
      else w
  }

  function Go(w: World, k: nat, pc: PC): World
    requires k < |w.insts|
  {
    PutInst(w, k, w.insts[k].(pc := pc))
  }

  function Next(w: World, k: nat, ok: bool): World
    requires k < |w.insts|
  {
    var (effect, pc) := Call(w, k, ok);
    Go(Perform(w, k, effect), k, pc)
  }

  function CrashOf(w: World, k: nat): World
    requires k < |w.insts|
  {
    Go(Perform(Perform(w, k, SetPhase(Dead)), k, DropLock), k, Crashed)
  }

  function Apply(w: World, step: Step): World
    requires Enabled(w, step)
  {
    match step
    case Spawn(mode, umasked) => w.(insts := w.insts + [Inst(mode, umasked, Start, None, 0, None)])
    case Act(k, ok) => Next(w, k, ok)
    case Crash(k) => CrashOf(w, k)
    case ForeignBind(mode) => Create(w, FinalPath, Socket(Foreign, mode, Bound))
    case ForeignListen(ino) => PutPhase(w, ino, Listening)
    case ForeignClose(ino) => PutPhase(w, ino, Dead)
    case ForeignCreate => Create(w, FinalPath, OtherFile)
    case ForeignUnlink => w.(names := w.names - {FinalPath})
  }

  ghost predicate Run(w: World, steps: seq<Step>, w': World)
    decreases |steps|
  {
    if steps == [] then w == w'
    else Enabled(w, steps[0]) && Run(Apply(w, steps[0]), steps[1..], w')
  }

  // ---------------------------------------------------------- the lock invariant

  /** Who holds the lock on the file that the lock path names. */
  function LockHolder(w: World): Option<nat> {
    if LockPath in w.names && w.names[LockPath] in w.holders then Some(w.holders[w.names[LockPath]]) else None
  }

  /** A descriptor is for the file the lock path names, and the holder of its lock is the instance in the lock. */
  ghost predicate LockOk(w: World, k: nat)
    requires k < |w.insts|
  {
    var inst := w.insts[k];
    && (inst.lockFd.Some? ==> LockPath in w.names && inst.lockFd.value == w.names[LockPath])
    && (InLock(inst.pc) <==> LockHolder(w) == Some(k))
    && (InLock(inst.pc) || inst.pc.LockOpened? ==> inst.lockFd.Some?)
  }

  ghost predicate LockInv(w: World) {
    && (forall k :: 0 <= k < |w.insts| ==> LockOk(w, k))
    && (LockHolder(w).Some? ==> LockHolder(w).value < |w.insts|)
    && (forall ino :: ino in w.holders ==> LockPath in w.names && ino == w.names[LockPath])
  }

  predicate IsLockEffect(e: Effect) {
    e.OpenLockFile? || e.TakeLock? || e.DropLock? || e == Unlink(LockPath)
  }

  /** Where a system call leads, as far as the lock is concerned. */
  lemma CallAndLock(w: World, k: nat, ok: bool)
    requires k < |w.insts|
    ensures var (e, pc') := Call(w, k, ok); var pc := w.insts[k].pc;
            && e != Unlink(LockPath)
            && (!IsLockEffect(e) ==> InLock(pc') == InLock(pc) && (pc'.LockOpened? ==> pc.LockOpened?))
            && (e.OpenLockFile? ==> pc.Start? && pc'.LockOpened?)
            && (e.TakeLock? ==> pc.LockOpened? && pc'.Locked? && LockIsFree(w, k))
            && (e.DropLock? ==> !InLock(pc') && !pc'.LockOpened?)
  {
  }

  /** Neither the lock file nor any lock, nor the descriptors of any instance have changed. */
  ghost predicate LockFrame(w: World, w': World) {
    && w'.holders == w.holders && |w'.insts| == |w.insts|
    && (LockPath in w'.names <==> LockPath in w.names)
    && (LockPath in w.names ==> w'.names[LockPath] == w.names[LockPath])
    && forall j :: 0 <= j < |w.insts| ==> w'.insts[j].lockFd == w.insts[j].lockFd && w'.insts[j].pc == w.insts[j].pc
  }

  lemma PerformLockFrame(w: World, k: nat, e: Effect)
    requires k < |w.insts| && !IsLockEffect(e)
    ensures LockFrame(w, Perform(w, k, e))
  {
  }

  lemma LockFrameGo(w: World, w1: World, k: nat, pc: PC)
    requires LockInv(w) && LockFrame(w, w1) && k < |w.insts|
    requires InLock(pc) == InLock(w.insts[k].pc) && (pc.LockOpened? ==> w.insts[k].pc.LockOpened?)
    ensures LockInv(Go(w1, k, pc))
  {
    var w' := Go(w1, k, pc);
    assert LockHolder(w') == LockHolder(w);
    forall j | 0 <= j < |w.insts|
      ensures LockOk(w', j)
    {
      assert LockOk(w, j);
    }
  }

  lemma OpenKeepsLock(w: World, k: nat)
    requires LockInv(w) && k < |w.insts| && w.insts[k].pc.Start?
    ensures LockInv(Go(Perform(w, k, OpenLockFile), k, LockOpened))
  {
    var w' := Go(Perform(w, k, OpenLockFile), k, LockOpened);
    assert LockHolder(w') == LockHolder(w);
    forall j | 0 <= j < |w.insts|
      ensures LockOk(w', j)
    {
      assert LockOk(w, j);
    }
  }

  lemma TakeKeepsLock(w: World, k: nat)
    requires LockInv(w) && k < |w.insts| && w.insts[k].pc.LockOpened? && LockIsFree(w, k)
    ensures LockInv(Go(Perform(w, k, TakeLock), k, Locked))
  {
    var w' := Go(Perform(w, k, TakeLock), k, Locked);
    assert LockOk(w, k);
    assert LockHolder(w) == None && LockHolder(w') == Some(k);
    forall j | 0 <= j < |w.insts|
      ensures LockOk(w', j)
    {
      assert LockOk(w, j);
    }
  }

  lemma DropKeepsLock(w: World, k: nat, pc: PC)
    requires LockInv(w) && k < |w.insts| && !InLock(pc) && !pc.LockOpened?
    ensures LockInv(Go(Perform(w, k, DropLock), k, pc))
  {
    var w' := Go(Perform(w, k, DropLock), k, pc);
    assert LockHolder(w') == if LockHolder(w) == Some(k) then None else LockHolder(w);
    forall j | 0 <= j < |w.insts|
      ensures LockOk(w', j)
    {
      assert LockOk(w, j);
    }
  }

  lemma ActKeepsLock(w: World, k: nat, ok: bool)
    requires LockInv(w) && k < |w.insts|
    ensures LockInv(Next(w, k, ok))
  {
    var (e, pc) := Call(w, k, ok);
    CallAndLock(w, k, ok);
    if e.OpenLockFile? {
      OpenKeepsLock(w, k);
    } else if e.TakeLock? {
      TakeKeepsLock(w, k);
    } else if e.DropLock? {
      DropKeepsLock(w, k, pc);
    } else {
      PerformLockFrame(w, k, e);
      LockFrameGo(w, Perform(w, k, e), k, pc);
    }
  }

  lemma LockFrameKeeps(w: World, w': World)
    requires LockInv(w) && LockFrame(w, w')
    ensures LockInv(w')
  {
    assert LockHolder(w') == LockHolder(w);
    forall j | 0 <= j < |w.insts|
      ensures LockOk(w', j)
    {
      assert LockOk(w, j);
    }
  }

  lemma LockStep(w: World, step: Step)
    requires LockInv(w) && Enabled(w, step)
    ensures LockInv(Apply(w, step))
  {
    match step
    case Spawn(_, _) =>
      var w' := Apply(w, step);
      assert LockHolder(w') == LockHolder(w);
      forall j | 0 <= j < |w'.insts|
        ensures LockOk(w', j)
      {
        assert j < |w.insts| ==> LockOk(w, j);
      }
    case Act(k, ok) =>
      ActKeepsLock(w, k, ok);
    case Crash(k) =>
      PerformLockFrame(w, k, SetPhase(Dead));
      LockFrameKeeps(w, Perform(w, k, SetPhase(Dead)));
      DropKeepsLock(Perform(w, k, SetPhase(Dead)), k, Crashed);
    case _ =>
      LockFrameKeeps(w, Apply(w, step));
  }

  // -------------------------------------------------------- the socket invariant

  /** The instance has not come to its bind. */
  predicate BeforeBind(pc: PC) {
    pc.Start? || pc.LockOpened? || pc.AbortFd? || InStale(pc) || pc.PathClear? || pc.StagingMade?
  }

  predicate HasSock(pc: PC) {
    InStaging(pc) || Renamed(pc) || pc.AbortListener?
  }

  /** Its socket is in its private directory. */
  predicate InStaging(pc: PC) {
    pc.SockBound? || pc.SockListening? || pc.StagedSeen? || pc.ModeSet? || pc.PathFree?
  }

  /** It has renamed its socket to the path, and has not crashed. */
  predicate Renamed(pc: PC) {
    pc.Published? || pc.Serving? || pc.ListenerShut? || pc.OwnSeen? || pc.Unlinked? || pc.Closed?
  }

  predicate HasMode(pc: PC) {
    pc.ModeSet? || pc.PathFree? || Renamed(pc)
  }

  /** The phases the socket of an instance can be in. */
  predicate PhaseOk(pc: PC, phase: Phase) {
    if BeforeBind(pc) then false
    else if pc.SockBound? then phase.Bound?
    else if InStaging(pc) || pc.Published? || pc.Serving? then phase.Listening?
    else pc.AbortListener? || phase.Dead?
  }

  ghost predicate SockOk(w: World, k: nat)
    requires k < |w.insts|
  {
    var inst := w.insts[k];
    && (BeforeBind(inst.pc) ==> inst.sock.None?)
    && (HasSock(inst.pc) ==> inst.sock.Some?)
    && (inst.sock.Some? ==>
          && inst.sock.value in w.inodes
          && var inode := w.inodes[inst.sock.value];
             && inode.Socket? && inode.owner == Gangway(k)
             && PhaseOk(inst.pc, inode.phase)
             && (HasMode(inst.pc) ==> inode.mode == inst.mode))
    && (InStaging(inst.pc) ==> StagedPath(k) in w.names && Some(w.names[StagedPath(k)]) == inst.sock)
  }

  /** An inode belongs to the instance it says, and to no other. */
  ghost predicate InodeOk(w: World, ino: nat)
    requires ino in w.inodes
  {
    && ino < w.nextIno
    && (w.inodes[ino].Socket? && w.inodes[ino].owner.Gangway? ==>
          var k := w.inodes[ino].owner.inst; k < |w.insts| && w.insts[k].sock == Some(ino))
  }

  ghost predicate NameOk(w: World, name: Name)
    requires name in w.names
  {
    && w.names[name] in w.inodes
    && (name.LockPath? ==> w.inodes[w.names[name]].LockFile?)
    && (name.StagedPath? ==> name.inst < |w.insts| && w.insts[name.inst].sock == Some(w.names[name]))
  }

  /** A gangway socket at the path has the mode it was asked to have, and is not one that never listened; its instance
      has published it. */
  ghost predicate FinalOk(w: World) {
    SocketAt(w, FinalPath) && w.inodes[w.names[FinalPath]].owner.Gangway? ==>
      var inode := w.inodes[w.names[FinalPath]]; var k := inode.owner.inst;
      && k < |w.insts| && inode.mode == w.insts[k].mode && !inode.phase.Bound?
      && (Renamed(w.insts[k].pc) || w.insts[k].pc.Crashed?)
  }

  /** What an instance has checked still holds. */
  ghost predicate CheckOk(w: World, k: nat)
    requires k < |w.insts|
  {
    var pc := w.insts[k].pc;
    && (pc.StaleSeen? || pc.StaleRefused? || pc.StaleChecked? ==> IsSocket(w, w.insts[k].seen))
    && (pc.StaleRefused? && NamesSeen(w, k) ==> SocketAt(w, FinalPath) && !ListeningAt(w, FinalPath))
    && (pc.StaleChecked? ==> NamesSeen(w, k) && SocketAt(w, FinalPath) && !ListeningAt(w, FinalPath))
    && (pc.PathFree? ==> FinalPath !in w.names)
    && (pc.OwnSeen? ==> NamesOwn(w, k))
  }

  ghost predicate FilesInv(w: World) {
    && (forall ino :: ino in w.inodes ==> InodeOk(w, ino))
    && (forall name :: name in w.names ==> NameOk(w, name))
  }

  ghost predicate SocksInv(w: World) {
    forall k :: 0 <= k < |w.insts| ==> SockOk(w, k)
  }

  ghost predicate ChecksInv(w: World) {
    forall k :: 0 <= k < |w.insts| ==> CheckOk(w, k)
  }

  ghost predicate Inv(w: World) {
    LockInv(w) && FilesInv(w) && SocksInv(w) && FinalOk(w) && ChecksInv(w)
  }

  /** Effects that touch neither a socket nor a staging directory. */
  predicate IsPassive(e: Effect) {
    e.Nothing? || e.OpenLockFile? || e.TakeLock? || e.DropLock? || e.NoteSeen? || e == Unlink(FinalPath)
  }

  /** Moving on without touching the socket keeps what is known of it. */
  predicate SockFits(pc: PC, pc': PC) {
    && (BeforeBind(pc') ==> BeforeBind(pc))
    && (HasSock(pc') ==> HasSock(pc))
    && (InStaging(pc') ==> InStaging(pc))
    && (HasMode(pc') ==> HasMode(pc))
    && (PhaseOk(pc, Bound) ==> PhaseOk(pc', Bound))
    && (PhaseOk(pc, Listening) ==> PhaseOk(pc', Listening))
    && (PhaseOk(pc, Dead) ==> PhaseOk(pc', Dead))
  }

  /** Where a system call with effect `e` leads, as far as the instance's socket is concerned. */
  predicate SockMove(k: nat, e: Effect, pc: PC, pc': PC) {
    && (Renamed(pc) ==> Renamed(pc'))
    && match e
       case BindStaged => pc.StagingMade? && pc'.SockBound?
       case SetPhase(Listening) => pc.SockBound? && pc'.SockListening?
       case SetPhase(Dead) => (pc.AbortListener? && pc'.AbortStaging?) || (pc.Serving? && pc'.ListenerShut?)
       case SetPhase(Bound) => false
       case Chmod => pc.StagedSeen? && pc'.ModeSet?
       case RenameStaged => pc.PathFree? && pc'.Published?
       case Unlink(name) => SockFits(pc, pc') && (name == FinalPath || (name == StagedPath(k) && !InStaging(pc')))
       case _ => SockFits(pc, pc')
  }

  lemma AcquiringSock(w: World, k: nat, ok: bool)
    requires k < |w.insts| && !InLock(w.insts[k].pc)
    ensures var (e, pc) := Acquiring(w, k, ok); SockMove(k, e, w.insts[k].pc, pc)
  {
  }

  lemma StaleSock(w: World, k: nat, ok: bool)
    requires k < |w.insts| && InStale(w.insts[k].pc)
    ensures var (e, pc) := RemovingStale(w, k, ok); SockMove(k, e, w.insts[k].pc, pc)
  {
  }

  /** The calls of `bindAndPublish` that make the socket. */
  predicate IsMakingSock(pc: PC) {
    pc.PathClear? || pc.StagingMade? || pc.SockBound? || pc.SockListening? || pc.StagedSeen?
  }

  lemma MakingSock(w: World, k: nat, ok: bool)
    requires k < |w.insts| && IsMakingSock(w.insts[k].pc)
    ensures var (e, pc) := Publishing(w, k, ok); SockMove(k, e, w.insts[k].pc, pc)
  {
  }

  lemma ShowingSock(w: World, k: nat, ok: bool)
    requires k < |w.insts| && InPublish(w.insts[k].pc) && !IsMakingSock(w.insts[k].pc)
    ensures var (e, pc) := Publishing(w, k, ok); SockMove(k, e, w.insts[k].pc, pc)
  {
  }

  lemma PublishingSock(w: World, k: nat, ok: bool)
    requires k < |w.insts| && InPublish(w.insts[k].pc)
    ensures var (e, pc) := Publishing(w, k, ok); SockMove(k, e, w.insts[k].pc, pc)
  {
    if IsMakingSock(w.insts[k].pc) {
      MakingSock(w, k, ok);
    } else {
      ShowingSock(w, k, ok);
    }
  }

  lemma ClosingSock(w: World, k: nat, ok: bool)
    requires k < |w.insts| && InClose(w.insts[k].pc)
    ensures var (e, pc) := Closing(w, k, ok); SockMove(k, e, w.insts[k].pc, pc)
  {
  }

  lemma CallAndSock(w: World, k: nat, ok: bool)
    requires k < |w.insts|
    ensures var (e, pc) := Call(w, k, ok); SockMove(k, e, w.insts[k].pc, pc)
  {
    var pc := w.insts[k].pc;
    if InStale(pc) {
      StaleSock(w, k, ok);
    } else if InPublish(pc) {
      PublishingSock(w, k, ok);
    } else if InClose(pc) {
      ClosingSock(w, k, ok);
    } else {
      AcquiringSock(w, k, ok);
    }
  }

  // ------------------------------------------------------------ sockets, step by step

  /** The socket of `j`, its inode and its staging entry are as they were. */
  ghost predicate SockFrame(w: World, w': World, j: nat) {
    && j < |w.insts| && j < |w'.insts| && w'.insts[j].sock == w.insts[j].sock && w'.insts[j].mode == w.insts[j].mode
    && (w.insts[j].sock.Some? && w.insts[j].sock.value in w.inodes ==>
          w.insts[j].sock.value in w'.inodes && w'.inodes[w.insts[j].sock.value] == w.inodes[w.insts[j].sock.value])
    && (StagedPath(j) in w.names ==> StagedPath(j) in w'.names && w'.names[StagedPath(j)] == w.names[StagedPath(j)])
  }

  lemma SockFrameKeeps(w: World, w': World, j: nat)
    requires SockFrame(w, w', j) && SockOk(w, j) && SockFits(w.insts[j].pc, w'.insts[j].pc)
    ensures SockOk(w', j)
  {
  }

  lemma PerformOther(w: World, k: nat, e: Effect, j: nat)
    requires k < |w.insts| && j < |w.insts| && j != k && FilesInv(w) && SockOk(w, j) && SockOk(w, k)
    requires e != Unlink(StagedPath(j))
    ensures SockFrame(w, Perform(w, k, e), j) && Perform(w, k, e).insts[j] == w.insts[j]
  {
    if w.insts[j].sock.Some? {
      assert InodeOk(w, w.insts[j].sock.value);
    }
  }

  lemma PassiveOwn(w: World, k: nat, e: Effect)
    requires k < |w.insts| && FilesInv(w) && SockOk(w, k) && IsPassive(e)
    ensures SockFrame(w, Perform(w, k, e), k) && Perform(w, k, e).insts[k].pc == w.insts[k].pc
  {
    if w.insts[k].sock.Some? {
      assert InodeOk(w, w.insts[k].sock.value);
    }
  }

  lemma BindOwn(w: World, k: nat)
    requires k < |w.insts| && SockOk(w, k) && w.insts[k].pc.StagingMade?
    ensures SockOk(Go(Perform(w, k, BindStaged), k, SockBound), k)
  {
  }

  lemma PhaseOwn(w: World, k: nat, phase: Phase, pc: PC)
    requires k < |w.insts| && SockOk(w, k) && SockMove(k, SetPhase(phase), w.insts[k].pc, pc)
    ensures SockOk(Go(Perform(w, k, SetPhase(phase)), k, pc), k)
  {
  }

  lemma ChmodOwn(w: World, k: nat)
    requires k < |w.insts| && SockOk(w, k) && w.insts[k].pc.StagedSeen?
    ensures SockOk(Go(Perform(w, k, Chmod), k, ModeSet), k)
  {
  }

  lemma RenameOwn(w: World, k: nat)
    requires k < |w.insts| && SockOk(w, k) && w.insts[k].pc.PathFree?
    ensures SockOk(Go(Perform(w, k, RenameStaged), k, Published), k)
  {
  }

  lemma UnstageOwn(w: World, k: nat, pc: PC)
    requires k < |w.insts| && SockOk(w, k) && SockFits(w.insts[k].pc, pc) && !InStaging(pc)
    ensures SockOk(Go(Perform(w, k, Unlink(StagedPath(k))), k, pc), k)
  {
  }

  lemma OwnSock(w: World, k: nat, e: Effect, pc: PC)
    requires k < |w.insts| && FilesInv(w) && SockOk(w, k) && SockMove(k, e, w.insts[k].pc, pc)
    ensures SockOk(Go(Perform(w, k, e), k, pc), k)
  {
    if IsPassive(e) {
      PassiveOwn(w, k, e);
      SockFrameKeeps(w, Go(Perform(w, k, e), k, pc), k);
    } else {
      match e
      case BindStaged => BindOwn(w, k);
      case SetPhase(phase) => PhaseOwn(w, k, phase, pc);
      case Chmod => ChmodOwn(w, k);
      case RenameStaged => RenameOwn(w, k);
      case Unlink(_) => UnstageOwn(w, k, pc);
    }
  }

  lemma SocksStep(w: World, k: nat, ok: bool)
    requires k < |w.insts| && FilesInv(w) && SocksInv(w)
    ensures SocksInv(Next(w, k, ok))
  {
    var (e, pc) := Call(w, k, ok);
    CallAndSock(w, k, ok);
    var w' := Next(w, k, ok);
    forall j | 0 <= j < |w'.insts|
      ensures SockOk(w', j)
    {
      assert SockOk(w, j) && SockOk(w, k);
      if j == k {
        OwnSock(w, k, e, pc);
      } else {
        PerformOther(w, k, e, j);
        SockFrameKeeps(w, w', j);
      }
    }
  }

  // -------------------------------------------- inodes, names and the final entry

  lemma PerformInodes(w: World, k: nat, e: Effect, ino: nat)
    requires k < |w.insts| && FilesInv(w) && SockOk(w, k) && (e.BindStaged? ==> w.insts[k].sock.None?)
    requires ino in Perform(w, k, e).inodes
    ensures InodeOk(Perform(w, k, e), ino)
  {
    assert ino in w.inodes ==> InodeOk(w, ino);
  }

  lemma PerformNames(w: World, k: nat, e: Effect, name: Name)
    requires k < |w.insts| && FilesInv(w) && SockOk(w, k) && (e.BindStaged? ==> w.insts[k].sock.None?)
    requires name in Perform(w, k, e).names
    ensures NameOk(Perform(w, k, e), name)
  {
    assert name in w.names ==> NameOk(w, name);
    assert StagedPath(k) in w.names ==> NameOk(w, StagedPath(k));
  }

  lemma PerformFiles(w: World, k: nat, e: Effect)
    requires k < |w.insts| && FilesInv(w) && SockOk(w, k) && (e.BindStaged? ==> w.insts[k].sock.None?)
    ensures FilesInv(Perform(w, k, e))
  {
    forall ino | ino in Perform(w, k, e).inodes
      ensures InodeOk(Perform(w, k, e), ino)
    {
      PerformInodes(w, k, e, ino);
    }
    forall name | name in Perform(w, k, e).names
      ensures NameOk(Perform(w, k, e), name)
    {
      PerformNames(w, k, e, name);
    }
  }

  /** Moving a program counter changes no file. */
  lemma GoFiles(w: World, k: nat, pc: PC)
    requires k < |w.insts| && FilesInv(w)
    ensures FilesInv(Go(w, k, pc))
  {
    var w' := Go(w, k, pc);
    forall ino | ino in w'.inodes
      ensures InodeOk(w', ino)
    {
      assert InodeOk(w, ino);
    }
    forall name | name in w'.names
      ensures NameOk(w', name)
    {
      assert NameOk(w, name);
    }
  }

  lemma FilesStep(w: World, k: nat, ok: bool)
    requires k < |w.insts| && FilesInv(w) && SockOk(w, k)
    ensures FilesInv(Next(w, k, ok))
  {
    var (e, pc) := Call(w, k, ok);
    CallAndSock(w, k, ok);
    PerformFiles(w, k, e);
    GoFiles(Perform(w, k, e), k, pc);
  }

  lemma FinalStep(w: World, k: nat, ok: bool)
    requires k < |w.insts| && !IsOver(w.insts[k].pc) && FilesInv(w) && SocksInv(w) && FinalOk(w)
    ensures FinalOk(Next(w, k, ok))
  {
    var (e, pc) := Call(w, k, ok);
    CallAndSock(w, k, ok);
    assert SockOk(w, k);
    PerformFinal(w, k, e, pc);
  }

  lemma RenameFinal(w: World, k: nat, pc: PC)
    requires k < |w.insts| && SockMove(k, RenameStaged, w.insts[k].pc, pc) && SockOk(w, k)
    ensures FinalOk(Go(Perform(w, k, RenameStaged), k, pc))
  {
  }

  /** The final entry, the socket it may name and that socket's instance are as they were. */
  ghost predicate FinalSame(w: World, w': World) {
    && (FinalPath in w'.names ==> FinalPath in w.names && w'.names[FinalPath] == w.names[FinalPath])
    && (SocketAt(w', FinalPath) ==>
          SocketAt(w, FinalPath) && w'.inodes[w.names[FinalPath]] == w.inodes[w.names[FinalPath]])
    && |w'.insts| == |w.insts| && forall j :: 0 <= j < |w.insts| ==> w'.insts[j].mode == w.insts[j].mode
  }

  lemma FinalSameKeeps(w: World, w': World, k: nat, pc: PC)
    requires k < |w.insts| && FinalOk(w) && FinalSame(w, w') && (Renamed(w.insts[k].pc) ==> Renamed(pc))
    requires !IsOver(w.insts[k].pc) && forall j :: 0 <= j < |w.insts| ==> w'.insts[j].pc == w.insts[j].pc
    ensures FinalOk(Go(w', k, pc))
  {
  }

  /** An effect on anything but a socket, or one that adds files. */
  lemma FileFinal(w: World, k: nat, e: Effect)
    requires k < |w.insts| && FilesInv(w) && !e.RenameStaged? && !e.SetPhase? && !e.Chmod?
    ensures FinalSame(w, Perform(w, k, e))
    ensures forall j :: 0 <= j < |w.insts| ==> Perform(w, k, e).insts[j].pc == w.insts[j].pc
  {
    if FinalPath in w.names {
      assert NameOk(w, FinalPath) && InodeOk(w, w.names[FinalPath]);
    }
  }

  lemma SocketFinal(w: World, k: nat, e: Effect, pc: PC)
    requires k < |w.insts| && !IsOver(w.insts[k].pc) && SockMove(k, e, w.insts[k].pc, pc)
    requires FilesInv(w) && SockOk(w, k) && FinalOk(w) && (e.SetPhase? || e.Chmod?)
    ensures FinalOk(Go(Perform(w, k, e), k, pc))
  {
    if FinalPath in w.names {
      assert NameOk(w, FinalPath) && InodeOk(w, w.names[FinalPath]);
    }
  }

  lemma OtherFinal(w: World, k: nat, e: Effect, pc: PC)
    requires k < |w.insts| && !IsOver(w.insts[k].pc) && SockMove(k, e, w.insts[k].pc, pc) && !e.RenameStaged?
    requires FilesInv(w) && SockOk(w, k) && FinalOk(w)
    ensures FinalOk(Go(Perform(w, k, e), k, pc))
  {
    if e.SetPhase? || e.Chmod? {
      SocketFinal(w, k, e, pc);
    } else {
      FileFinal(w, k, e);
      FinalSameKeeps(w, Perform(w, k, e), k, pc);
    }
  }

  lemma PerformFinal(w: World, k: nat, e: Effect, pc: PC)
    requires k < |w.insts| && !IsOver(w.insts[k].pc) && SockMove(k, e, w.insts[k].pc, pc)
    requires FilesInv(w) && SockOk(w, k) && FinalOk(w)
    ensures FinalOk(Go(Perform(w, k, e), k, pc))
  {
    if e.RenameStaged? {
      RenameFinal(w, k, pc);
    } else {
      OtherFinal(w, k, e, pc);
    }
  }

  // -------------------------------------------------------- checks that still hold

  /** The final entry names what it named, and that is what it was. */
  ghost predicate FinalFrame(w: World, w': World) {
    && (FinalPath in w'.names <==> FinalPath in w.names)
    && (FinalPath in w.names ==> w'.names[FinalPath] == w.names[FinalPath])
    && SocketAt(w', FinalPath) == SocketAt(w, FinalPath)
    && (ListeningAt(w', FinalPath) ==> ListeningAt(w, FinalPath))
    && forall ino :: IsSocket(w, ino) ==> IsSocket(w', ino)
  }

  lemma FinalFrameKeeps(w: World, w': World, j: nat)
    requires j < |w.insts| && j < |w'.insts| && FinalFrame(w, w') && CheckOk(w, j) && w'.insts[j] == w.insts[j]
    ensures CheckOk(w', j)
  {
  }

  lemma CallOutsideLock(w: World, k: nat, ok: bool)
    requires k < |w.insts| && !InLock(w.insts[k].pc)
    ensures var (e, _) := Call(w, k, ok); e.Nothing? || e.OpenLockFile? || e.TakeLock? || e.DropLock?
  {
  }

  lemma OutsideLockFrame(w: World, k: nat, ok: bool)
    requires k < |w.insts| && !InLock(w.insts[k].pc) && FilesInv(w)
    ensures FinalFrame(w, Next(w, k, ok))
  {
    CallOutsideLock(w, k, ok);
    if FinalPath in w.names {
      assert NameOk(w, FinalPath) && InodeOk(w, w.names[FinalPath]);
    }
  }

  lemma AcquiringCheck(w: World, k: nat, ok: bool)
    requires k < |w.insts| && !InLock(w.insts[k].pc)
    ensures CheckOk(Next(w, k, ok), k)
  {
  }

  lemma StaleCheck(w: World, k: nat, ok: bool)
    requires k < |w.insts| && InStale(w.insts[k].pc) && FilesInv(w) && CheckOk(w, k)
    ensures CheckOk(Next(w, k, ok), k)
  {
    if FinalPath in w.names {
      assert NameOk(w, FinalPath) && InodeOk(w, w.names[FinalPath]);
    }
  }

  lemma PublishingCheck(w: World, k: nat, ok: bool)
    requires k < |w.insts| && InPublish(w.insts[k].pc)
    ensures CheckOk(Next(w, k, ok), k)
  {
  }

  lemma ClosingCheck(w: World, k: nat, ok: bool)
    requires k < |w.insts| && InClose(w.insts[k].pc)
    ensures CheckOk(Next(w, k, ok), k)
  {
  }

  lemma PerformOthers(w: World, k: nat, e: Effect, j: nat)
    requires k < |w.insts| && j < |w.insts| && j != k
    ensures |Perform(w, k, e).insts| == |w.insts| && Perform(w, k, e).insts[j] == w.insts[j]
  {
  }

  lemma NextOthers(w: World, k: nat, ok: bool, j: nat)
    requires k < |w.insts| && j < |w.insts| && j != k
    ensures |Next(w, k, ok).insts| == |w.insts| && Next(w, k, ok).insts[j] == w.insts[j]
  {
    var (e, _) := Call(w, k, ok);
    PerformOthers(w, k, e, j);
  }

  lemma ChecksStep(w: World, k: nat, ok: bool)
    requires k < |w.insts| && LockInv(w) && FilesInv(w) && ChecksInv(w)
    ensures ChecksInv(Next(w, k, ok))
  {
    var w' := Next(w, k, ok);
    forall j | 0 <= j < |w'.insts|
      ensures CheckOk(w', j)
    {
      assert CheckOk(w, j) && LockOk(w, j) && LockOk(w, k);
      if j != k {
        NextOthers(w, k, ok, j);
        if !InLock(w.insts[k].pc) {
          OutsideLockFrame(w, k, ok);
          FinalFrameKeeps(w, w', j);
        }
      } else if InStale(w.insts[k].pc) {
        StaleCheck(w, k, ok);
      } else if InPublish(w.insts[k].pc) {
        PublishingCheck(w, k, ok);
      } else if InClose(w.insts[k].pc) {
        ClosingCheck(w, k, ok);
      } else {
        AcquiringCheck(w, k, ok);
      }
    }
  }

  lemma ActKeepsInv(w: World, k: nat, ok: bool)
    requires Inv(w) && k < |w.insts| && !IsOver(w.insts[k].pc)
    ensures Inv(Next(w, k, ok))
  {
    assert SockOk(w, k);
    ActKeepsLock(w, k, ok);
    FilesStep(w, k, ok);
    SocksStep(w, k, ok);
    FinalStep(w, k, ok);
    ChecksStep(w, k, ok);
  }

  // -------------------------------------------------- crashes and other programs

  lemma SpawnKeepsInv(w: World, mode: nat, umasked: nat)
    requires Inv(w) && Enabled(w, Spawn(mode, umasked))
    ensures Inv(Apply(w, Spawn(mode, umasked)))
  {
    var w' := Apply(w, Spawn(mode, umasked));
    LockStep(w, Spawn(mode, umasked));
    SameFiles(w, w');
    forall j | 0 <= j < |w'.insts|
      ensures SockOk(w', j) && CheckOk(w', j)
    {
      assert j < |w.insts| ==> SockOk(w, j) && CheckOk(w, j);
    }
  }

  /** More instances, the same files. */
  lemma SameFiles(w: World, w': World)
    requires FilesInv(w) && w'.names == w.names && w'.inodes == w.inodes && w'.nextIno == w.nextIno
    requires |w.insts| <= |w'.insts| && forall j :: 0 <= j < |w.insts| ==> w'.insts[j].sock == w.insts[j].sock
    ensures FilesInv(w')
  {
    forall ino | ino in w'.inodes
      ensures InodeOk(w', ino)
    {
      assert InodeOk(w, ino);
    }
    forall name | name in w'.names
      ensures NameOk(w', name)
    {
      assert NameOk(w, name);
    }
  }

  /** A socket of anyone's gets another phase. */
  lemma PutPhaseFiles(w: World, ino: nat, phase: Phase)
    requires FilesInv(w)
    ensures FilesInv(PutPhase(w, ino, phase))
  {
    var w' := PutPhase(w, ino, phase);
    forall i | i in w'.inodes
      ensures InodeOk(w', i)
    {
      assert InodeOk(w, i);
    }
    forall name | name in w'.names
      ensures NameOk(w', name)
    {
      assert NameOk(w, name);
    }
  }

  lemma CrashShape(w: World, k: nat)
    requires k < |w.insts|
    ensures var w' := CrashOf(w, k); var sock := w.insts[k].sock;
            && w'.names == w.names && w'.nextIno == w.nextIno && |w'.insts| == |w.insts|
            && w'.inodes == (if sock.Some? then PutPhase(w, sock.value, Dead) else w).inodes
            && w'.insts[k] == w.insts[k].(lockFd := None, pc := Crashed)
            && forall j :: 0 <= j < |w.insts| && j != k ==> w'.insts[j] == w.insts[j]
  {
  }

  lemma CrashFiles(w: World, k: nat)
    requires k < |w.insts| && FilesInv(w)
    ensures FilesInv(CrashOf(w, k))
  {
    var sock := w.insts[k].sock;
    CrashShape(w, k);
    var w1 := if sock.Some? then PutPhase(w, sock.value, Dead) else w;
    if sock.Some? {
      PutPhaseFiles(w, sock.value, Dead);
    }
    SameFiles(w1, CrashOf(w, k));
  }

  lemma CrashOthers(w: World, k: nat, j: nat)
    requires k < |w.insts| && j < |w.insts| && j != k && FilesInv(w) && SockOk(w, k) && SockOk(w, j)
    ensures SockOk(CrashOf(w, k), j)
  {
    CrashShape(w, k);
    SockFrameKeeps(w, CrashOf(w, k), j);
  }

  lemma CrashOwn(w: World, k: nat)
    requires k < |w.insts| && SockOk(w, k)
    ensures SockOk(CrashOf(w, k), k)
  {
    CrashShape(w, k);
  }

  lemma CrashFinal(w: World, k: nat)
    requires k < |w.insts| && FilesInv(w) && SockOk(w, k) && FinalOk(w)
    ensures FinalOk(CrashOf(w, k)) && FinalFrame(w, CrashOf(w, k))
  {
    CrashShape(w, k);
    if FinalPath in w.names {
      assert NameOk(w, FinalPath) && InodeOk(w, w.names[FinalPath]);
    }
  }

  lemma CrashKeepsInv(w: World, k: nat)
    requires Inv(w) && k < |w.insts|
    ensures Inv(CrashOf(w, k))
  {
    var w' := CrashOf(w, k);
    assert SockOk(w, k);
    PerformLockFrame(w, k, SetPhase(Dead));
    LockFrameKeeps(w, Perform(w, k, SetPhase(Dead)));
    DropKeepsLock(Perform(w, k, SetPhase(Dead)), k, Crashed);
    CrashFiles(w, k);
    CrashFinal(w, k);
    CrashShape(w, k);
    forall j | 0 <= j < |w'.insts|
      ensures SockOk(w', j) && CheckOk(w', j)
    {
      assert SockOk(w, j) && CheckOk(w, j);
      if j == k {
        CrashOwn(w, k);
      } else {
        CrashOthers(w, k, j);
        FinalFrameKeeps(w, w', j);
      }
    }
  }

  predicate IsForeign(step: Step) {
    step.ForeignBind? || step.ForeignListen? || step.ForeignClose? || step.ForeignCreate? || step.ForeignUnlink?
  }

  lemma ForeignFiles(w: World, step: Step)
    requires FilesInv(w) && IsForeign(step) && Enabled(w, step)
    ensures FilesInv(Apply(w, step))
  {
    var w' := Apply(w, step);
    if step.ForeignListen? || step.ForeignClose? {
      PutPhaseFiles(w, step.ino, if step.ForeignListen? then Listening else Dead);
    } else {
      forall i | i in w'.inodes
        ensures InodeOk(w', i)
      {
        assert i in w.inodes ==> InodeOk(w, i);
      }
      forall name | name in w'.names
        ensures NameOk(w', name)
      {
        assert name in w.names ==> NameOk(w, name);
      }
    }
  }

  lemma ForeignSocks(w: World, step: Step, j: nat)
    requires FilesInv(w) && IsForeign(step) && Enabled(w, step) && j < |w.insts| && SockOk(w, j)
    ensures SockOk(Apply(w, step), j)
  {
    if w.insts[j].sock.Some? {
      assert InodeOk(w, w.insts[j].sock.value);
    }
    SockFrameKeeps(w, Apply(w, step), j);
  }

  lemma ForeignFinal(w: World, step: Step)
    requires FilesInv(w) && IsForeign(step) && Enabled(w, step) && FinalOk(w)
    ensures FinalOk(Apply(w, step))
  {
    if FinalPath in w.names {
      assert NameOk(w, FinalPath) && InodeOk(w, w.names[FinalPath]);
    }
  }

  lemma ForeignChecks(w: World, step: Step, j: nat)
    requires FilesInv(w) && IsForeign(step) && Enabled(w, step) && j < |w.insts| && CheckOk(w, j)
    ensures CheckOk(Apply(w, step), j)
  {
    if FinalPath in w.names {
      assert NameOk(w, FinalPath) && InodeOk(w, w.names[FinalPath]);
    }
  }

  lemma ForeignKeepsInv(w: World, step: Step)
    requires Inv(w) && IsForeign(step) && Enabled(w, step)
    ensures Inv(Apply(w, step))
  {
    var w' := Apply(w, step);
    LockStep(w, step);
    ForeignFiles(w, step);
    ForeignFinal(w, step);
    forall j | 0 <= j < |w'.insts|
      ensures SockOk(w', j) && CheckOk(w', j)
    {
      assert SockOk(w, j) && CheckOk(w, j);
      ForeignSocks(w, step, j);
      ForeignChecks(w, step, j);
    }
  }

  lemma StepKeepsInv(w: World, step: Step)
    requires Inv(w) && Enabled(w, step)
    ensures Inv(Apply(w, step))
  {
    match step
    case Spawn(mode, umasked) => SpawnKeepsInv(w, mode, umasked);
    case Act(k, ok) => ActKeepsInv(w, k, ok);
    case Crash(k) => CrashKeepsInv(w, k);
    case _ => ForeignKeepsInv(w, step);
  }

  lemma {:induction false} RunKeepsInv(w: World, steps: seq<Step>, w': World)
    requires Inv(w) && Run(w, steps, w')
    ensures Inv(w')
    decreases |steps|
  {
    if steps != [] {
      StepKeepsInv(w, steps[0]);
      RunKeepsInv(Apply(w, steps[0]), steps[1..], w');
    }
  }
}
