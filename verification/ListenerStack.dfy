/** The accept/close protocol of internal/gangway/limit.go over internal/gangway/peer.go, stacked as app.go does: the
    connection limit outside, peer authorization inside, directly on the socket.

    Any number of goroutines call Accept, any number of calls close the connections handed out, also twice and at
    once, and the listener is closed while all of that goes on. Each step is one atomic action of one goroutine.
    A token in the slots channel has no owner, so nothing but the protocol ties it to a connection. */
module ListenerStack {
  import opened Counting
  import opened PeerPolicy

  datatype Config = Config(capacity: nat, policy: Policy, self: nat)

  /** LimitConnections raises a non-positive bound to one. */
  function NewConfig(maxConnections: int, policy: Policy, self: nat): (c: Config)
    ensures c.capacity >= 1 && (maxConnections >= 1 ==> c.capacity == maxConnections)
    ensures maxConnections < 1 ==> c.capacity == 1
    ensures c.policy == policy && c.self == self
  {
    Config(if maxConnections < 1 then 1 else maxConnections, policy, self)
  }

  datatype Acceptor =
    | Idle
    | Selecting               // at the select between `done` and `slots`
    | Accepting               // past the select, in the socket's own accept
    | Vetting                 // holds an accepted socket whose peer is being checked
    | Rejecting               // about to close that socket and to accept again
    | Failed                  // the socket's accept failed, the slot is still to be given back

  datatype Conn = Conn(peer: Peer, open: bool, released: bool)

  datatype CloserPhase = AtSocket | AtRelease | Done

  /** One call of `limitedConn.Close` on connection `conn`. */
  datatype Closer = Closer(conn: nat, phase: CloserPhase)

  datatype State = State(slots: nat, done: bool, innerClosed: bool,
                         acceptors: seq<Acceptor>, conns: seq<Conn>, closers: seq<Closer>)

  datatype Step =
    | Spawn
    | CallAccept(i: nat)
    | TakeDone(i: nat)
    | TakeSlot(i: nat)
    | KernelAccept(i: nat)
    | KernelError(i: nat)
    | Vet(i: nat, peer: Peer)
    | CloseRejected(i: nat)
    | GiveBack(i: nat)
    | CallClose(conn: nat)
    | CloseSocket(k: nat)
    | ReleaseOnce(k: nat)
    | CloseDone
    | CloseInner

  const INIT := State(0, false, false, [], [], [])

  predicate AcceptorAt(s: State, i: nat, a: Acceptor) {
    i < |s.acceptors| && s.acceptors[i] == a
  }

  predicate CloserAt(s: State, k: nat, phase: CloserPhase) {
    k < |s.closers| && s.closers[k].phase == phase && s.closers[k].conn < |s.conns|
  }

  /** A send on a full channel and a receive on an empty one block. The socket's accept may fail at any time, and does
      nothing else once the socket is closed. In the select, both branches are enabled when both are ready. */
  predicate Enabled(c: Config, s: State, step: Step) {
    match step
    case Spawn => true
    case CallAccept(i) => AcceptorAt(s, i, Idle)
    case TakeDone(i) => AcceptorAt(s, i, Selecting) && s.done
    case TakeSlot(i) => AcceptorAt(s, i, Selecting) && s.slots < c.capacity
    case KernelAccept(i) => AcceptorAt(s, i, Accepting) && !s.innerClosed
    case KernelError(i) => AcceptorAt(s, i, Accepting)
    case Vet(i, _) => AcceptorAt(s, i, Vetting)
    case CloseRejected(i) => AcceptorAt(s, i, Rejecting)
    case GiveBack(i) => AcceptorAt(s, i, Failed) && s.slots > 0
    case CallClose(conn) => conn < |s.conns|
    case CloseSocket(k) => CloserAt(s, k, AtSocket)
    case ReleaseOnce(k) => CloserAt(s, k, AtRelease) && (s.conns[s.closers[k].conn].released || s.slots > 0)
    case CloseDone => !s.done
    case CloseInner => s.done
  }

  function Moved(s: State, i: nat, a: Acceptor): State
    requires i < |s.acceptors|
  {
    s.(acceptors := s.acceptors[i := a])
  }

  function Apply(c: Config, s: State, step: Step): State
    requires Enabled(c, s, step)
  {
    match step
    case Spawn => s.(acceptors := s.acceptors + [Idle])
    case CallAccept(i) => Moved(s, i, Selecting)
    case TakeDone(i) => Moved(s, i, Idle)
    case TakeSlot(i) => Moved(s, i, Accepting).(slots := s.slots + 1)
    case KernelAccept(i) => Moved(s, i, Vetting)
    case KernelError(i) => Moved(s, i, Failed)
    case Vet(i, peer) =>
      if c.policy.Empty() || (peer.Known? && c.policy.Allows(peer.cred, c.self))
      then Moved(s, i, Idle).(conns := s.conns + [Conn(peer, true, false)])
      else Moved(s, i, Rejecting)
    case CloseRejected(i) => Moved(s, i, Accepting)
    case GiveBack(i) => Moved(s, i, Idle).(slots := s.slots - 1)
    case CallClose(conn) => s.(closers := s.closers + [Closer(conn, AtSocket)])
    case CloseSocket(k) =>
      var conn := s.closers[k].conn;
      s.(conns := s.conns[conn := s.conns[conn].(open := false)],
         closers := s.closers[k := Closer(conn, AtRelease)])
    case ReleaseOnce(k) =>
      var conn := s.closers[k].conn;
      s.(slots := if s.conns[conn].released then s.slots else s.slots - 1,
         conns := s.conns[conn := s.conns[conn].(released := true)],
         closers := s.closers[k := Closer(conn, Done)])
    case CloseDone => s.(done := true)
    case CloseInner => s.(innerClosed := true)
  }

  ghost predicate Run(c: Config, s: State, steps: seq<Step>, t: State)
    decreases |steps|
  {
    if steps == [] then s == t
    else Enabled(c, s, steps[0]) && Run(c, Apply(c, s, steps[0]), steps[1..], t)
  }

  // ------------------------------------------------------------------ invariant

  predicate HoldsSlot(a: Acceptor) {
    a.Accepting? || a.Vetting? || a.Rejecting? || a.Failed?
  }

  predicate HoldsSocket(a: Acceptor) {
    a.Vetting? || a.Rejecting?
  }

  predicate Unreleased(conn: Conn) {
    !conn.released
  }

  predicate IsOpen(conn: Conn) {
    conn.open
  }

  ghost predicate ConnsInv(c: Config, s: State) {
    forall j :: 0 <= j < |s.conns| ==>
      && (s.conns[j].released ==> !s.conns[j].open)
      && Permitted(c.policy, c.self, s.conns[j].peer)
  }

  ghost predicate ClosersInv(s: State) {
    forall k :: 0 <= k < |s.closers| ==>
      && s.closers[k].conn < |s.conns|
      && (s.closers[k].phase.AtRelease? ==> !s.conns[s.closers[k].conn].open)
      && (s.closers[k].phase.Done? ==> s.conns[s.closers[k].conn].released)
  }

  /** A close call stands between the closed socket and the release of its slot. */
  ghost predicate ReleasePending(s: State, j: nat) {
    exists k :: 0 <= k < |s.closers| && s.closers[k] == Closer(j, AtRelease)
  }

  ghost predicate PendingInv(s: State) {
    forall j :: 0 <= j < |s.conns| && !s.conns[j].open && !s.conns[j].released ==> ReleasePending(s, j)
  }

  ghost predicate SlotsInv(c: Config, s: State) {
    s.slots == Count(s.acceptors, HoldsSlot) + Count(s.conns, Unreleased) <= c.capacity
  }

  ghost predicate Inv(c: Config, s: State) {
    SlotsInv(c, s) && ConnsInv(c, s) && ClosersInv(s) && PendingInv(s)
  }

  /** A step of a goroutine that calls Accept. */
  predicate IsOfAcceptor(step: Step) {
    !step.Spawn? && !step.CallClose? && !step.CloseSocket? && !step.ReleaseOnce? && !step.CloseDone? &&
    !step.CloseInner?
  }

  lemma AcceptorSlots(c: Config, s: State, step: Step)
    requires SlotsInv(c, s) && Enabled(c, s, step) && IsOfAcceptor(step) && !step.Vet?
    ensures SlotsInv(c, Apply(c, s, step))
  {
    CountUpdate(s.acceptors, step.i, Apply(c, s, step).acceptors[step.i], HoldsSlot);
  }

  lemma VetSlots(c: Config, s: State, i: nat, peer: Peer)
    requires SlotsInv(c, s) && Enabled(c, s, Vet(i, peer))
    ensures SlotsInv(c, Apply(c, s, Vet(i, peer)))
  {
    CountUpdate(s.acceptors, i, Apply(c, s, Vet(i, peer)).acceptors[i], HoldsSlot);
    CountAppend(s.conns, Conn(peer, true, false), Unreleased);
  }

  lemma OtherSlots(c: Config, s: State, step: Step)
    requires SlotsInv(c, s) && ConnsInv(c, s) && Enabled(c, s, step) && !IsOfAcceptor(step)
    ensures SlotsInv(c, Apply(c, s, step))
  {
    CountAppend(s.acceptors, Idle, HoldsSlot);
    if step.CloseSocket? || step.ReleaseOnce? {
      var j, t := s.closers[step.k].conn, Apply(c, s, step);
      CountUpdate(s.conns, j, t.conns[j], Unreleased);
    }
  }

  lemma SlotsStep(c: Config, s: State, step: Step)
    requires Inv(c, s) && Enabled(c, s, step)
    ensures SlotsInv(c, Apply(c, s, step))
  {
    if step.Vet? {
      VetSlots(c, s, step.i, step.peer);
    } else if IsOfAcceptor(step) {
      AcceptorSlots(c, s, step);
    } else {
      OtherSlots(c, s, step);
    }
  }

  /** A close call on its way stays in the list, and is only moved on by its own steps. */
  lemma CloserStays(c: Config, s: State, step: Step, k: nat)
    requires Enabled(c, s, step) && k < |s.closers|
    requires !((step.CloseSocket? || step.ReleaseOnce?) && step.k == k)
    ensures k < |Apply(c, s, step).closers| && Apply(c, s, step).closers[k] == s.closers[k]
  {
  }

  lemma PendingAt(c: Config, s: State, step: Step, j: nat)
    requires Inv(c, s) && Enabled(c, s, step)
    requires var t := Apply(c, s, step); j < |t.conns| && !t.conns[j].open && !t.conns[j].released
    ensures ReleasePending(Apply(c, s, step), j)
  {
    var t := Apply(c, s, step);
    if step.CloseSocket? && s.closers[step.k].conn == j {
      assert t.closers[step.k] == Closer(j, AtRelease);
    } else {
      assert ReleasePending(s, j);
      var k :| 0 <= k < |s.closers| && s.closers[k] == Closer(j, AtRelease);
      CloserStays(c, s, step, k);
      assert t.closers[k] == Closer(j, AtRelease);
    }
  }

  lemma PendingStep(c: Config, s: State, step: Step)
    requires Inv(c, s) && Enabled(c, s, step)
    ensures PendingInv(Apply(c, s, step))
  {
    var t := Apply(c, s, step);
    forall j | 0 <= j < |t.conns| && !t.conns[j].open && !t.conns[j].released
      ensures ReleasePending(t, j)
    {
      PendingAt(c, s, step, j);
    }
  }

  lemma ConnsStep(c: Config, s: State, step: Step)
    requires ConnsInv(c, s) && ClosersInv(s) && Enabled(c, s, step)
    ensures ConnsInv(c, Apply(c, s, step))
  {
  }

  lemma ClosersStep(c: Config, s: State, step: Step)
    requires ConnsInv(c, s) && ClosersInv(s) && Enabled(c, s, step)
    ensures ClosersInv(Apply(c, s, step))
  {
  }

  lemma StepKeepsInv(c: Config, s: State, step: Step)
    requires Inv(c, s) && Enabled(c, s, step)
    ensures Inv(c, Apply(c, s, step))
  {
    SlotsStep(c, s, step);
    ConnsStep(c, s, step);
    ClosersStep(c, s, step);
    PendingStep(c, s, step);
  }

  lemma {:induction false} RunKeepsInv(c: Config, s: State, steps: seq<Step>, t: State)
    requires Inv(c, s) && Run(c, s, steps, t)
    ensures Inv(c, t)
    decreases |steps|
  {
    if steps != [] {
      StepKeepsInv(c, s, steps[0]);
      RunKeepsInv(c, Apply(c, s, steps[0]), steps[1..], t);
    }
  }

  // --------------------------------------------------------------------- safety

  /** In every interleaving the slot count is the acceptors past the select plus the connections handed out and not
      yet released, and stays within the capacity. */
  lemma SlotsAreConserved(c: Config, steps: seq<Step>, s: State)
    requires Run(c, INIT, steps, s)
    ensures s.slots == Count(s.acceptors, HoldsSlot) + Count(s.conns, Unreleased) <= c.capacity
  {
    RunKeepsInv(c, INIT, steps, s);
  }

  /** Neither receive from the slots channel ever blocks, also not when one connection is closed twice at once. */
  lemma ReceivesNeverBlock(c: Config, steps: seq<Step>, s: State)
    requires Run(c, INIT, steps, s)
    ensures forall i :: AcceptorAt(s, i, Failed) ==> Enabled(c, s, GiveBack(i))
    ensures forall k :: CloserAt(s, k, AtRelease) ==> Enabled(c, s, ReleaseOnce(k))
  {
    RunKeepsInv(c, INIT, steps, s);
    forall i: nat | AcceptorAt(s, i, Failed)
      ensures Enabled(c, s, GiveBack(i))
    {
      CountPositive(s.acceptors, i, HoldsSlot);
    }
    forall k: nat | CloserAt(s, k, AtRelease)
      ensures Enabled(c, s, ReleaseOnce(k))
    {
      if !s.conns[s.closers[k].conn].released {
        CountPositive(s.conns, s.closers[k].conn, Unreleased);
      }
    }
  }

  /** Open accepted sockets, those still being vetted included, never exceed the limit. */
  lemma OpenSocketsAreBounded(c: Config, steps: seq<Step>, s: State)
    requires Run(c, INIT, steps, s)
    ensures Count(s.acceptors, HoldsSocket) + Count(s.conns, IsOpen) <= s.slots <= c.capacity
  {
    RunKeepsInv(c, INIT, steps, s);
    CountWeaken(s.acceptors, HoldsSocket, HoldsSlot);
    CountWeaken(s.conns, IsOpen, Unreleased);
  }

  /** A finished close call has released the slot of its connection, and no later close call of it moves the count. */
  lemma ReleasedExactlyOnce(c: Config, steps: seq<Step>, s: State, k: nat, k': nat)
    requires Run(c, INIT, steps, s) && CloserAt(s, k, Done)
    requires CloserAt(s, k', AtRelease) && s.closers[k'].conn == s.closers[k].conn
    ensures !s.conns[s.closers[k].conn].open
    ensures Enabled(c, s, ReleaseOnce(k')) && Apply(c, s, ReleaseOnce(k')).slots == s.slots
  {
    RunKeepsInv(c, INIT, steps, s);
  }

  /** A client is handed to the server exactly if both lists are empty, or it is identified and is the proxy's own user
      or on each list that is not empty; and no other step hands one out. */
  lemma HandsOutIff(c: Config, s: State, step: Step)
    requires Enabled(c, s, step)
    ensures |Apply(c, s, step).conns| > |s.conns| <==>
            && step.Vet?
            && (|| (c.policy.uids == [] && c.policy.gids == [])
                || (&& step.peer.Known?
                    && (|| step.peer.cred.uid == c.self
                        || (&& (c.policy.uids == [] || step.peer.cred.uid in c.policy.uids)
                            && (c.policy.gids == [] || step.peer.cred.gid in c.policy.gids)))))
    ensures |Apply(c, s, step).conns| > |s.conns| ==>
              && Apply(c, s, step) == s.(acceptors := s.acceptors[step.i := Idle],
                                         conns := s.conns + [Conn(step.peer, true, false)])
  {
    if step.Vet? {
      assert Apply(c, s, step).conns == s.conns || Apply(c, s, step).conns == s.conns + [Conn(step.peer, true, false)];
    }
  }

  /** Every connection the server has came from such a client. */
  lemma OnlyPermittedPeers(c: Config, steps: seq<Step>, s: State, j: nat)
    requires Run(c, INIT, steps, s) && j < |s.conns|
    ensures var peer := s.conns[j].peer;
            || (c.policy.uids == [] && c.policy.gids == [])
            || (&& peer.Known?
                && (|| peer.cred.uid == c.self
                    || (&& (c.policy.uids == [] || peer.cred.uid in c.policy.uids)
                        && (c.policy.gids == [] || peer.cred.gid in c.policy.gids))))
  {
    RunKeepsInv(c, INIT, steps, s);
  }

  // -------------------------------------------------- what an Accept call goes through

  /** A step of acceptor `i` inside its Accept call. */
  predicate StepOf(step: Step, i: nat) {
    match step
    case TakeDone(j) => j == i
    case TakeSlot(j) => j == i
    case KernelAccept(j) => j == i
    case KernelError(j) => j == i
    case Vet(j, _) => j == i
    case CloseRejected(j) => j == i
    case GiveBack(j) => j == i
    case _ => false
  }

  /** The calls of acceptor `i`, and the steps inside them. */
  function Own(steps: seq<Step>, i: nat): seq<Step> {
    if steps == [] then []
    else
      var step := steps[|steps| - 1];
      Own(steps[..|steps| - 1], i) + if step == CallAccept(i) || StepOf(step, i) then [step] else []
  }

  /** The step after which an Accept call has returned: the listener is closed, a permitted client is handed out, or the
      slot has been given back. */
  ghost predicate Returns(c: Config, step: Step) {
    step.TakeDone? || step.GiveBack? || (step.Vet? && Permitted(c.policy, c.self, step.peer))
  }

  /** Which of its own steps an acceptor may take next. After a rejected client it accepts again, and it gives its slot
      back only after an error of the socket. */
  ghost predicate Follows(c: Config, step: Step, next: Step) {
    match step
    case CallAccept(_) => next.TakeDone? || next.TakeSlot?
    case TakeSlot(_) => next.KernelAccept? || next.KernelError?
    case KernelAccept(_) => next.Vet?
    case Vet(_, peer) => if Permitted(c.policy, c.self, peer) then next.CallAccept? else next.CloseRejected?
    case CloseRejected(_) => next.KernelAccept? || next.KernelError?
    case KernelError(_) => next.GiveBack?
    case TakeDone(_) => next.CallAccept?
    case GiveBack(_) => next.CallAccept?
    case _ => false
  }

  ghost predicate IsTrace(c: Config, own: seq<Step>) {
    && (own != [] ==> own[0].CallAccept?)
    && (forall k :: 0 < k < |own| ==> Follows(c, own[k - 1], own[k]))
  }

  /** Where the last of its own steps has brought an acceptor. */
  ghost predicate HasCome(c: Config, s: State, i: nat, own: seq<Step>) {
    if i >= |s.acceptors| then own == []
    else if own == [] then s.acceptors[i].Idle?
    else
      var last := own[|own| - 1];
      match s.acceptors[i]
      case Idle => Returns(c, last)
      case Selecting => last.CallAccept?
      case Accepting => last.TakeSlot? || last.CloseRejected?
      case Vetting => last.KernelAccept?
      case Rejecting => last.Vet? && !Permitted(c.policy, c.self, last.peer)
      case Failed => last.KernelError?
  }

  lemma {:induction false} RunFront(c: Config, s: State, steps: seq<Step>, t: State) returns (u: State)
    requires steps != [] && Run(c, s, steps, t)
    ensures var n := |steps| - 1; Run(c, s, steps[..n], u) && Enabled(c, u, steps[n]) && t == Apply(c, u, steps[n])
    decreases |steps|
  {
    if |steps| == 1 {
      u := s;
    } else {
      u := RunFront(c, Apply(c, s, steps[0]), steps[1..], t);
      assert steps[..|steps| - 1][1..] == steps[1..][..|steps| - 2];
    }
  }

  lemma OwnStep(c: Config, s: State, step: Step, i: nat, own: seq<Step>)
    requires Enabled(c, s, step) && HasCome(c, s, i, own) && IsTrace(c, own)
    requires step == CallAccept(i) || StepOf(step, i)
    ensures HasCome(c, Apply(c, s, step), i, own + [step]) && IsTrace(c, own + [step])
  {
    if own != [] {
      assert Follows(c, own[|own| - 1], step);
    }
  }

  lemma OthersStep(c: Config, s: State, step: Step, i: nat, own: seq<Step>)
    requires Enabled(c, s, step) && HasCome(c, s, i, own)
    requires step != CallAccept(i) && !StepOf(step, i)
    ensures HasCome(c, Apply(c, s, step), i, own)
  {
  }

  /** In every interleaving each goroutine's steps are those of the code, from one Accept call to the next, and its
      state says which of them was the last. */
  lemma {:induction false} AcceptProceeds(c: Config, steps: seq<Step>, s: State, i: nat)
    requires Run(c, INIT, steps, s)
    ensures IsTrace(c, Own(steps, i)) && HasCome(c, s, i, Own(steps, i))
    decreases |steps|
  {
    if steps != [] {
      var n := |steps| - 1;
      var u := RunFront(c, INIT, steps, s);
      AcceptProceeds(c, steps[..n], u, i);
      if steps[n] == CallAccept(i) || StepOf(steps[n], i) {
        OwnStep(c, u, steps[n], i, Own(steps[..n], i));
      } else {
        OthersStep(c, u, steps[n], i, Own(steps[..n], i));
      }
    }
  }

  /** Once it has closed a rejected client, an Accept keeps its slot and accepts again, unless the socket is closed. */
  lemma RejectionGoesOn(c: Config, steps: seq<Step>, s: State, i: nat)
    requires Run(c, INIT, steps, s)
    requires Own(steps, i) != [] && Own(steps, i)[|Own(steps, i)| - 1] == CloseRejected(i)
    ensures i < |s.acceptors| && HoldsSlot(s.acceptors[i])
    ensures Enabled(c, s, KernelError(i)) && (Enabled(c, s, KernelAccept(i)) <==> !s.innerClosed)
  {
    AcceptProceeds(c, steps, s, i);
  }

  // ------------------------------------------------------------------- shutdown

  predicate Closed(s: State) {
    s.done && s.innerClosed
  }

  /** How many of its own steps an Accept call can still make once the listener is closed. */
  function Rank(a: Acceptor): (r: nat)
    ensures r <= 4
  {
    match a
    case Idle => 0
    case Selecting => 3
    case Accepting => 2
    case Vetting => 4
    case Rejecting => 3
    case Failed => 1
  }

  /** After Close, a pending Accept can always move, whatever the others do. */
  lemma PendingAcceptCanMove(c: Config, steps: seq<Step>, s: State, i: nat) returns (step: Step)
    requires Run(c, INIT, steps, s) && Closed(s) && i < |s.acceptors| && !s.acceptors[i].Idle?
    ensures StepOf(step, i) && Enabled(c, s, step)
  {
    ReceivesNeverBlock(c, steps, s);
    match s.acceptors[i]
    case Selecting => step := TakeDone(i);
    case Accepting => step := KernelError(i);
    case Vetting => step := Vet(i, Unidentified);
    case Rejecting => step := CloseRejected(i);
    case Failed =>
      assert AcceptorAt(s, i, Failed);
      step := GiveBack(i);
  }

  /** After Close, each step of an Accept call, whichever branch of the select it takes, lowers its rank, and nobody
      else's step touches it. */
  lemma RankFalls(c: Config, s: State, step: Step, i: nat)
    requires Closed(s) && i < |s.acceptors| && Enabled(c, s, step) && step != CallAccept(i)
    ensures var t := Apply(c, s, step);
            && Closed(t) && |t.acceptors| >= |s.acceptors|
            && (if StepOf(step, i) then Rank(t.acceptors[i]) < Rank(s.acceptors[i])
                else t.acceptors[i] == s.acceptors[i])
  {
  }

  ghost function OwnSteps(steps: seq<Step>, i: nat): nat {
    Count(steps, (step: Step) => StepOf(step, i))
  }

  /** In any run that starts after Close, an Accept call makes at most four more steps of its own; when it has none
      left it has returned. */
  lemma {:induction false} AcceptReturnsAfterClose(c: Config, s: State, steps: seq<Step>, t: State, i: nat)
    requires Run(c, s, steps, t) && Closed(s) && i < |s.acceptors|
    requires forall j :: 0 <= j < |steps| ==> steps[j] != CallAccept(i)
    ensures Closed(t) && i < |t.acceptors|
    ensures OwnSteps(steps, i) + Rank(t.acceptors[i]) <= Rank(s.acceptors[i]) <= 4
    ensures Rank(t.acceptors[i]) == 0 <==> t.acceptors[i].Idle?
    decreases |steps|
  {
    if steps != [] {
      RankFalls(c, s, steps[0], i);
      AcceptReturnsAfterClose(c, Apply(c, s, steps[0]), steps[1..], t, i);
    }
  }

  /** Once every Accept has returned and no close call is under way, the slots taken are the open connections. */
  lemma SlotsAtRest(c: Config, steps: seq<Step>, s: State)
    requires Run(c, INIT, steps, s)
    requires forall i :: 0 <= i < |s.acceptors| ==> s.acceptors[i].Idle?
    ensures s.slots == Count(s.conns, Unreleased)
    ensures (forall k :: 0 <= k < |s.closers| ==> s.closers[k].phase.Done?) ==> s.slots == Count(s.conns, IsOpen)
  {
    RunKeepsInv(c, INIT, steps, s);
    CountNone(s.acceptors, HoldsSlot);
    if forall k :: 0 <= k < |s.closers| ==> s.closers[k].phase.Done? {
      forall j | 0 <= j < |s.conns|
        ensures IsOpen(s.conns[j]) == Unreleased(s.conns[j])
      {
        assert !ReleasePending(s, j);
      }
      CountSame(s.conns, IsOpen, Unreleased);
    }
  }

  // ------------------------------------------- a client under rejection does hold a slot

  predicate IsRejecting(a: Acceptor) {
    a.Rejecting?
  }

  /** The acceptors that hold a slot, those about to close a rejected client aside. */
  predicate HoldsForPermitted(a: Acceptor) {
    HoldsSlot(a) && !a.Rejecting?
  }

  /** Acceptor `i` cannot get past the select, although without the clients under rejection there would be a slot. */
  ghost predicate IsKeptWaiting(c: Config, s: State, i: nat) {
    && AcceptorAt(s, i, Selecting) && !Enabled(c, s, TakeDone(i)) && !Enabled(c, s, TakeSlot(i))
    && Count(s.acceptors, HoldsForPermitted) + Count(s.conns, Unreleased) < c.capacity
  }

  /** In every reachable state, that is so exactly if all slots are taken and a client under rejection has one. */
  lemma KeptWaitingIff(c: Config, steps: seq<Step>, s: State, i: nat)
    requires Run(c, INIT, steps, s) && AcceptorAt(s, i, Selecting) && !s.done
    ensures IsKeptWaiting(c, s, i) <==>
            s.slots == c.capacity && exists j :: 0 <= j < |s.acceptors| && s.acceptors[j].Rejecting?
  {
    RunKeepsInv(c, INIT, steps, s);
    SplitHolders(s.acceptors);
    if j :| 0 <= j < |s.acceptors| && s.acceptors[j].Rejecting? {
      CountPositive(s.acceptors, j, IsRejecting);
    } else {
      CountNone(s.acceptors, IsRejecting);
    }
  }

  lemma {:induction false} SplitHolders(acceptors: seq<Acceptor>)
    ensures Count(acceptors, HoldsSlot) == Count(acceptors, HoldsForPermitted) + Count(acceptors, IsRejecting)
  {
    if acceptors != [] {
      SplitHolders(acceptors[1..]);
    }
  }

  lemma {:induction false} EmptyPolicyRejectsNobody(c: Config, s: State, steps: seq<Step>, t: State)
    requires c.policy.Empty() && Run(c, s, steps, t)
    requires forall i :: 0 <= i < |s.acceptors| ==> !s.acceptors[i].Rejecting?
    ensures forall i :: 0 <= i < |t.acceptors| ==> !t.acceptors[i].Rejecting?
    decreases |steps|
  {
    if steps != [] {
      EmptyPolicyRejectsNobody(c, Apply(c, s, steps[0]), steps[1..], t);
    }
  }

  ghost predicate LeadsToKeptWaiting(c: Config, steps: seq<Step>, s: State, i: nat) {
    Run(c, INIT, steps, s) && IsKeptWaiting(c, s, i)
  }

  /** A client of the proxy's own user is let through, whatever the policy, and takes a slot for good. */
  lemma AcceptOwn(c: Config, steps: seq<Step>, s: State) returns (steps': seq<Step>, s': State)
    requires Run(c, INIT, steps, s) && AcceptorAt(s, 0, Idle) && s.slots < c.capacity && !s.done && !s.innerClosed
    ensures Run(c, INIT, steps', s') && s'.slots == s.slots + 1 && !s'.done && !s'.innerClosed
    ensures s'.acceptors == s.acceptors && |s'.conns| == |s.conns| + 1
  {
    var own := Known(Credentials(c.self, 0));
    steps', s' := Extend(c, steps, s, CallAccept(0));
    steps', s' := Extend(c, steps', s', TakeSlot(0));
    steps', s' := Extend(c, steps', s', KernelAccept(0));
    steps', s' := Extend(c, steps', s', Vet(0, own));
  }

  /** Two goroutines that call Accept, and one slot left. */
  lemma FillButOne(c: Config) returns (steps: seq<Step>, s: State)
    requires c.capacity >= 1
    ensures Run(c, INIT, steps, s) && s.slots == c.capacity - 1 && !s.done && !s.innerClosed
    ensures s.acceptors == [Idle, Idle]
  {
    steps, s := Extend(c, [], INIT, Spawn);
    steps, s := Extend(c, steps, s, Spawn);
    while s.slots < c.capacity - 1
      invariant Run(c, INIT, steps, s) && s.slots <= c.capacity - 1 && !s.done && !s.innerClosed
      invariant s.acceptors == [Idle, Idle]
      decreases c.capacity - s.slots
    {
      steps, s := AcceptOwn(c, steps, s);
    }
  }

  lemma RejectedCanKeepWaiting(c: Config) returns (steps: seq<Step>, s: State, i: nat)
    requires c.capacity >= 1 && !c.policy.Empty()
    ensures LeadsToKeptWaiting(c, steps, s, i) && |s.acceptors| == 2
  {
    steps, s := FillButOne(c);
    steps, s := Extend(c, steps, s, CallAccept(0));
    steps, s := Extend(c, steps, s, TakeSlot(0));
    steps, s := Extend(c, steps, s, KernelAccept(0));
    steps, s := Extend(c, steps, s, Vet(0, Unidentified));
    steps, s := Extend(c, steps, s, CallAccept(1));
    i := 1;
    assert s.acceptors == [Rejecting, Selecting];
    KeptWaitingIff(c, steps, s, 1);
  }

  /** A client under rejection can keep an Accept waiting, for which there would be a slot without it, exactly if there
      is a policy to reject it by and at least two goroutines call Accept. */
  lemma RejectedCanKeepWaitingIff(c: Config, n: nat)
    requires c.capacity >= 1
    ensures (exists steps, s, i :: LeadsToKeptWaiting(c, steps, s, i) && |s.acceptors| <= n) <==>
            !c.policy.Empty() && n >= 2
  {
    if !c.policy.Empty() && n >= 2 {
      var steps, s, i := RejectedCanKeepWaiting(c);
    }
    forall steps, s, i | LeadsToKeptWaiting(c, steps, s, i)
      ensures !c.policy.Empty() && |s.acceptors| >= 2
    {
      KeptWaitingIff(c, steps, s, i);
      if c.policy.Empty() {
        EmptyPolicyRejectsNobody(c, INIT, steps, s);
      }
    }
  }

  /** Every client under rejection holds a slot. */
  lemma RejectedClientsHoldSlots(c: Config, steps: seq<Step>, s: State)
    requires Run(c, INIT, steps, s)
    ensures Count(s.acceptors, IsRejecting) <= s.slots
    ensures c.policy.Empty() ==> Count(s.acceptors, IsRejecting) == 0
  {
    RunKeepsInv(c, INIT, steps, s);
    SplitHolders(s.acceptors);
    if c.policy.Empty() {
      EmptyPolicyRejectsNobody(c, INIT, steps, s);
      CountNone(s.acceptors, IsRejecting);
    }
  }

  lemma Extend(c: Config, steps: seq<Step>, s: State, step: Step) returns (steps': seq<Step>, s': State)
    requires Run(c, INIT, steps, s) && Enabled(c, s, step)
    ensures Run(c, INIT, steps', s') && steps' == steps + [step] && s' == Apply(c, s, step)
  {
    RunAppend(c, INIT, steps, s, step);
    steps', s' := steps + [step], Apply(c, s, step);
  }

  lemma {:induction false} RunAppend(c: Config, s: State, steps: seq<Step>, t: State, step: Step)
    requires Run(c, s, steps, t) && Enabled(c, t, step)
    ensures Run(c, s, steps + [step], Apply(c, t, step))
    decreases |steps|
  {
    if steps == [] {
      assert [step][1..] == [];
    } else {
      assert (steps + [step])[1..] == steps[1..] + [step];
      RunAppend(c, Apply(c, s, steps[0]), steps[1..], t, step);
    }
  }

  // ------------------------------------------------------ the objects themselves

  /** The limiter as an object, for calls that run one after the other. */
  class LimitedListener {
    const capacity: nat
    const policy: Policy
    const self: nat
    /** The length of the slots channel. */
    var slots: nat
    var done: bool
    /** How often the socket itself has been closed. */
    var innerCloses: nat

    ghost predicate Valid()
      reads this
    {
      capacity >= 1 && slots <= capacity && innerCloses == if done then 1 else 0
    }

    constructor (maxConnections: int, policy: Policy, self: nat)
      ensures Valid() && slots == 0 && !done
      ensures Config(capacity, this.policy, this.self) == NewConfig(maxConnections, policy, self)
    {
      this.capacity := if maxConnections < 1 then 1 else maxConnections;
      this.policy := policy;
      this.self := self;
      slots, done, innerCloses := 0, false, 0;
    }

    /** `takeDone` is the choice Go's select makes when both branches are ready; it would block with neither ready.
        `arrivals` is what the socket delivers, ending with an error; a closed socket delivers nothing else. */
    method Accept(takeDone: bool, arrivals: seq<Arrival>) returns (conn: LimitedConn?, ghost decided: nat)
      requires Valid() && (done || slots < capacity) && AreOpen(arrivals)
      requires arrivals != [] && arrivals[|arrivals| - 1].Failure? && (done ==> arrivals[0].Failure?)
      modifies `slots, Clients(arrivals)
      ensures Valid() && (done ==> conn == null && slots == old(slots))
      ensures !done ==>
                && TurnsAway(policy, self, arrivals, decided)
                && (conn == null <==> arrivals[decided].Failure?)
                && slots == old(slots) + if conn == null then 0 else 1
      ensures !done ==> forall i :: 0 <= i <= decided && arrivals[i].Client? ==>
                var peer := arrivals[i].conn.peer;
                (i == decided <==>
                 || (policy.uids == [] && policy.gids == [])
                 || (&& peer.Known?
                     && (|| peer.cred.uid == self
                         || (&& (policy.uids == [] || peer.cred.uid in policy.uids)
                             && (policy.gids == [] || peer.cred.gid in policy.gids)))))
      ensures conn != null ==>
                fresh(conn) && conn.listener == this && arrivals[decided] == Client(conn.inner) && !conn.released
    {
      conn, decided := null, 0;
      if done && (takeDone || slots >= capacity) {
        return;
      }
      slots := slots + 1;
      var rejected := 0;
      if !policy.Empty() {
        rejected := AuthorizedAccept(policy, self, arrivals);
      }
      decided := rejected;
      if arrivals[rejected].Failure? {
        slots := slots - 1;
        return;
      }
      conn := new LimitedConn(this, arrivals[rejected].conn);
    }

    /** However often it is called, the socket is closed once. */
    method Close()
      requires Valid()
      modifies `done, `innerCloses
      ensures Valid() && done && innerCloses == 1
    {
      if !done {
        done := true;
        innerCloses := innerCloses + 1;
      }
    }
  }

  class LimitedConn {
    const listener: LimitedListener
    const inner: PeerConn
    var released: bool

    constructor (listener: LimitedListener, inner: PeerConn)
      ensures this.listener == listener && this.inner == inner && !released
    {
      this.listener := listener;
      this.inner := inner;
      released := false;
    }

    /** The slot goes back once, however often the connection is closed. */
    method Close()
      requires listener.Valid() && (!released ==> listener.slots > 0)
      modifies this, inner, listener`slots
      ensures listener.Valid() && !inner.open && released
      ensures listener.slots == old(listener.slots) - if old(released) then 0 else 1
    {
      inner.Close();
      if !released {
        released := true;
        listener.slots := listener.slots - 1;
      }
    }
  }
}
