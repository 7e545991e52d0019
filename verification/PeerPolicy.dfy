/** Which peers may use the socket: internal/gangway/peer.go. A peer's identity is an input that is either known or,
    where the kernel could not report it, an error. */
module PeerPolicy {

  datatype Credentials = Credentials(uid: nat, gid: nat)

  datatype Peer = Known(cred: Credentials) | Unidentified

  datatype Policy = Policy(uids: seq<nat>, gids: seq<nat>) {
    predicate Empty() {
      uids == [] && gids == []
    }

    /** The proxy's own user is always allowed, and an empty list constrains nothing. */
    predicate Allows(cred: Credentials, self: nat) {
      if cred.uid == self then true
      else if uids != [] && cred.uid !in uids then false
      else if gids != [] && cred.gid !in gids then false
      else true
    }
  }

  /** Who may use the socket: everyone, if both lists are empty; else who is identified and is the proxy's own user, or
      is on each list that is not empty, by user and by primary group. */
  ghost predicate Permitted(policy: Policy, self: nat, peer: Peer) {
    || (policy.uids == [] && policy.gids == [])
    || (&& peer.Known?
        && (|| peer.cred.uid == self
            || (&& (policy.uids == [] || peer.cred.uid in policy.uids)
                && (policy.gids == [] || peer.cred.gid in policy.gids))))
  }

  /** An accepted connection, and the peer at its other end. */
  class PeerConn {
    const peer: Peer
    var open: bool

    constructor (peer: Peer)
      ensures this.peer == peer && open
    {
      this.peer := peer;
      open := true;
    }

    method Close()
      modifies this
      ensures !open
    {
      open := false;
    }
  }

  /** What one call of the wrapped listener's Accept gives. */
  datatype Arrival = Client(conn: PeerConn) | Failure

  ghost function Clients(arrivals: seq<Arrival>): set<PeerConn> {
    set a | a in arrivals && a.Client? :: a.conn
  }

  /** The clients are as many different connections, and all of them open. */
  ghost predicate AreOpen(arrivals: seq<Arrival>)
    reads Clients(arrivals)
  {
    && (forall i, j :: 0 <= i < j < |arrivals| && arrivals[i].Client? ==> arrivals[i] != arrivals[j])
    && (forall i :: 0 <= i < |arrivals| && arrivals[i].Client? ==> arrivals[i].conn.open)
  }

  /** Accept is decided by the first arrival that is an error or a permitted client. */
  ghost predicate Decides(policy: Policy, self: nat, a: Arrival) {
    a.Failure? || Permitted(policy, self, a.conn.peer)
  }

  /** Arrival `n` decides, and exactly the clients before it have been turned away and closed. */
  ghost predicate TurnsAway(policy: Policy, self: nat, arrivals: seq<Arrival>, n: nat)
    reads Clients(arrivals)
  {
    && n < |arrivals| && Decides(policy, self, arrivals[n])
    && (forall i :: 0 <= i < n ==> !Decides(policy, self, arrivals[i]))
    && (forall i :: 0 <= i < |arrivals| && arrivals[i].Client? ==> (arrivals[i].conn.open <==> n <= i))
  }

  /** The loop of `authorizedListener.Accept`. `arrivals` is what the wrapped listener would deliver, ending with the
      error that closing it causes; `rejected` is how many clients were closed before the deciding arrival. */
  method AuthorizedAccept(policy: Policy, self: nat, arrivals: seq<Arrival>) returns (rejected: nat)
    requires !policy.Empty() && arrivals != [] && arrivals[|arrivals| - 1].Failure? && AreOpen(arrivals)
    modifies Clients(arrivals)
    ensures TurnsAway(policy, self, arrivals, rejected)
    ensures forall i :: 0 <= i < |arrivals| && arrivals[i].Client? ==> (arrivals[i].conn.open <==> rejected <= i)
    ensures forall i :: 0 <= i <= rejected && arrivals[i].Client? ==>
              var peer := arrivals[i].conn.peer;
              (i == rejected <==> && peer.Known?
                                  && (|| peer.cred.uid == self
                                      || (&& (policy.uids == [] || peer.cred.uid in policy.uids)
                                          && (policy.gids == [] || peer.cred.gid in policy.gids))))
  {
    rejected := 0;
    while !arrivals[rejected].Failure?
      invariant rejected < |arrivals|
      invariant forall i :: 0 <= i < rejected ==> !Decides(policy, self, arrivals[i])
      invariant forall i :: 0 <= i < |arrivals| && arrivals[i].Client? ==> (arrivals[i].conn.open <==> rejected <= i)
      decreases |arrivals| - rejected
    {
      var conn := arrivals[rejected].conn;
      if conn.peer.Known? && policy.Allows(conn.peer.cred, self) {
        return;
      }
      assert arrivals[rejected] in arrivals;
      conn.Close();
      rejected := rejected + 1;
    }
  }
}
