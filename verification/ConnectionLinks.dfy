/** How the network's peer sets, the tracker, the router and the dialled addresses must agree, as plain values,
    and that every step of every peer keeps them in agreement. */
module ConnectionLinks {
  import opened Ids
  import opened TrackerHistory

  /** A connection to `id`; `serial` tells successive connections to the same node apart. */
  datatype Peer = Peer(serial: nat, id: NodeID, ip: ClaimedIP, trackedSubnets: set<SubnetID>)

  /** How far the calls of one peer into the network have got. */
  datatype Phase =
    | Handshaking
    | Promoted                            // Connected moved it to the connected peers
    | Registered                          // and told the tracker
    | Announcing(rest: set<SubnetID>)     // and the router, except for these subnets; done when there are none
    | LeavingConnecting                   // Disconnected found it among the connecting peers
    | LeavingConnected                    // Disconnected found it among the connected peers
    | Untracked                           // and told the tracker
    | Unrouted                            // and the router
    | Gone
  {
    predicate IsConnecting() {
      Handshaking? || LeavingConnecting?
    }

    predicate IsConnected() {
      !IsConnecting() && !Gone?
    }

    predicate InTracker() {
      Registered? || Announcing? || LeavingConnected?
    }

    predicate InRouter() {
      Announcing? || LeavingConnected? || Untracked?
    }
  }

  // ---------------------------------------------------------------- what the router sees

  datatype RouterEvent = RouterConnected(node: NodeID, subnet: SubnetID) | RouterDisconnected(node: NodeID)

  datatype Trace = Silence | Next(past: Trace, last: RouterEvent)

  /** The subnets on which `n` is connected according to the router, or None. */
  ghost function RouterView(t: Trace, n: NodeID): Option<set<SubnetID>> {
    match t
    case Silence => None
    case Next(past, RouterConnected(m, s)) =>
      if m != n then RouterView(past, n)
      else if RouterView(past, n).None? then Some({s}) else Some(RouterView(past, n).value + {s})
    case Next(past, RouterDisconnected(m)) => if m != n then RouterView(past, n) else None
  }

  /** For every node: the primary network first, then each other subnet at most once, then a disconnection. */
  ghost predicate Orderly(t: Trace) {
    match t
    case Silence => true
    case Next(past, RouterConnected(n, s)) =>
      && Orderly(past)
      && (if s == PrimaryNetworkID then RouterView(past, n).None?
          else RouterView(past, n).Some? && s !in RouterView(past, n).value)
    case Next(past, RouterDisconnected(n)) => Orderly(past) && RouterView(past, n).Some?
  }

  /** `p` is `t` or an earlier point of it. */
  ghost predicate Earlier(p: Trace, t: Trace) {
    p == t || (t.Next? && Earlier(p, t.past))
  }

  ghost predicate LeftSince(n: NodeID, p: Trace, t: Trace) {
    p != t && t.Next? && (t.last == RouterDisconnected(n) || LeftSince(n, p, t.past))
  }

  /** The router was told that `n` is connected on `s`, and not since that it left. */
  ghost predicate Standing(t: Trace, n: NodeID, s: SubnetID) {
    exists p :: Earlier(p, t) && p.Next? && p.last == RouterConnected(n, s) && !LeftSince(n, p, t)
  }

  lemma {:induction false} EarlierSize(p: Trace, t: Trace)
    requires Earlier(p, t)
    ensures p == t || p < t
  {
    if p != t { EarlierSize(p, t.past); }
  }

  lemma {:induction false} ViewMeaning(t: Trace, n: NodeID, s: SubnetID)
    ensures Standing(t, n, s) <==> RouterView(t, n).Some? && s in RouterView(t, n).value
  {
    if t.Next? {
      ViewMeaning(t.past, n, s);
      if t.last == RouterConnected(n, s) {
        assert Earlier(t, t) && !LeftSince(n, t, t);
      } else if t.last != RouterDisconnected(n) && Standing(t.past, n, s) {
        var p :| Earlier(p, t.past) && p.Next? && p.last == RouterConnected(n, s) && !LeftSince(n, p, t.past);
        EarlierSize(p, t.past);
        assert Earlier(p, t) && !LeftSince(n, p, t);
      }
    }
  }

  lemma {:induction false} PrimaryFirst(t: Trace, n: NodeID)
    requires Orderly(t) && RouterView(t, n).Some?
    ensures PrimaryNetworkID in RouterView(t, n).value
  {
    if t.last != RouterConnected(n, PrimaryNetworkID) { PrimaryFirst(t.past, n); }
  }

  /** What order means at every point of a trace: the primary network is announced only for a node that stands on no
      subnet, any other subnet only for one that stands on the primary network and not on that subnet, and a node leaves
      only if it stands on the primary network. */
  lemma {:induction false} OrderlyMeaning(t: Trace, p: Trace, s: SubnetID)
    requires Orderly(t) && Earlier(p, t) && p.Next?
    ensures p.last.RouterConnected? && p.last.subnet == PrimaryNetworkID ==> !Standing(p.past, p.last.node, s)
    ensures p.last.RouterConnected? && p.last.subnet != PrimaryNetworkID ==>
              Standing(p.past, p.last.node, PrimaryNetworkID) && !Standing(p.past, p.last.node, p.last.subnet)
    ensures p.last.RouterDisconnected? ==> Standing(p.past, p.last.node, PrimaryNetworkID)
  {
    if p != t {
      OrderlyMeaning(t.past, p, s);
    } else {
      var n := p.last.node;
      ViewMeaning(p.past, n, s);
      ViewMeaning(p.past, n, PrimaryNetworkID);
      if p.last.RouterConnected? { ViewMeaning(p.past, n, p.last.subnet); }
      if RouterView(p.past, n).Some? { PrimaryFirst(p.past, n); }
    }
  }

  // ---------------------------------------------------------------- agreement

  type PeerSet = map<NodeID, Peer>
  type Phases = map<Peer, Phase>

  /** A peer is in the one set that its phase says, and no node has two peers that are not gone. */
  ghost predicate PeersOk(connecting: PeerSet, connected: PeerSet, phase: Phases, numPeers: nat) {
    && (forall p :: p in phase ==> p.serial < numPeers && p.ip.node == p.id)
    && (forall p :: p in phase && phase[p].IsConnecting() ==> p.id in connecting && connecting[p.id] == p)
    && (forall p :: p in phase && phase[p].IsConnected() ==> p.id in connected && connected[p.id] == p)
    && (forall n :: n in connecting ==>
          connecting[n].id == n && connecting[n] in phase && phase[connecting[n]].IsConnecting())
    && (forall n :: n in connected ==>
          connected[n].id == n && connected[n] in phase && phase[connected[n]].IsConnected())
    && (forall n :: n in connecting ==> n !in connected)
  }

  ghost function PhaseOf(connected: PeerSet, phase: Phases, n: NodeID): Phase {
    if n in connected && connected[n] in phase then phase[connected[n]] else Gone
  }

  ghost function ExpectedConnection(connected: PeerSet, phase: Phases, n: NodeID): Option<Connection> {
    if PhaseOf(connected, phase, n).InTracker() && n in connected
    then Some(Connection(connected[n].trackedSubnets, connected[n].ip)) else None
  }

  /** The tracker holds exactly the nodes whose peer has told it and has not taken it back, with that peer's IP and
      subnets. */
  ghost predicate TrackerOk(connected: PeerSet, phase: Phases, h: History) {
    forall n :: ConnectionOf(h, n) == ExpectedConnection(connected, phase, n)
  }

  ghost function ExpectedView(mySubnets: set<SubnetID>, connected: PeerSet, phase: Phases, n: NodeID)
    : Option<set<SubnetID>>
  {
    var now := PhaseOf(connected, phase, n);
    if !now.InRouter() || n !in connected then None
    else
      Some({PrimaryNetworkID} + (mySubnets * connected[n].trackedSubnets - (if now.Announcing? then now.rest else {})))
  }

  ghost predicate RouterOk(mySubnets: set<SubnetID>, connected: PeerSet, phase: Phases, trace: Trace) {
    && Orderly(trace)
    && (forall p :: p in phase && phase[p].Announcing? ==> phase[p].rest <= mySubnets * p.trackedSubnets)
    && (forall n :: RouterView(trace, n) == ExpectedView(mySubnets, connected, phase, n))
  }

  datatype Links = Links(connecting: PeerSet, connected: PeerSet, phase: Phases, numPeers: nat, trace: Trace)
  {
    ghost predicate At(p: Peer, now: Phase) {
      p in phase && phase[p] == now
    }

    ghost function To(p: Peer, next: Phase): Links {
      this.(phase := phase[p := next])
    }

    ghost function Says(e: RouterEvent): Links {
      this.(trace := Next(trace, e))
    }
  }

  /** Everything agrees; `h` is what the tracker was told and `dialled` the nodes whose addresses are being dialled. */
  ghost predicate Agree(mySubnets: set<SubnetID>, k: Links, h: History, dialled: set<NodeID>) {
    && PrimaryNetworkID !in mySubnets
    && PeersOk(k.connecting, k.connected, k.phase, k.numPeers)
    && TrackerOk(k.connected, k.phase, h)
    && RouterOk(mySubnets, k.connected, k.phase, k.trace)
    && (forall n :: n in dialled ==> n !in k.connected)
  }

  lemma InitiallyAgree(mySubnets: set<SubnetID>, h: History)
    requires PrimaryNetworkID !in mySubnets && (forall n :: ConnectionOf(h, n).None?)
    ensures Agree(mySubnets, Links(map[], map[], map[], 0, Silence), h, {})
  {
  }

  // ---------------------------------------------------------------- steps

  ghost function Started(k: Links, p: Peer): Links {
    k.(connecting := k.connecting[p.id := p], phase := k.phase[p := Handshaking], numPeers := k.numPeers + 1)
  }

  /** A peer that moves to a phase of the same kind stays in its set, and no other node's phase changes. */
  lemma MovedPeers(connecting: PeerSet, connected: PeerSet, phase: Phases, numPeers: nat, p: Peer, next: Phase)
    requires PeersOk(connecting, connected, phase, numPeers) && p in phase
    requires phase[p].IsConnecting() == next.IsConnecting() && phase[p].IsConnected() == next.IsConnected()
    ensures PeersOk(connecting, connected, phase[p := next], numPeers)
    ensures PhasesSame(connected, phase, connected, phase[p := next], p.id)
    ensures next.IsConnected() ==> p.id in connected && connected[p.id] == p
    ensures next.IsConnecting() ==> p.id in connecting && p.id !in connected
  {
  }

  ghost predicate PhasesSame(connected: PeerSet, phase: Phases, connected': PeerSet, phase': Phases, except: NodeID) {
    forall n :: n != except ==>
      PhaseOf(connected', phase', n) == PhaseOf(connected, phase, n)
      && (n in connected <==> n in connected') && (n in connected ==> connected[n] == connected'[n])
  }

  /** The tracker agrees again if the one node whose phase changed does. */
  lemma TrackerStep(connected: PeerSet, phase: Phases, h: History, connected': PeerSet, phase': Phases, h': History,
                    n: NodeID)
    requires TrackerOk(connected, phase, h) && PhasesSame(connected, phase, connected', phase', n)
    requires forall m :: m != n ==> ConnectionOf(h', m) == ConnectionOf(h, m)
    requires ConnectionOf(h', n) == ExpectedConnection(connected', phase', n)
    ensures TrackerOk(connected', phase', h')
  {
    forall m ensures ConnectionOf(h', m) == ExpectedConnection(connected', phase', m) {
    }
  }

  /** The router agrees again if the one node whose phase changed does. */
  lemma RouterStep(mySubnets: set<SubnetID>, connected: PeerSet, phase: Phases, trace: Trace,
                   connected': PeerSet, phase': Phases, trace': Trace, n: NodeID)
    requires RouterOk(mySubnets, connected, phase, trace) && PhasesSame(connected, phase, connected', phase', n)
    requires Orderly(trace') && forall m :: m != n ==> RouterView(trace', m) == RouterView(trace, m)
    requires RouterView(trace', n) == ExpectedView(mySubnets, connected', phase', n)
    requires forall p :: p in phase' && phase'[p].Announcing? ==> phase'[p].rest <= mySubnets * p.trackedSubnets
    ensures RouterOk(mySubnets, connected', phase', trace')
  {
    forall m ensures RouterView(trace', m) == ExpectedView(mySubnets, connected', phase', m) {
    }
  }

  lemma StartedPeers(connecting: PeerSet, connected: PeerSet, phase: Phases, numPeers: nat, p: Peer)
    requires PeersOk(connecting, connected, phase, numPeers)
    requires p.serial == numPeers && p.ip.node == p.id && p.id !in connecting && p.id !in connected
    ensures PeersOk(connecting[p.id := p], connected, phase[p := Handshaking], numPeers + 1)
    ensures PhasesSame(connected, phase, connected, phase[p := Handshaking], p.id)
  {
  }

  lemma StartOk(mySubnets: set<SubnetID>, k: Links, h: History, dialled: set<NodeID>, p: Peer)
    requires Agree(mySubnets, k, h, dialled)
    requires p.serial == k.numPeers && p.ip.node == p.id && p.id !in k.connecting && p.id !in k.connected
    ensures Agree(mySubnets, Started(k, p), h, dialled)
  {
    var k' := Started(k, p);
    StartedPeers(k.connecting, k.connected, k.phase, k.numPeers, p);
    StepOther(mySubnets, k, h, k', p.id);
  }

  /** A step of a peer that neither the tracker nor the router knows of. */
  lemma StepOther(mySubnets: set<SubnetID>, k: Links, h: History, k': Links, n: NodeID)
    requires TrackerOk(k.connected, k.phase, h) && RouterOk(mySubnets, k.connected, k.phase, k.trace)
    requires PhasesSame(k.connected, k.phase, k'.connected, k'.phase, n) && k'.trace == k.trace
    requires !PhaseOf(k.connected, k.phase, n).InTracker() && !PhaseOf(k'.connected, k'.phase, n).InTracker()
    requires !PhaseOf(k.connected, k.phase, n).InRouter() && !PhaseOf(k'.connected, k'.phase, n).InRouter()
    requires forall p :: p in k'.phase && k'.phase[p].Announcing? ==> p in k.phase && k.phase[p] == k'.phase[p]
    ensures TrackerOk(k'.connected, k'.phase, h) && RouterOk(mySubnets, k'.connected, k'.phase, k'.trace)
  {
    TrackerStep(k.connected, k.phase, h, k'.connected, k'.phase, h, n);
    assert RouterView(k.trace, n) == ExpectedView(mySubnets, k.connected, k.phase, n);
    RouterStep(mySubnets, k.connected, k.phase, k.trace, k'.connected, k'.phase, k'.trace, n);
  }

  ghost function Promotion(k: Links, p: Peer): Links {
    k.(connecting := k.connecting - {p.id}, connected := k.connected[p.id := p]).To(p, Promoted)
  }

  lemma PromotedPeers(connecting: PeerSet, connected: PeerSet, phase: Phases, numPeers: nat, p: Peer)
    requires PeersOk(connecting, connected, phase, numPeers) && p in phase && phase[p] == Handshaking
    ensures p.id in connecting && connecting[p.id] == p && p.id !in connected
    ensures PeersOk(connecting - {p.id}, connected[p.id := p], phase[p := Promoted], numPeers)
    ensures PhasesSame(connected, phase, connected[p.id := p], phase[p := Promoted], p.id)
  {
  }

  lemma PromoteOk(mySubnets: set<SubnetID>, k: Links, h: History, dialled: set<NodeID>, p: Peer)
    requires Agree(mySubnets, k, h, dialled) && k.At(p, Handshaking)
    ensures p.id in k.connecting && k.connecting[p.id] == p
    ensures Agree(mySubnets, Promotion(k, p), h, dialled - {p.id})
  {
    PromotedPeers(k.connecting, k.connected, k.phase, k.numPeers, p);
    StepOther(mySubnets, k, h, Promotion(k, p), p.id);
  }

  lemma RegisterOk(mySubnets: set<SubnetID>, k: Links, h: History, dialled: set<NodeID>, p: Peer)
    requires Agree(mySubnets, k, h, dialled) && k.At(p, Promoted)
    ensures ConnectionOf(h, p.id).None? && p.ip.node == p.id
    ensures Agree(mySubnets, k.To(p, Registered), Then(h, PeerConnected(p.ip, p.trackedSubnets)), dialled)
  {
    var k', h' := k.To(p, Registered), Then(h, PeerConnected(p.ip, p.trackedSubnets));
    MovedPeers(k.connecting, k.connected, k.phase, k.numPeers, p, Registered);
    assert PhaseOf(k.connected, k.phase, p.id) == Promoted;
    TrackerStep(k.connected, k.phase, h, k'.connected, k'.phase, h', p.id);
    assert RouterView(k.trace, p.id) == ExpectedView(mySubnets, k.connected, k.phase, p.id);
    RouterStep(mySubnets, k.connected, k.phase, k.trace, k'.connected, k'.phase, k.trace, p.id);
  }

  lemma AnnouncePrimaryOk(mySubnets: set<SubnetID>, k: Links, h: History, dialled: set<NodeID>, p: Peer)
    requires Agree(mySubnets, k, h, dialled) && k.At(p, Registered)
    ensures Agree(mySubnets, k.To(p, Announcing(mySubnets * p.trackedSubnets))
                              .Says(RouterConnected(p.id, PrimaryNetworkID)), h, dialled)
  {
    var all := mySubnets * p.trackedSubnets;
    var k' := k.To(p, Announcing(all)).Says(RouterConnected(p.id, PrimaryNetworkID));
    MovedPeers(k.connecting, k.connected, k.phase, k.numPeers, p, Announcing(all));
    assert PhaseOf(k.connected, k.phase, p.id) == Registered;
    TrackerStep(k.connected, k.phase, h, k'.connected, k'.phase, h, p.id);
    assert RouterView(k.trace, p.id) == ExpectedView(mySubnets, k.connected, k.phase, p.id);
    assert {PrimaryNetworkID} + (all - all) == {PrimaryNetworkID};
    RouterStep(mySubnets, k.connected, k.phase, k.trace, k'.connected, k'.phase, k'.trace, p.id);
  }

  lemma AnnounceSubnetOk(mySubnets: set<SubnetID>, k: Links, h: History, dialled: set<NodeID>, p: Peer,
                         rest: set<SubnetID>, s: SubnetID)
    requires Agree(mySubnets, k, h, dialled) && k.At(p, Announcing(rest))
    requires s in rest
    ensures Agree(mySubnets, k.To(p, Announcing(rest - {s})).Says(RouterConnected(p.id, s)), h, dialled)
  {
    var k' := k.To(p, Announcing(rest - {s})).Says(RouterConnected(p.id, s));
    MovedPeers(k.connecting, k.connected, k.phase, k.numPeers, p, Announcing(rest - {s}));
    assert PhaseOf(k.connected, k.phase, p.id) == Announcing(rest);
    TrackerStep(k.connected, k.phase, h, k'.connected, k'.phase, h, p.id);
    assert RouterView(k.trace, p.id) == ExpectedView(mySubnets, k.connected, k.phase, p.id);
    var all := mySubnets * p.trackedSubnets;
    assert {PrimaryNetworkID} + (all - rest) + {s} == {PrimaryNetworkID} + (all - (rest - {s}));
    RouterStep(mySubnets, k.connected, k.phase, k.trace, k'.connected, k'.phase, k'.trace, p.id);
  }

  /** What Disconnected reads tells exactly which of the two clean-ups this peer needs. */
  lemma LeaveOk(mySubnets: set<SubnetID>, k: Links, h: History, dialled: set<NodeID>, p: Peer)
    requires Agree(mySubnets, k, h, dialled) && (k.At(p, Handshaking) || k.At(p, Announcing({})))
    ensures p.id in k.connecting <==> k.At(p, Handshaking)
    ensures p.id in k.connected <==> k.At(p, Announcing({}))
    ensures p.id in k.connected ==> k.connected[p.id] == p
    ensures Agree(mySubnets, k.To(p, if p.id in k.connecting then LeavingConnecting else LeavingConnected), h, dialled)
  {
    var next := if k.At(p, Handshaking) then LeavingConnecting else LeavingConnected;
    var k' := k.To(p, next);
    MovedPeers(k.connecting, k.connected, k.phase, k.numPeers, p, next);
    TrackerStep(k.connected, k.phase, h, k'.connected, k'.phase, h, p.id);
    assert RouterView(k.trace, p.id) == ExpectedView(mySubnets, k.connected, k.phase, p.id);
    RouterStep(mySubnets, k.connected, k.phase, k.trace, k'.connected, k'.phase, k.trace, p.id);
  }

  lemma DroppedConnecting(connecting: PeerSet, connected: PeerSet, phase: Phases, numPeers: nat, p: Peer)
    requires PeersOk(connecting, connected, phase, numPeers) && p in phase && phase[p].IsConnecting()
    ensures p.id !in connected && PeersOk(connecting - {p.id}, connected, phase[p := Gone], numPeers)
    ensures PhasesSame(connected, phase, connected, phase[p := Gone], p.id)
  {
  }

  lemma DroppedConnected(connecting: PeerSet, connected: PeerSet, phase: Phases, numPeers: nat, p: Peer)
    requires PeersOk(connecting, connected, phase, numPeers) && p in phase && phase[p].IsConnected()
    ensures p.id in connected && connected[p.id] == p
    ensures PeersOk(connecting, connected - {p.id}, phase[p := Gone], numPeers)
    ensures PhasesSame(connected, phase, connected - {p.id}, phase[p := Gone], p.id)
  {
  }

  lemma DropConnectingOk(mySubnets: set<SubnetID>, k: Links, h: History, dialled: set<NodeID>, p: Peer)
    requires Agree(mySubnets, k, h, dialled) && k.At(p, LeavingConnecting)
    ensures Agree(mySubnets, k.(connecting := k.connecting - {p.id}).To(p, Gone), h, dialled + {p.id})
  {
    DroppedConnecting(k.connecting, k.connected, k.phase, k.numPeers, p);
    StepOther(mySubnets, k, h, k.(connecting := k.connecting - {p.id}).To(p, Gone), p.id);
  }

  lemma UntrackOk(mySubnets: set<SubnetID>, k: Links, h: History, dialled: set<NodeID>, p: Peer)
    requires Agree(mySubnets, k, h, dialled) && k.At(p, LeavingConnected)
    ensures Agree(mySubnets, k.To(p, Untracked), Then(h, PeerDisconnected(p.id)), dialled)
  {
    var k', h' := k.To(p, Untracked), Then(h, PeerDisconnected(p.id));
    MovedPeers(k.connecting, k.connected, k.phase, k.numPeers, p, Untracked);
    TrackerStep(k.connected, k.phase, h, k'.connected, k'.phase, h', p.id);
    assert RouterView(k.trace, p.id) == ExpectedView(mySubnets, k.connected, k.phase, p.id);
    RouterStep(mySubnets, k.connected, k.phase, k.trace, k'.connected, k'.phase, k.trace, p.id);
  }

  lemma UnrouteOk(mySubnets: set<SubnetID>, k: Links, h: History, dialled: set<NodeID>, p: Peer)
    requires Agree(mySubnets, k, h, dialled) && k.At(p, Untracked)
    ensures Agree(mySubnets, k.To(p, Unrouted).Says(RouterDisconnected(p.id)), h, dialled)
  {
    var k' := k.To(p, Unrouted).Says(RouterDisconnected(p.id));
    MovedPeers(k.connecting, k.connected, k.phase, k.numPeers, p, Unrouted);
    assert PhaseOf(k.connected, k.phase, p.id) == Untracked;
    TrackerStep(k.connected, k.phase, h, k'.connected, k'.phase, h, p.id);
    assert RouterView(k.trace, p.id) == ExpectedView(mySubnets, k.connected, k.phase, p.id);
    RouterStep(mySubnets, k.connected, k.phase, k.trace, k'.connected, k'.phase, k'.trace, p.id);
  }

  lemma DropConnectedOk(mySubnets: set<SubnetID>, k: Links, h: History, dialled: set<NodeID>, p: Peer)
    requires Agree(mySubnets, k, h, dialled) && k.At(p, Unrouted)
    ensures p.id in k.connected && p.id !in dialled
    ensures Agree(mySubnets, k.(connected := k.connected - {p.id}).To(p, Gone), h, dialled + {p.id})
  {
    DroppedConnected(k.connecting, k.connected, k.phase, k.numPeers, p);
    StepOther(mySubnets, k, h, k.(connected := k.connected - {p.id}).To(p, Gone), p.id);
  }

  /** Events that are not about connections do not disturb the agreement. */
  lemma OtherEventOk(mySubnets: set<SubnetID>, k: Links, h: History, dialled: set<NodeID>, e: Event)
    requires Agree(mySubnets, k, h, dialled) && !e.PeerConnected? && !e.PeerDisconnected?
    ensures Agree(mySubnets, k, Then(h, e), dialled)
  {
    forall n ensures ConnectionOf(Then(h, e), n) == ConnectionOf(h, n) {
    }
  }

  // ---------------------------------------------------------------- runs

  datatype Snapshot = Snapshot(links: Links, history: History, dialled: set<NodeID>, closing: bool)

  /** One uninterrupted section of some thread. */
  datatype Action =
    | Open(peer: Peer)
    | Promote(peer: Peer)
    | Register(peer: Peer)
    | AnnouncePrimary(peer: Peer)
    | AnnounceSubnet(peer: Peer, subnet: SubnetID)
    | Leave(peer: Peer)
    | DropConnecting(peer: Peer)
    | Untrack(peer: Peer)
    | Unroute(peer: Peer)
    | DropConnected(peer: Peer)
    | Tell(event: Event)   // anything else that happens to the tracker
    | Dial                 // a change to the dialled addresses alone
    | Close                // happens once

  /** The only order between actions is the one within a single peer. */
  ghost predicate Enabled(mySubnets: set<SubnetID>, a: Snapshot, act: Action) {
    var k := a.links;
    match act
    case Open(p) =>
      && !a.closing && p.serial == k.numPeers && p.ip.node == p.id
      && p.id !in k.connecting && p.id !in k.connected
    case Promote(p) => k.At(p, Handshaking)
    case Register(p) => k.At(p, Promoted)
    case AnnouncePrimary(p) => k.At(p, Registered)
    case AnnounceSubnet(p, s) => p in k.phase && k.phase[p].Announcing? && s in k.phase[p].rest
    case Leave(p) => k.At(p, Handshaking) || k.At(p, Announcing({}))
    case DropConnecting(p) => k.At(p, LeavingConnecting)
    case Untrack(p) => k.At(p, LeavingConnected)
    case Unroute(p) => k.At(p, Untracked)
    case DropConnected(p) => k.At(p, Unrouted)
    case Tell(e) => !e.PeerConnected? && !e.PeerDisconnected?
    case Dial => true
    case Close => !a.closing
  }

  ghost function LinksAfter(mySubnets: set<SubnetID>, k: Links, act: Action): Links {
    match act
    case Open(p) => Started(k, p)
    case Promote(p) => Promotion(k, p)
    case Register(p) => k.To(p, Registered)
    case AnnouncePrimary(p) =>
      k.To(p, Announcing(mySubnets * p.trackedSubnets)).Says(RouterConnected(p.id, PrimaryNetworkID))
    case AnnounceSubnet(p, s) =>
      if p in k.phase && k.phase[p].Announcing?
      then k.To(p, Announcing(k.phase[p].rest - {s})).Says(RouterConnected(p.id, s)) else k
    case Leave(p) => k.To(p, if p.id in k.connecting then LeavingConnecting else LeavingConnected)
    case DropConnecting(p) => k.(connecting := k.connecting - {p.id}).To(p, Gone)
    case Untrack(p) => k.To(p, Untracked)
    case Unroute(p) => k.To(p, Unrouted).Says(RouterDisconnected(p.id))
    case DropConnected(p) => k.(connected := k.connected - {p.id}).To(p, Gone)
    case Tell(e) => k
    case Dial => k
    case Close => k
  }

  ghost function HistoryAfter(h: History, act: Action): History {
    match act
    case Register(p) => Then(h, PeerConnected(p.ip, p.trackedSubnets))
    case Untrack(p) => Then(h, PeerDisconnected(p.id))
    case Tell(e) => Then(h, e)
    case _ => h
  }

  /** New addresses are dialled only for a node that is being dropped or is not connected. */
  ghost predicate DialledAfter(a: Snapshot, act: Action, dialled: set<NodeID>) {
    match act
    case Promote(p) => dialled == a.dialled - {p.id}
    case DropConnecting(p) => dialled <= a.dialled
    case DropConnected(p) => dialled <= a.dialled + {p.id}
    case Tell(_) => forall n :: n in dialled && n !in a.dialled ==> n !in a.links.connected
    case Dial => forall n :: n in dialled && n !in a.dialled ==> n !in a.links.connected
    case Close => dialled == {}
    case _ => dialled == a.dialled
  }

  ghost predicate Takes(mySubnets: set<SubnetID>, a: Snapshot, act: Action, b: Snapshot) {
    && Enabled(mySubnets, a, act)
    && b.links == LinksAfter(mySubnets, a.links, act)
    && b.history == HistoryAfter(a.history, act)
    && DialledAfter(a, act, b.dialled)
    && b.closing == (a.closing || act.Close?)
  }

  ghost predicate AgreeAt(mySubnets: set<SubnetID>, a: Snapshot) {
    Agree(mySubnets, a.links, a.history, a.dialled)
  }

  lemma StepOk(mySubnets: set<SubnetID>, a: Snapshot, act: Action, b: Snapshot)
    requires AgreeAt(mySubnets, a) && Takes(mySubnets, a, act, b)
    ensures AgreeAt(mySubnets, b)
  {
    var k, h, d := a.links, a.history, a.dialled;
    match act
    case Open(p) => StartOk(mySubnets, k, h, d, p);
    case Promote(p) => PromoteOk(mySubnets, k, h, d, p);
    case Register(p) => RegisterOk(mySubnets, k, h, d, p);
    case AnnouncePrimary(p) => AnnouncePrimaryOk(mySubnets, k, h, d, p);
    case AnnounceSubnet(p, s) => AnnounceSubnetOk(mySubnets, k, h, d, p, k.phase[p].rest, s);
    case Leave(p) => LeaveOk(mySubnets, k, h, d, p);
    case DropConnecting(p) => DropConnectingOk(mySubnets, k, h, d, p);
    case Untrack(p) => UntrackOk(mySubnets, k, h, d, p);
    case Unroute(p) => UnrouteOk(mySubnets, k, h, d, p);
    case DropConnected(p) => DropConnectedOk(mySubnets, k, h, d, p);
    case Tell(e) => OtherEventOk(mySubnets, k, h, d, e);
    case Dial =>
    case Close =>
  }

  ghost predicate IsRun(mySubnets: set<SubnetID>, states: seq<Snapshot>, acts: seq<Action>) {
    && |states| == |acts| + 1
    && forall i :: 0 <= i < |acts| ==> Takes(mySubnets, states[i], acts[i], states[i + 1])
  }

  ghost predicate FromScratch(mySubnets: set<SubnetID>, a: Snapshot) {
    && PrimaryNetworkID !in mySubnets
    && a.links == Links(map[], map[], map[], 0, Silence) && a.dialled == {} && !a.closing
    && (forall n :: ConnectionOf(a.history, n).None?)
  }

  lemma {:induction false} EveryRunAgrees(mySubnets: set<SubnetID>, states: seq<Snapshot>, acts: seq<Action>, i: nat)
    requires IsRun(mySubnets, states, acts) && FromScratch(mySubnets, states[0]) && i < |states|
    ensures AgreeAt(mySubnets, states[i])
  {
    if i == 0 {
      InitiallyAgree(mySubnets, states[0].history);
    } else {
      EveryRunAgrees(mySubnets, states, acts, i - 1);
      assert Takes(mySubnets, states[i - 1], acts[i - 1], states[i - 1 + 1]);
      StepOk(mySubnets, states[i - 1], acts[i - 1], states[i]);
    }
  }

  /** Under every interleaving: connecting and connected peers stay disjoint, no connected node is dialled, the router
      hears of every node in an orderly way, and the tracker is never told twice that a node is connected. */
  lemma EveryRunIsSafe(mySubnets: set<SubnetID>, states: seq<Snapshot>, acts: seq<Action>, i: nat)
    requires IsRun(mySubnets, states, acts) && FromScratch(mySubnets, states[0]) && i < |states|
    ensures states[i].links.connecting.Keys !! states[i].links.connected.Keys
    ensures states[i].dialled !! states[i].links.connected.Keys
    ensures Orderly(states[i].links.trace)
    ensures i < |acts| && acts[i].Register? ==> ConnectionOf(states[i].history, acts[i].peer.id).None?
  {
    EveryRunAgrees(mySubnets, states, acts, i);
    if i < |acts| && acts[i].Register? {
      assert Takes(mySubnets, states[i], acts[i], states[i + 1]);
      RegisterOk(mySubnets, states[i].links, states[i].history, states[i].dialled, acts[i].peer);
    }
  }

  /** In every state of every run, tracker and router know what they should: exactly the nodes whose peer has told them and
      has not taken it back, with that peer's IP and subnets, and once a peer is done announcing the router knows it on the
      primary network and on every shared subnet. */
  lemma EveryRunInforms(mySubnets: set<SubnetID>, states: seq<Snapshot>, acts: seq<Action>, i: nat, p: Peer, n: NodeID)
    requires IsRun(mySubnets, states, acts) && FromScratch(mySubnets, states[0]) && i < |states|
    ensures var k, h := states[i].links, states[i].history;
            p in k.phase && (k.phase[p].Registered? || k.phase[p].Announcing? || k.phase[p].LeavingConnected?) ==>
              ConnectionOf(h, p.id) == Some(Connection(p.trackedSubnets, p.ip))
    ensures var k, h := states[i].links, states[i].history;
            ConnectionOf(h, n).Some? ==>
              exists q :: q in k.phase && q.id == n
                          && (k.phase[q].Registered? || k.phase[q].Announcing? || k.phase[q].LeavingConnected?)
    ensures var k := states[i].links;
            p in k.phase && (k.phase[p] == Announcing({}) || k.phase[p].LeavingConnected? || k.phase[p].Untracked?) ==>
              RouterView(k.trace, p.id) == Some({PrimaryNetworkID} + mySubnets * p.trackedSubnets)
    ensures var k := states[i].links;
            RouterView(k.trace, n).Some? ==>
              exists q :: q in k.phase && q.id == n
                          && (k.phase[q].Announcing? || k.phase[q].LeavingConnected? || k.phase[q].Untracked?)
  {
    EveryRunAgrees(mySubnets, states, acts, i);
    var k := states[i].links;
    assert RouterView(k.trace, n) == ExpectedView(mySubnets, k.connected, k.phase, n);
    if p in k.phase && k.phase[p].IsConnected() {
      assert PhaseOf(k.connected, k.phase, p.id) == k.phase[p];
      assert RouterView(k.trace, p.id) == ExpectedView(mySubnets, k.connected, k.phase, p.id);
      var all := mySubnets * p.trackedSubnets;
      assert all - {} == all;
    }
  }

  /** Once the network is closing it stays so: no peer starts any more, and it does not close again. */
  lemma {:induction false} ClosedForGood(mySubnets: set<SubnetID>, states: seq<Snapshot>, acts: seq<Action>, i: nat, j: nat)
    requires IsRun(mySubnets, states, acts) && i <= j < |states| && states[i].closing
    ensures states[j].closing && states[j].links.numPeers == states[i].links.numPeers
    ensures j < |acts| ==> !acts[j].Open? && !acts[j].Close?
  {
    if i < j {
      ClosedForGood(mySubnets, states, acts, i, j - 1);
      assert Takes(mySubnets, states[j - 1], acts[j - 1], states[j]);
    }
    if j < |acts| {
      assert Takes(mySubnets, states[j], acts[j], states[j + 1]);
    }
  }
}
