/** The life of a connection. Each method is one section of code that runs without interruption: a section under
    `peersLock`, or one call to the tracker or the router between such sections. An interleaving of threads is a
    sequence of these calls; within one peer they come in the order that its phase demands. */
module Networks {
  import opened Ids
  import opened TrackerHistory
  import opened IpTrackers
  import opened Dialers
  import opened ConnectionLinks

  class Network {
    const myNodeID: NodeID
    const mySubnets: set<SubnetID>
    const ipTracker: IpTracker
    const dials: Dialer

    var connectingPeers: PeerSet
    var connectedPeers: PeerSet
    var closing: bool
    var numPeers: nat          // peers started so far

    ghost var phase: Phases    // of every peer ever started
    ghost var trace: Trace     // every call to the router

    ghost function L(): Links
      reads this
    {
      Links(connectingPeers, connectedPeers, phase, numPeers, trace)
    }

    ghost function Snap(): Snapshot
      reads this, ipTracker, dials
    {
      Snapshot(L(), ipTracker.history, dials.targets.Keys, closing)
    }

    /** This section of code is one step of the run. */
    twostate predicate Did(act: Action)
      reads this, ipTracker, dials
    {
      Takes(mySubnets, old(Snap()), act, Snap())
    }

    ghost predicate Separate()
      reads this, ipTracker, dials
    {
      ipTracker in ipTracker.Repr && this !in ipTracker.Repr && this !in dials.Repr && dials.Repr !! ipTracker.Repr
    }

    ghost predicate Consistent()
      reads this, ipTracker, dials, dials.Repr
    {
      Separate() && dials.Valid()
    }

    ghost predicate Valid()
      reads this, ipTracker, dials, dials.Repr
    {
      Consistent() && AgreeAt(mySubnets, Snap())
    }

    constructor (myNodeID: NodeID, mySubnets: set<SubnetID>, ipTracker: IpTracker)
      requires ipTracker in ipTracker.Repr && (forall n :: ConnectionOf(ipTracker.history, n).None?)
      requires PrimaryNetworkID !in mySubnets
      ensures Valid() && fresh(dials.Repr)
      ensures this.myNodeID == myNodeID && this.mySubnets == mySubnets && this.ipTracker == ipTracker
      ensures L() == Links(map[], map[], map[], 0, Silence) && dials.targets == map[] && !closing
    {
      this.myNodeID, this.mySubnets, this.ipTracker := myNodeID, mySubnets, ipTracker;
      dials := new Dialer();
      connectingPeers, connectedPeers, closing, numPeers := map[], map[], false, 0;
      phase, trace := map[], Silence;
      InitiallyAgree(mySubnets, ipTracker.history);
    }

    // -------------------------------------------------------------- a new connection

    /** `allowed` is what AllowConnection said before the lock was taken. */
    method Upgrade(id: NodeID, ip: ClaimedIP, trackedSubnets: set<SubnetID>, allowed: bool) returns (r: Option<Peer>)
      requires Valid() && ip.node == id
      modifies this`connectingPeers, this`numPeers, this`phase
      ensures Valid()
      ensures r.Some? <==> id != myNodeID && allowed && !closing
                           && id !in old(connectingPeers) && id !in old(connectedPeers)
      ensures r.None? ==> L() == old(L())
      ensures r.Some? ==> r.value == Peer(old(numPeers), id, ip, trackedSubnets) && Did(Open(r.value))
    {
      if id == myNodeID || !allowed {
        return None;
      }
      if closing || id in connectingPeers || id in connectedPeers {
        return None;
      }
      var peer := Peer(numPeers, id, ip, trackedSubnets);
      AddConnecting(peer);
      StepOk(mySubnets, old(Snap()), Open(peer), Snap());
      return Some(peer);
    }

    method AddConnecting(p: Peer)
      requires Consistent()
      modifies this`connectingPeers, this`numPeers, this`phase
      ensures Consistent() && L() == Started(old(L()), p)
    {
      connectingPeers, numPeers, phase := connectingPeers[p.id := p], numPeers + 1, phase[p := Handshaking];
    }

    /** Where a peer's calls have got, and what they tell the router. */
    ghost method Move(p: Peer, next: Phase, said: Option<RouterEvent>)
      requires Consistent()
      modifies this`phase, this`trace
      ensures Consistent()
      ensures L() == if said.Some? then old(L()).To(p, next).Says(said.value) else old(L()).To(p, next)
    {
      phase := phase[p := next];
      if said.Some? {
        trace := Next(trace, said.value);
      }
    }

    // -------------------------------------------------------------- Connected

    /** The peer that finished its handshake is always found among the connecting ones. */
    method ConnectedLocked(p: Peer)
      requires Valid() && L().At(p, Handshaking)
      modifies this`connectingPeers, this`connectedPeers, this`phase, dials.Repr
      ensures Valid() && Did(Promote(p)) && fresh(dials.Repr - old(dials.Repr)) && dials.Grown()
      ensures dials.targets == old(dials.targets) - {p.id}
    {
      PromoteOk(mySubnets, L(), ipTracker.history, dials.targets.Keys, p);
      MoveToConnected(p);
      StepOk(mySubnets, old(Snap()), Promote(p), Snap());
    }

    method MoveToConnected(p: Peer)
      requires Consistent() && L().At(p, Handshaking) && p.id in connectingPeers && connectingPeers[p.id] == p
      modifies this`connectingPeers, this`connectedPeers, this`phase, dials.Repr
      ensures Consistent() && Did(Promote(p)) && fresh(dials.Repr - old(dials.Repr)) && dials.Grown()
      ensures dials.targets == old(dials.targets) - {p.id}
    {
      var peer := connectingPeers[p.id];
      dials.Stop(p.id);
      connectingPeers := connectingPeers - {p.id};
      connectedPeers := connectedPeers[p.id := peer];
      phase := phase[p := Promoted];
    }

    /** The tracker never holds this node as connected already, as it demands. */
    method ConnectedTracker(p: Peer, resetOk: bool)
      requires Valid() && ipTracker.Valid() && L().At(p, Promoted)
      modifies this`phase, ipTracker.Repr
      ensures Valid() && ipTracker.Valid() && Did(Register(p))
      ensures ConnectionOf(old(ipTracker.history), p.id).None?
      ensures ConnectionOf(ipTracker.history, p.id) == Some(Connection(p.trackedSubnets, p.ip))
      ensures fresh(ipTracker.Repr - old(ipTracker.Repr))
    {
      RegisterOk(mySubnets, L(), ipTracker.history, dials.targets.Keys, p);
      TellConnected(p, resetOk);
      StepOk(mySubnets, old(Snap()), Register(p), Snap());
    }

    method TellConnected(p: Peer, resetOk: bool)
      requires Consistent() && ipTracker.Valid() && L().At(p, Promoted)
      requires p.ip.node == p.id && ConnectionOf(ipTracker.history, p.id).None?
      modifies this`phase, ipTracker.Repr
      ensures Consistent() && ipTracker.Valid() && Did(Register(p))
      ensures fresh(ipTracker.Repr - old(ipTracker.Repr))
    {
      phase := phase[p := Registered];
      ipTracker.Connected(p.ip, p.trackedSubnets, resetOk);
    }

    method ConnectedRouterPrimary(p: Peer)
      requires Valid() && L().At(p, Registered)
      modifies this`phase, this`trace
      ensures Valid() && Did(AnnouncePrimary(p))
    {
      Move(p, Announcing(mySubnets * p.trackedSubnets), Some(RouterConnected(p.id, PrimaryNetworkID)));
      StepOk(mySubnets, old(Snap()), AnnouncePrimary(p), Snap());
    }

    /** One round of the loop over the shared subnets, in any order. */
    method ConnectedRouterSubnet(p: Peer, s: SubnetID)
      requires Valid() && p in phase && phase[p].Announcing? && s in phase[p].rest
      modifies this`phase, this`trace
      ensures Valid() && Did(AnnounceSubnet(p, s))
    {
      Move(p, Announcing(phase[p].rest - {s}), Some(RouterConnected(p.id, s)));
      StepOk(mySubnets, old(Snap()), AnnounceSubnet(p, s), Snap());
    }

    // -------------------------------------------------------------- Disconnected

    /** Called once per peer, after its Connected call, if there was one, has returned.
        The lookup by node ID finds this very peer, in exactly one of the two sets. */
    method DisconnectedRead(p: Peer) returns (connecting: bool, connected: bool)
      requires Valid() && (L().At(p, Handshaking) || L().At(p, Announcing({})))
      modifies this`phase, this`trace
      ensures Valid() && Did(Leave(p))
      ensures connecting <==> phase[p] == LeavingConnecting
      ensures connected <==> phase[p] == LeavingConnected
      ensures connected ==> p.id in connectedPeers && connectedPeers[p.id] == p
    {
      LeaveOk(mySubnets, L(), ipTracker.history, dials.targets.Keys, p);
      connecting, connected := p.id in connectingPeers, p.id in connectedPeers;
      Move(p, if connecting then LeavingConnecting else LeavingConnected, None);
    }

    method DisconnectedFromConnecting(p: Peer)
      requires Valid() && ipTracker.Valid() && L().At(p, LeavingConnecting)
      modifies this`connectingPeers, this`phase, dials.Repr
      ensures Valid() && Did(DropConnecting(p)) && fresh(dials.Repr - old(dials.Repr)) && dials.Grown()
      ensures dials.targets == if Wanted(ipTracker.config, ipTracker.history, p.id) then old(dials.targets)
                               else old(dials.targets) - {p.id}
      ensures p.id in old(dials.trackedIPs) ==>
                && old(dials.trackedIPs[p.id]).stopped
                && (p.id in dials.trackedIPs ==> fresh(dials.trackedIPs[p.id]))
    {
      var wanted := ipTracker.WantsConnection(p.id);
      ForgetConnecting(p, wanted);
      StepOk(mySubnets, old(Snap()), DropConnecting(p), Snap());
    }

    method ForgetConnecting(p: Peer, wanted: bool)
      requires Consistent() && L().At(p, LeavingConnecting)
      modifies this`connectingPeers, this`phase, dials.Repr
      ensures Consistent() && Did(DropConnecting(p)) && fresh(dials.Repr - old(dials.Repr)) && dials.Grown()
      ensures dials.targets == if wanted then old(dials.targets) else old(dials.targets) - {p.id}
      ensures p.id in old(dials.trackedIPs) ==>
                && old(dials.trackedIPs[p.id]).stopped
                && (p.id in dials.trackedIPs ==> fresh(dials.trackedIPs[p.id]))
    {
      connectingPeers := connectingPeers - {p.id};
      phase := phase[p := Gone];
      if wanted {
        dials.Retry(p.id);
      } else {
        dials.Stop(p.id);
      }
    }

    method DisconnectedTracker(p: Peer)
      requires Valid() && ipTracker.Valid() && L().At(p, LeavingConnected)
      modifies this`phase, ipTracker.Repr
      ensures Valid() && ipTracker.Valid() && Did(Untrack(p))
      ensures fresh(ipTracker.Repr - old(ipTracker.Repr))
    {
      TellDisconnected(p);
      StepOk(mySubnets, old(Snap()), Untrack(p), Snap());
    }

    method TellDisconnected(p: Peer)
      requires Consistent() && ipTracker.Valid() && L().At(p, LeavingConnected)
      modifies this`phase, ipTracker.Repr
      ensures Consistent() && ipTracker.Valid() && fresh(ipTracker.Repr - old(ipTracker.Repr))
      ensures L() == old(L()).To(p, Untracked)
      ensures ipTracker.history == Then(old(ipTracker.history), PeerDisconnected(p.id))
    {
      phase := phase[p := Untracked];
      ipTracker.Disconnected(p.id);
    }

    method DisconnectedRouter(p: Peer)
      requires Valid() && L().At(p, Untracked)
      modifies this`phase, this`trace
      ensures Valid() && Did(Unroute(p))
    {
      Move(p, Unrouted, Some(RouterDisconnected(p.id)));
      StepOk(mySubnets, old(Snap()), Unroute(p), Snap());
    }

    /** Overwriting the entry of trackedIPs is safe: there is none. */
    method DisconnectedFromConnected(p: Peer)
      requires Valid() && ipTracker.Valid() && L().At(p, Unrouted)
      modifies this`connectedPeers, this`phase, dials.Repr
      ensures Valid() && Did(DropConnected(p)) && fresh(dials.Repr - old(dials.Repr)) && dials.Grown()
      ensures var latest := LatestIP(ipTracker.config, ipTracker.history, p.id);
              dials.targets == if latest.Some? && Wanted(ipTracker.config, ipTracker.history, p.id)
                               then old(dials.targets)[p.id := latest.value.addr] else old(dials.targets)
    {
      var ip, wantsConnection := ipTracker.GetIP(p.id);
      DropConnectedOk(mySubnets, L(), ipTracker.history, dials.targets.Keys, p);
      ForgetConnected(p, ip, wantsConnection);
      StepOk(mySubnets, old(Snap()), DropConnected(p), Snap());
    }

    method ForgetConnected(p: Peer, ip: Option<ClaimedIP>, wantsConnection: bool)
      requires Consistent() && L().At(p, Unrouted) && p.id !in dials.targets && (wantsConnection ==> ip.Some?)
      modifies this`connectedPeers, this`phase, dials.Repr
      ensures Consistent() && Did(DropConnected(p)) && fresh(dials.Repr - old(dials.Repr)) && dials.Grown()
      ensures dials.targets == if wantsConnection then old(dials.targets)[p.id := ip.value.addr] else old(dials.targets)
    {
      connectedPeers := connectedPeers - {p.id};
      phase := phase[p := Gone];
      if wantsConnection {
        dials.Start(p.id, ip.value.addr);
      }
    }

    // -------------------------------------------------------------- dialling

    /** A claimed IP, after its signature was verified outside the lock. */
    method Track(ip: ClaimedIP, resetOk: bool)
      requires Valid() && ipTracker.Valid()
      modifies ipTracker.Repr, dials.Repr
      ensures Valid() && ipTracker.Valid() && Did(Tell(IPAdded(ip)))
      ensures fresh(ipTracker.Repr - old(ipTracker.Repr)) && fresh(dials.Repr - old(dials.Repr)) && dials.Grown()
      ensures var known := LatestIP(ipTracker.config, old(ipTracker.history), ip.node);
              dials.targets == if Wanted(ipTracker.config, ipTracker.history, ip.node)
                                  && LatestIP(ipTracker.config, ipTracker.history, ip.node) != known
                                  && ip.node !in connectedPeers
                               then old(dials.targets)[ip.node := ip.addr] else old(dials.targets)
    {
      var added := TellIP(ip, resetOk);
      if !added || ip.node in connectedPeers {
        return;
      }
      dials.Redirect(ip.node, ip.addr);
    }

    method TellIP(ip: ClaimedIP, resetOk: bool) returns (added: bool)
      requires Valid() && ipTracker.Valid()
      modifies ipTracker.Repr
      ensures Valid() && ipTracker.Valid() && fresh(ipTracker.Repr - old(ipTracker.Repr))
      ensures ipTracker.history == Then(old(ipTracker.history), IPAdded(ip)) && dials.targets == old(dials.targets)
      ensures added <==> Wanted(ipTracker.config, ipTracker.history, ip.node)
                         && LatestIP(ipTracker.config, ipTracker.history, ip.node)
                              != LatestIP(ipTracker.config, old(ipTracker.history), ip.node)
    {
      OtherEventOk(mySubnets, L(), ipTracker.history, dials.targets.Keys, IPAdded(ip));
      added := ipTracker.AddIP(ip, resetOk);
    }

    method ManuallyTrackTracker(nodeID: NodeID, resetOk: bool)
      requires Valid() && ipTracker.Valid()
      modifies ipTracker.Repr
      ensures Valid() && ipTracker.Valid() && Did(Tell(TrackerHistory.ManuallyTrack(nodeID)))
      ensures fresh(ipTracker.Repr - old(ipTracker.Repr))
    {
      OtherEventOk(mySubnets, L(), ipTracker.history, dials.targets.Keys, TrackerHistory.ManuallyTrack(nodeID));
      ipTracker.ManuallyTrack(nodeID, resetOk);
    }

    method ManuallyTrackLocked(nodeID: NodeID, ip: nat)
      requires Valid()
      modifies dials.Repr
      ensures Valid() && Did(Dial) && fresh(dials.Repr - old(dials.Repr)) && dials.Grown()
      ensures dials.targets == if nodeID in connectedPeers || nodeID in old(dials.targets) then old(dials.targets)
                               else old(dials.targets)[nodeID := ip]
    {
      if nodeID in connectedPeers {
        return;
      }
      if nodeID !in dials.trackedIPs {
        dials.Start(nodeID, ip);
      }
    }

    /** One round of a dialling thread, up to the decision whether to go on and dial. */
    method DialTick(nodeID: NodeID) returns (proceed: bool)
      requires Valid() && ipTracker.Valid()
      modifies dials.Repr
      ensures Valid() && Did(Dial) && fresh(dials.Repr - old(dials.Repr)) && dials.Grown()
      ensures dials.targets == if Wanted(ipTracker.config, ipTracker.history, nodeID) then old(dials.targets)
                               else old(dials.targets) - {nodeID}
      ensures proceed <==> Wanted(ipTracker.config, ipTracker.history, nodeID)
                           && nodeID !in connectingPeers && nodeID !in connectedPeers
    {
      var wanted := ipTracker.WantsConnection(nodeID);
      if !wanted {
        dials.Stop(nodeID);
        return false;
      }
      return nodeID !in connectingPeers && nodeID !in connectedPeers;
    }

    /** Closes once: afterwards nothing is dialled, every object ever dialled is stopped, and every peer is told. */
    method StartClose() returns (told: set<Peer>)
      requires Valid()
      modifies this`closing, dials.Repr
      ensures Valid() && closing && fresh(dials.Repr - old(dials.Repr)) && dials.Grown()
      ensures old(closing) ==> Snap() == old(Snap()) && told == {}
      ensures !old(closing) ==>
                && Did(Close) && (forall t :: t in dials.created ==> t.stopped)
                && told == connectingPeers.Values + connectedPeers.Values
    {
      if closing {
        return {};
      }
      closing := true;
      dials.StopAll();
      told := connectingPeers.Values + connectedPeers.Values;
    }
  }
}
