/** The tracker of peers' IPs: linked maps kept consistent under connections, validator changes,
    manual configuration and gossip. */
module IpTrackers {
  import opened Collections
  import opened Ids
  import opened Sealing
  import opened TrackerHistory
  import opened TrackerState
  import opened GossipableSubnets
  import opened SubnetTables
  import opened GossipReply

  const MaxIPEntriesPerNode := 2

  const UntrackedTimestamp := -2
  const OlderTimestamp := -1
  const SameTimestamp := 0
  const NewerTimestamp := 1
  const NewTimestamp := 2

  /** A bloom filter as the set of IDs that were added to it. */
  datatype BloomFilter = BloomFilter(added: set<GossipID>, count: nat)

  class IpTracker {
    const config: Config
    const numTrackedPeers: Gauge
    const subnets: SubnetTable

    var tracked: TrackedMap
    var bloom: BloomFilter
    var bloomAdditions: map<NodeID, nat>
    var maxBloomCount: int
    var connected: ConnectedMap

    ghost var history: History      // everything that has happened to this tracker
    ghost var bloomCurrent: bool    // no reset has failed in the middle of an update since the last good one

    ghost var Repr: set<object>

    /** Each tracked node with an IP has one or two additions, and with only one its current IP is in the filter. */
    ghost predicate BloomOk()
      reads this`bloom, this`bloomAdditions, this`bloomCurrent, this`tracked
    {
      && (forall n :: n in bloomAdditions ==> 1 <= bloomAdditions[n] <= 2)
      && (bloomCurrent ==>
            forall n :: n in tracked && tracked[n].ip.Some? ==>
              && n in bloomAdditions
              && (bloomAdditions[n] < 2 ==> GossipIDOf(tracked[n].ip.value) in bloom.added))
    }

    /** The part of Valid that does not mention the history. */
    ghost predicate Consistent()
      reads this, Repr
    {
      && this in Repr && numTrackedPeers in Repr && subnets in Repr && subnets.Repr <= Repr
      && this !in subnets.Repr && numTrackedPeers !in subnets.Repr
      && subnets.Valid()
      && numTrackedPeers.value == |tracked|
      && BloomOk()
    }

    twostate predicate Kept(resetOk: bool)
      reads this, Repr
    {
      && Consistent()
      && fresh(Repr - old(Repr))
      && (old(bloomCurrent) && resetOk ==> bloomCurrent)
    }

    ghost predicate Inv()
      reads this, Repr
    {
      Consistent() && StateOk(config, history, tracked, connected, subnets.views)
    }

    ghost predicate Valid()
      reads this, Repr
    {
      forall k {:trigger Opened(k)} :: Opened(k) ==> Inv()
    }

    /** What every operation promises: it is recorded in the history and the state follows it. */
    twostate predicate Recorded(e: Event, resetOk: bool)
      reads this, Repr
    {
      Kept(resetOk) && history == Then(old(history), e) && Valid()
    }

    constructor (config: Config, maxBloomCount: int)
      ensures Valid() && fresh(Repr)
      ensures this.config == config && history == Start && bloomCurrent
    {
      this.config := config;
      var gauge := new Gauge();
      var table := new SubnetTable();
      numTrackedPeers, subnets := gauge, table;
      tracked, connected := map[], map[];
      bloom, bloomAdditions, this.maxBloomCount := BloomFilter({}, 0), map[], maxBloomCount;
      history, bloomCurrent := Start, true;
      Repr := {this, gauge} + table.Repr;
      new;
      assert BloomOk() && StateOk(config, Start, map[], map[], map[]) by { InitiallyOk(config); }
    }

    // -------------------------------------------------------------- bloom filter

    /** Fails, changing nothing, if randomness or the new filter cannot be obtained. */
    method ResetBloomFilter(resetOk: bool)
      requires BloomOk()
      modifies this`bloom, this`bloomAdditions, this`maxBloomCount, this`bloomCurrent
      ensures BloomOk()
      ensures resetOk ==> bloomCurrent
      ensures resetOk ==> bloomAdditions == map n | n in tracked && tracked[n].ip.Some? :: 1
      ensures !resetOk ==> bloom == old(bloom) && bloomAdditions == old(bloomAdditions)
                           && bloomCurrent == old(bloomCurrent) && maxBloomCount == old(maxBloomCount)
    {
      if !resetOk {
        return;
      }
      var newFilter := BloomFilter({}, 0);
      bloomAdditions := map[];
      maxBloomCount := *;
      var rest := tracked.Keys;
      while rest != {}
        invariant rest <= tracked.Keys
        invariant bloomAdditions == map n | n in tracked && n !in rest && tracked[n].ip.Some? :: 1
        invariant forall n :: n in tracked && n !in rest && tracked[n].ip.Some? ==>
                    GossipIDOf(tracked[n].ip.value) in newFilter.added
        decreases rest
      {
        var nodeID :| nodeID in rest;
        rest := rest - {nodeID};
        var trackedNode := tracked[nodeID];
        if trackedNode.ip.None? {
          continue;
        }
        newFilter := BloomFilter(newFilter.added + {GossipIDOf(trackedNode.ip.value)}, newFilter.count + 1);
        bloomAdditions := bloomAdditions[nodeID := 1];
      }
      bloom := newFilter;
      bloomCurrent := true;
    }

    method UpdateMostRecentTrackedIP(ip: ClaimedIP, resetOk: bool)
      requires BloomOk() && ip.node in tracked
      modifies this`tracked, this`bloom, this`bloomAdditions, this`maxBloomCount, this`bloomCurrent
      ensures BloomOk()
      ensures old(bloomCurrent) && resetOk ==> bloomCurrent
      ensures tracked == WithIP(old(tracked), ip.node, ip)
    {
      tracked := tracked[ip.node := tracked[ip.node].(ip := Some(ip))];
      var oldCount := if ip.node in bloomAdditions then bloomAdditions[ip.node] else 0;
      if oldCount >= MaxIPEntriesPerNode {
        return;
      }
      if bloom.count >= maxBloomCount {
        bloomCurrent := false;  // the current IP is in no filter unless the reset succeeds
        ResetBloomFilter(resetOk);
        return;
      }
      bloomAdditions := bloomAdditions[ip.node := oldCount + 1];
      bloom := BloomFilter(bloom.added + {GossipIDOf(ip)}, bloom.count + 1);
    }

    method ResetBloom(resetOk: bool) returns (ok: bool)
      requires Valid()
      modifies this`bloom, this`bloomAdditions, this`maxBloomCount, this`bloomCurrent
      ensures Valid() && history == old(history)
      ensures ok == resetOk
      ensures ok ==> bloomCurrent
      ensures !ok ==> bloomCurrent == old(bloomCurrent) && bloom == old(bloom)
    {
      assert Opened(0);
      ResetBloomFilter(resetOk);
      assert Inv();
      ok := resetOk;
    }

    // -------------------------------------------------------------- connections and IPs

    method OfferIP(ip: ClaimedIP, resetOk: bool) returns (comparison: int)
      requires BloomOk()
      modifies this`tracked, this`bloom, this`bloomAdditions, this`maxBloomCount, this`bloomCurrent
      ensures BloomOk()
      ensures old(bloomCurrent) && resetOk ==> bloomCurrent
      ensures tracked == Offered(old(tracked), ip)
      ensures comparison > SameTimestamp <==> tracked != old(tracked)
      ensures ip.node !in old(tracked) <==> comparison == UntrackedTimestamp
      ensures ip.node in old(tracked) && old(tracked)[ip.node].ip.None? <==> comparison == NewTimestamp
      ensures ip.node in old(tracked) && old(tracked)[ip.node].ip.Some? ==>
                var known := old(tracked)[ip.node].ip.value.timestamp;
                && (comparison == OlderTimestamp <==> ip.timestamp < known)
                && (comparison == SameTimestamp <==> ip.timestamp == known)
                && (comparison == NewerTimestamp <==> ip.timestamp > known)
    {
      if ip.node !in tracked {
        return UntrackedTimestamp;
      }
      var node := tracked[ip.node];
      if node.ip.None? {
        UpdateMostRecentTrackedIP(ip, resetOk);
        assert tracked[ip.node].ip == Some(ip);
        return NewTimestamp;
      }
      if node.ip.value.timestamp > ip.timestamp {
        assert tracked == Offered(tracked, ip);
        return OlderTimestamp;
      }
      if node.ip.value.timestamp == ip.timestamp {
        assert tracked == Offered(tracked, ip);
        return SameTimestamp;
      }
      UpdateMostRecentTrackedIP(ip, resetOk);
      assert tracked[ip.node].ip == Some(ip);
      return NewerTimestamp;
    }

    /** The caller never reports a connection to a node that is already connected. */
    method Connected(ip: ClaimedIP, trackedSubnets: set<SubnetID>, resetOk: bool)
      requires Valid() && ConnectionOf(history, ip.node).None?
      modifies Repr
      ensures Recorded(PeerConnected(ip, trackedSubnets), resetOk)
    {
      assert Opened(0);
      RecordConnection(ip, trackedSubnets, resetOk);
      PeerConnectedOk(config, old(history), old(tracked), old(connected), old(subnets.views), ip, trackedSubnets,
                      subnets.views);
    }

    method RecordConnection(ip: ClaimedIP, trackedSubnets: set<SubnetID>, resetOk: bool)
      requires Consistent()
      modifies Repr
      ensures Kept(resetOk) && history == Then(old(history), PeerConnected(ip, trackedSubnets))
      ensures connected == old(connected)[ip.node := Connection(trackedSubnets, ip)]
      ensures tracked == Offered(old(tracked), ip)
      ensures if ip.node in tracked
              then EntriesSet(old(subnets.views), subnets.views, tracked[ip.node].ip.value, trackedSubnets)
              else subnets.views == old(subnets.views)
    {
      history := Then(history, PeerConnected(ip, trackedSubnets));
      connected := connected[ip.node := Connection(trackedSubnets, ip)];
      var comparison := OfferIP(ip, resetOk);
      if comparison != UntrackedTimestamp {
        subnets.SetGossipableIP(tracked[ip.node].ip.value, trackedSubnets);
      }
    }

    /** True exactly when a wanted node's IP was replaced by a newer one. */
    method AddIP(ip: ClaimedIP, resetOk: bool) returns (r: bool)
      requires Valid()
      modifies Repr
      ensures Recorded(IPAdded(ip), resetOk)
      ensures r <==> Wanted(config, history, ip.node)
                     && LatestIP(config, history, ip.node) != LatestIP(config, old(history), ip.node)
    {
      assert Opened(0);
      r := RecordIP(ip, resetOk);
      IPAddedOk(config, old(history), old(tracked), connected, old(subnets.views), ip, subnets.views);
      RecordMeaning(config, old(history), old(tracked), ip.node);
      RecordMeaning(config, history, tracked, ip.node);
    }

    method RecordIP(ip: ClaimedIP, resetOk: bool) returns (r: bool)
      requires Consistent()
      modifies Repr
      ensures Kept(resetOk) && history == Then(old(history), IPAdded(ip)) && connected == old(connected)
      ensures tracked == Offered(old(tracked), ip)
      ensures if tracked != old(tracked) && ip.node in connected
              then EntriesSet(old(subnets.views), subnets.views, ip, connected[ip.node].subnets)
              else subnets.views == old(subnets.views)
      ensures r <==> tracked != old(tracked) && tracked[ip.node].WantsConnection()
    {
      history := Then(history, IPAdded(ip));
      var comparison := OfferIP(ip, resetOk);
      if comparison <= SameTimestamp {
        return false;
      }
      if ip.node in connected {
        subnets.SetGossipableIP(tracked[ip.node].ip.value, connected[ip.node].subnets);
      }
      return tracked[ip.node].WantsConnection();
    }

    method Disconnected(nodeID: NodeID)
      requires Valid()
      modifies Repr
      ensures Recorded(PeerDisconnected(nodeID), true)
    {
      assert Opened(0);
      DropConnection(nodeID);
      PeerDisconnectedOk(config, old(history), tracked, old(connected), old(subnets.views), nodeID, subnets.views);
    }

    method DropConnection(nodeID: NodeID)
      requires Consistent()
      modifies Repr
      ensures Kept(true) && history == Then(old(history), PeerDisconnected(nodeID)) && tracked == old(tracked)
      ensures connected == old(connected) - {nodeID}
      ensures if nodeID in old(connected)
              then EntriesRemoved(old(subnets.views), subnets.views, nodeID, old(connected)[nodeID].subnets)
              else subnets.views == old(subnets.views)
    {
      history := Then(history, PeerDisconnected(nodeID));
      if nodeID in connected {
        var connectedNode := connected[nodeID];
        connected := connected - {nodeID};
        subnets.RemoveGossipableIP(nodeID, connectedNode.subnets);
      }
    }

    // -------------------------------------------------------------- validators and manual configuration

    /** With no subnet, the node is being tracked manually. */
    method AddTrackableID(nodeID: NodeID, subnetID: Option<SubnetID>, resetOk: bool)
      requires Consistent() && (nodeID in connected ==> connected[nodeID].ip.node == nodeID)
      modifies this`tracked, this`bloom, this`bloomAdditions, this`maxBloomCount, this`bloomCurrent, numTrackedPeers
      ensures Kept(resetOk)
      ensures tracked == AddTrackable(config, old(tracked), connected, nodeID, subnetID)
    {
      var previouslyTracked := nodeID in tracked;
      if !previouslyTracked {
        numTrackedPeers.Inc();
      }
      var node := if previouslyTracked then tracked[nodeID] else TrackedNode(false, {}, {}, None);
      UpdateCount(tracked, nodeID, node.With(config, subnetID));
      tracked := tracked[nodeID := node.With(config, subnetID)];
      if previouslyTracked {
        return;
      }
      if nodeID !in connected {
        return;
      }
      UpdateMostRecentTrackedIP(connected[nodeID].ip, resetOk);
    }

    /** A connected tracked node has an IP, so the list never receives a missing one. */
    method AddGossipableID(nodeID: NodeID, subnetID: SubnetID, manuallyGossiped: bool)
      requires Consistent()
      requires nodeID in connected && nodeID in tracked ==>
                 tracked[nodeID].ip.Some? && tracked[nodeID].ip.value.node == nodeID
      modifies Repr
      ensures Kept(true) && history == old(history) && tracked == old(tracked) && connected == old(connected)
      ensures bloomCurrent == old(bloomCurrent)
      ensures subnets.views == AddGossipable(old(subnets.views), nodeID, subnetID, manuallyGossiped,
                                             EntryFor(tracked, connected, nodeID, subnetID))
    {
      var entry := None;
      if nodeID in connected && subnetID in connected[nodeID].subnets && nodeID in tracked {
        entry := tracked[nodeID].ip;
      }
      subnets.AddGossipableID(nodeID, subnetID, manuallyGossiped, entry);
      Repr := Repr + subnets.Repr;
    }

    method ManuallyTrack(nodeID: NodeID, resetOk: bool)
      requires Valid()
      modifies Repr
      ensures Recorded(TrackerHistory.ManuallyTrack(nodeID), resetOk)
    {
      assert Opened(0);
      AddTrackableID(nodeID, None, resetOk);
      history := Then(history, TrackerHistory.ManuallyTrack(nodeID));
      ManuallyTrackOk(config, old(history), old(tracked), connected, subnets.views, nodeID);
    }

    ghost predicate Known(n: NodeID)
      reads this`tracked, this`connected
    {
      n in connected ==>
        && connected[n].ip.node == n
        && (n in tracked ==> tracked[n].ip.Some? && tracked[n].ip.value.node == n)
    }

    method OnValidatorAdded(subnetID: SubnetID, nodeID: NodeID, resetOk: bool)
      requires Valid()
      modifies Repr
      ensures Recorded(ValidatorAdded(subnetID, nodeID), resetOk)
    {
      assert Opened(0);
      if nodeID in connected { ConnectedNodeKnown(config, history, tracked, connected, nodeID); }
      AddValidator(subnetID, nodeID, resetOk);
      ValidatorAddedOk(config, old(history), old(tracked), connected, old(subnets.views), subnetID, nodeID);
    }

    method AddValidator(subnetID: SubnetID, nodeID: NodeID, resetOk: bool)
      requires Consistent() && Known(nodeID)
      modifies Repr
      ensures Kept(resetOk) && history == Then(old(history), ValidatorAdded(subnetID, nodeID))
      ensures connected == old(connected)
      ensures tracked == AddTrackable(config, old(tracked), connected, nodeID, Some(subnetID))
      ensures subnets.views == AddGossipable(old(subnets.views), nodeID, subnetID, false,
                                             EntryFor(tracked, connected, nodeID, subnetID))
    {
      AddTrackableID(nodeID, Some(subnetID), resetOk);
      AddGossipableID(nodeID, subnetID, false);
      history := Then(history, ValidatorAdded(subnetID, nodeID));
    }

    method ManuallyGossip(subnetID: SubnetID, nodeID: NodeID, resetOk: bool)
      requires Valid()
      modifies Repr
      ensures Recorded(TrackerHistory.ManuallyGossip(subnetID, nodeID), resetOk)
    {
      assert Opened(0);
      if nodeID in connected { ConnectedNodeKnown(config, history, tracked, connected, nodeID); }
      AddManually(subnetID, nodeID, resetOk);
      ManuallyGossipOk(config, old(history), old(tracked), connected, old(subnets.views), subnetID, nodeID);
    }

    method AddManually(subnetID: SubnetID, nodeID: NodeID, resetOk: bool)
      requires Consistent() && Known(nodeID)
      modifies Repr
      ensures Kept(resetOk) && history == Then(old(history), TrackerHistory.ManuallyGossip(subnetID, nodeID))
      ensures connected == old(connected)
      ensures var tracked1 := if subnetID == PrimaryNetworkID || subnetID in config.trackedSubnets
                              then AddTrackable(config, old(tracked), connected, nodeID, None) else old(tracked);
              tracked == AddTrackable(config, tracked1, connected, nodeID, Some(subnetID))
      ensures subnets.views == AddGossipable(old(subnets.views), nodeID, subnetID, true,
                                             EntryFor(tracked, connected, nodeID, subnetID))
    {
      AddTrackableIDs(subnetID, nodeID, resetOk);
      AddGossipableID(nodeID, subnetID, true);
      history := Then(history, TrackerHistory.ManuallyGossip(subnetID, nodeID));
    }

    /** A node that is manually gossiped on a local subnet is also manually tracked. */
    method AddTrackableIDs(subnetID: SubnetID, nodeID: NodeID, resetOk: bool)
      requires Consistent() && Known(nodeID)
      modifies this`tracked, this`bloom, this`bloomAdditions, this`maxBloomCount, this`bloomCurrent, numTrackedPeers
      ensures Kept(resetOk) && Known(nodeID)
      ensures var tracked1 := if subnetID == PrimaryNetworkID || subnetID in config.trackedSubnets
                              then AddTrackable(config, old(tracked), connected, nodeID, None) else old(tracked);
              tracked == AddTrackable(config, tracked1, connected, nodeID, Some(subnetID))
    {
      if subnetID == PrimaryNetworkID || subnetID in config.trackedSubnets {
        AddTrackableID(nodeID, None, resetOk);
      }
      AddTrackableID(nodeID, Some(subnetID), resetOk);
    }

    /** Does nothing for an unknown subnet, or for a node that is manually gossiped on it. */
    method OnValidatorRemoved(subnetID: SubnetID, nodeID: NodeID)
      requires Valid()
      modifies Repr
      ensures Recorded(ValidatorRemoved(subnetID, nodeID), true)
    {
      assert Opened(0);
      if subnetID !in subnets.subnet || nodeID in subnets.subnet[subnetID].manuallyGossipable {
        IgnoredRemovalOk(config, history, tracked, connected, subnets.views, subnetID, nodeID);
        IgnoreRemoval(subnetID, nodeID);
        return;
      }
      RemoveValidator(subnetID, nodeID);
      ValidatorRemovedOk(config, old(history), old(tracked), connected, old(subnets.views), subnetID, nodeID);
    }

    ghost method IgnoreRemoval(subnetID: SubnetID, nodeID: NodeID)
      requires Consistent()
      modifies this`history
      ensures Kept(true) && history == Then(old(history), ValidatorRemoved(subnetID, nodeID))
    {
      history := Then(history, ValidatorRemoved(subnetID, nodeID));
    }

    method RemoveValidator(subnetID: SubnetID, nodeID: NodeID)
      requires Consistent() && subnetID in subnets.subnet
      requires forall m :: m in subnets.views[subnetID].entries ==> m in subnets.views[subnetID].ids
      modifies Repr
      ensures Kept(true) && history == Then(old(history), ValidatorRemoved(subnetID, nodeID))
      ensures connected == old(connected)
      ensures tracked == RemoveTrackable(old(tracked), nodeID, subnetID)
      ensures subnetID in old(subnets.views)
      ensures subnets.views == RemoveGossipable(old(subnets.views), nodeID, subnetID)
    {
      LeaveSubnet(subnetID, nodeID);
      RemoveTrackableID(nodeID, subnetID);
      history := Then(history, ValidatorRemoved(subnetID, nodeID));
    }

    method LeaveSubnet(subnetID: SubnetID, nodeID: NodeID)
      requires Consistent() && subnetID in subnets.subnet
      requires forall m :: m in subnets.views[subnetID].entries ==> m in subnets.views[subnetID].ids
      modifies subnets.Repr
      ensures Consistent() && unchanged(this) && subnetID in old(subnets.views)
      ensures subnets.views == RemoveGossipable(old(subnets.views), nodeID, subnetID)
    {
      subnets.RemoveGossipableID(nodeID, subnetID);
    }

    method RemoveTrackableID(nodeID: NodeID, subnetID: SubnetID)
      requires BloomOk() && numTrackedPeers.value == |tracked|
      modifies this`tracked, numTrackedPeers
      ensures BloomOk() && numTrackedPeers.value == |tracked|
      ensures tracked == RemoveTrackable(old(tracked), nodeID, subnetID)
    {
      if nodeID !in tracked {
        return;
      }
      RemoveTrackableKeeps(tracked, nodeID, subnetID);
      tracked := tracked[nodeID := tracked[nodeID].Without(subnetID)];
      if tracked[nodeID].CanDelete() {
        numTrackedPeers.Dec();
        tracked := tracked - {nodeID};
      }
    }

    // -------------------------------------------------------------- queries

    method WantsConnection(nodeID: NodeID) returns (r: bool)
      requires Valid()
      ensures r <==> Wanted(config, history, nodeID)
    {
      assert Opened(0);
      RecordMeaning(config, history, tracked, nodeID);
      return nodeID in tracked && tracked[nodeID].WantsConnection();
    }

    /** Asks for verification of exactly the claims that AddIP would take from a node of interest. */
    method ShouldVerifyIP(ip: ClaimedIP, trackAllSubnets: bool) returns (r: bool)
      requires Valid()
      ensures r <==> Tracked(config, history, ip.node) && (trackAllSubnets || Wanted(config, history, ip.node))
                     && var known := LatestIP(config, history, ip.node);
                        known.None? || known.value.timestamp < ip.timestamp
    {
      assert Opened(0);
      RecordMeaning(config, history, tracked, ip.node);
      if ip.node !in tracked {
        return false;
      }
      var node := tracked[ip.node];
      if !trackAllSubnets && !node.WantsConnection() {
        return false;
      }
      return node.ip.None? || node.ip.value.timestamp < ip.timestamp;
    }

    method GetIP(nodeID: NodeID) returns (ip: Option<ClaimedIP>, wanted: bool)
      requires Valid()
      ensures ip == LatestIP(config, history, nodeID)
      ensures wanted <==> ip.Some? && Wanted(config, history, nodeID)
    {
      assert Opened(0);
      RecordMeaning(config, history, tracked, nodeID);
      if nodeID !in tracked || tracked[nodeID].ip.None? {
        return None, false;
      }
      return tracked[nodeID].ip, tracked[nodeID].WantsConnection();
    }

    method GetGossipableIPs(iter: set<SubnetID>, r: Request) returns (ips: seq<ClaimedIP>)
      requires Valid()
      ensures Sound(config, history, iter, r, ips) && Complete(config, history, iter, r, ips)
    {
      assert Opened(0);
      ips := [];
      var nodeIDs: set<NodeID> := {};
      var rest := iter;
      ghost var done: set<SubnetID> := {};
      while rest != {}
        invariant done + rest == iter && nodeIDs == Nodes(ips)
        invariant Sound(config, history, done, r, ips) && Complete(config, history, done, r, ips)
        decreases rest
      {
        var subnetID :| subnetID in rest;
        ips, nodeIDs := ExtendReply(done, subnetID, r, ips, nodeIDs);
        rest, done := rest - {subnetID}, done + {subnetID};
        if |ips| >= r.maxNumIPs {
          SoundMonotone(config, history, done, iter, r, ips);
          break;
        }
      }
      assert rest == {} ==> done == iter;
    }

    /** One round of the loop over the requested subnets. */
    method ExtendReply(ghost done: set<SubnetID>, subnetID: SubnetID, r: Request, ips0: seq<ClaimedIP>,
                       nodeIDs0: set<NodeID>) returns (ips: seq<ClaimedIP>, nodeIDs: set<NodeID>)
      requires Valid() && nodeIDs0 == Nodes(ips0)
      requires Sound(config, history, done, r, ips0) && Complete(config, history, done, r, ips0)
      ensures nodeIDs == Nodes(ips)
      ensures Sound(config, history, done + {subnetID}, r, ips) && Complete(config, history, done + {subnetID}, r, ips)
    {
      assert Opened(0);
      if !r.allowed(subnetID) || subnetID !in subnets.subnet {
        SoundMonotone(config, history, done, done + {subnetID}, r, ips0);
        SkippedComplete(config, history, tracked, connected, subnets.views, done, subnetID, r, ips0);
        return ips0, nodeIDs0;
      }
      ips, nodeIDs := ExtendFromList(subnetID, r, ips0, nodeIDs0);
      ghost var list := subnets.subnet[subnetID].gossipableIPs;
      ExtendedSound(config, history, tracked, connected, subnets.views, done, subnetID, r, list, ips0, ips);
      ExtendedComplete(config, history, tracked, connected, subnets.views, done, subnetID, r, list, ips0, ips);
    }

    method ExtendFromList(subnetID: SubnetID, r: Request, ips0: seq<ClaimedIP>, nodeIDs0: set<NodeID>)
      returns (ips: seq<ClaimedIP>, nodeIDs: set<NodeID>)
      requires subnets.Valid() && subnetID in subnets.subnet
      requires nodeIDs0 == Nodes(ips0) && DistinctNodes(ips0) && |ips0| <= r.maxNumIPs
      ensures nodeIDs == Nodes(ips) && DistinctNodes(ips) && |ips| <= r.maxNumIPs
      ensures subnetID in subnets.views
      ensures var list, entries := subnets.subnet[subnetID].gossipableIPs, subnets.views[subnetID].entries;
              && (forall ip :: ip in list <==> ip.node in entries && entries[ip.node] == ip)
              && Extends(ips0, ips, list, r.except, r.known)
              && (|ips| < r.maxNumIPs ==>
                    forall ip :: ip in list && Eligible(ip, r.except, r.known) ==> ip.node in nodeIDs)
    {
      ips, nodeIDs := subnets.subnet[subnetID].GetGossipableIPs(r.except, r.known, r.maxNumIPs, ips0, nodeIDs0);
    }
  }
}
