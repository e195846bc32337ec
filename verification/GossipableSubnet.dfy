/** One subnet's gossip list: a dense slice of IPs with an index by node. */
module GossipableSubnets {
  import opened Collections
  import opened Ids
  import opened Sampler

  class Gauge {
    var value: int

    constructor ()
      ensures value == 0
    {
      value := 0;
    }

    method Inc()
      modifies this
      ensures value == old(value) + 1
    {
      value := value + 1;
    }

    method Dec()
      modifies this
      ensures value == old(value) - 1
    {
      value := value - 1;
    }
  }

  /** What a gossip list holds, without its layout. */
  datatype SubnetView = SubnetView(manual: set<NodeID>, ids: set<NodeID>, entries: map<NodeID, ClaimedIP>)

  /** The index is a bijection between the listed nodes and the positions of the slice, which holds the entries. */
  ghost predicate IndexOk(indices: map<NodeID, nat>, ips: seq<ClaimedIP>, entries: map<NodeID, ClaimedIP>) {
    && entries.Keys == indices.Keys
    && (forall n :: n in indices ==> indices[n] < |ips| && ips[indices[n]] == entries[n] && entries[n].node == n)
    && (forall i :: 0 <= i < |ips| ==> ips[i].node in indices && indices[ips[i].node] == i)
  }

  lemma ReplaceOk(indices: map<NodeID, nat>, ips: seq<ClaimedIP>, entries: map<NodeID, ClaimedIP>, ip: ClaimedIP)
    requires IndexOk(indices, ips, entries) && ip.node in indices
    ensures IndexOk(indices, ips[indices[ip.node] := ip], entries[ip.node := ip])
  {
  }

  lemma AppendOk(indices: map<NodeID, nat>, ips: seq<ClaimedIP>, entries: map<NodeID, ClaimedIP>, ip: ClaimedIP)
    requires IndexOk(indices, ips, entries) && ip.node !in indices
    ensures IndexOk(indices[ip.node := |ips|], ips + [ip], entries[ip.node := ip])
  {
    var indices', ips', entries' := indices[ip.node := |ips|], ips + [ip], entries[ip.node := ip];
    assert ips'[|ips|] == ip;
    forall n | n in indices' ensures indices'[n] < |ips'| && ips'[indices'[n]] == entries'[n] {
      assert n != ip.node ==> ips'[indices[n]] == ips[indices[n]];
    }
  }

  lemma LastRemoveOk(indices: map<NodeID, nat>, ips: seq<ClaimedIP>, entries: map<NodeID, ClaimedIP>, n: NodeID)
    requires IndexOk(indices, ips, entries) && n in indices && indices[n] == |ips| - 1
    ensures IndexOk(indices - {n}, ips[..|ips| - 1], entries - {n})
  {
    forall m | m in indices - {n} ensures indices[m] < |ips| - 1 {
      assert ips[indices[m]].node == m && ips[|ips| - 1].node == n;
    }
  }

  /** Moving the last IP into the gap removes exactly one entry. */
  lemma SwapRemoveOk(indices: map<NodeID, nat>, ips: seq<ClaimedIP>, entries: map<NodeID, ClaimedIP>, n: NodeID)
    requires IndexOk(indices, ips, entries) && n in indices
    ensures IndexOk(indices[ips[|ips| - 1].node := indices[n]] - {n}, ips[indices[n] := ips[|ips| - 1]][..|ips| - 1],
                    entries - {n})
  {
    var gap, last := indices[n], |ips| - 1;
    var indices' := indices[ips[last].node := gap] - {n};
    var ips' := ips[gap := ips[last]][..last];
    forall m | m in indices'
      ensures indices'[m] < last && ips'[indices'[m]] == entries[m]
    {
      assert indices[m] == last ==> m == ips[last].node;
    }
    forall i | 0 <= i < last
      ensures ips'[i].node in indices' && indices'[ips'[i].node] == i
    {
      assert i != gap ==> indices[ips[i].node] == i;
    }
  }

  /** Removes by moving the last IP into the gap. */
  method SwapRemove(indices0: map<NodeID, nat>, ips0: seq<ClaimedIP>, n: NodeID, ghost entries: map<NodeID, ClaimedIP>)
    returns (indices: map<NodeID, nat>, ips: seq<ClaimedIP>)
    requires IndexOk(indices0, ips0, entries) && n in indices0
    ensures IndexOk(indices, ips, entries - {n})
  {
    indices, ips := indices0, ips0;
    var indexToRemove := indices[n];
    var newNumGossipable := |ips| - 1;
    if newNumGossipable == indexToRemove {
      LastRemoveOk(indices, ips, entries, n);
    } else {
      SwapRemoveOk(indices, ips, entries, n);
      var replacementIP := ips[newNumGossipable];
      indices := indices[replacementIP.node := indexToRemove];
      ips := ips[indexToRemove := replacementIP];
    }
    indices := indices - {n};
    ips := ips[..newNumGossipable];
  }

  ghost function AddToView(v: SubnetView, n: NodeID, manual: bool, entry: Option<ClaimedIP>): SubnetView {
    SubnetView(v.manual + (if manual then {n} else {}), v.ids + {n},
               if n in v.ids || entry.None? then v.entries else v.entries[n := entry.value])
  }

  ghost function RemoveFromView(v: SubnetView, n: NodeID): SubnetView {
    v.(ids := v.ids - {n}, entries := v.entries - {n})
  }

  ghost function Nodes(ips: seq<ClaimedIP>): set<NodeID> {
    if ips == [] then {} else Nodes(ips[..|ips| - 1]) + {ips[|ips| - 1].node}
  }

  lemma {:induction false} NodesMeaning(ips: seq<ClaimedIP>, n: NodeID)
    ensures n in Nodes(ips) <==> exists i :: 0 <= i < |ips| && ips[i].node == n
  {
    if ips != [] {
      NodesMeaning(ips[..|ips| - 1], n);
      assert n == ips[|ips| - 1].node ==> exists i :: 0 <= i < |ips| && ips[i].node == n;
    }
  }

  ghost predicate DistinctNodes(ips: seq<ClaimedIP>) {
    forall i, j :: 0 <= i < j < |ips| ==> ips[i].node != ips[j].node
  }

  lemma AppendNode(ips: seq<ClaimedIP>, ip: ClaimedIP)
    requires DistinctNodes(ips) && ip.node !in Nodes(ips)
    ensures DistinctNodes(ips + [ip]) && Nodes(ips + [ip]) == Nodes(ips) + {ip.node}
  {
    assert (ips + [ip])[..|ips|] == ips;
    NodesMeaning(ips, ip.node);
  }

  /** `ip` may be told to `except`, who already knows the claims that satisfy `known`. */
  predicate Eligible(ip: ClaimedIP, except: NodeID, known: GossipID -> bool) {
    ip.node != except && !known(GossipIDOf(ip))
  }

  /** `ips` is `ips0` followed by eligible members of `list`. */
  ghost predicate Extends(ips0: seq<ClaimedIP>, ips: seq<ClaimedIP>, list: seq<ClaimedIP>,
                          except: NodeID, known: GossipID -> bool) {
    && ips0 <= ips
    && forall i :: |ips0| <= i < |ips| ==> ips[i] in list && Eligible(ips[i], except, known)
  }

  lemma ExtendsAppend(ips0: seq<ClaimedIP>, ips: seq<ClaimedIP>, list: seq<ClaimedIP>,
                      except: NodeID, known: GossipID -> bool, k: nat)
    requires Extends(ips0, ips, list, except, known)
    requires k < |list| && Eligible(list[k], except, known)
    ensures Extends(ips0, ips + [list[k]], list, except, known)
  {
  }

  /** Every eligible member of `list` whose position is not in `remaining` has its node in `nodeIDs`. */
  ghost predicate Covers(nodeIDs: set<NodeID>, list: seq<ClaimedIP>, remaining: set<nat>,
                         except: NodeID, known: GossipID -> bool) {
    forall k :: 0 <= k < |list| && k !in remaining ==> Eligible(list[k], except, known) ==> list[k].node in nodeIDs
  }

  /** A reply that has been extended from all positions of `list` but the remaining ones. */
  ghost predicate Gathered(ips0: seq<ClaimedIP>, ips: seq<ClaimedIP>, nodeIDs: set<NodeID>, list: seq<ClaimedIP>,
                           remaining: set<nat>, except: NodeID, known: GossipID -> bool) {
    && nodeIDs == Nodes(ips) && DistinctNodes(ips) && Extends(ips0, ips, list, except, known)
    && remaining <= Below(|list|) && Covers(nodeIDs, list, remaining, except, known)
  }

  lemma GatherStep(ips0: seq<ClaimedIP>, ips: seq<ClaimedIP>, nodeIDs: set<NodeID>, list: seq<ClaimedIP>,
                   remaining: set<nat>, except: NodeID, known: GossipID -> bool, k: nat)
    requires Gathered(ips0, ips, nodeIDs, list, remaining, except, known) && k in remaining
    ensures k < |list|
    ensures if Eligible(list[k], except, known) && list[k].node !in nodeIDs
            then Gathered(ips0, ips + [list[k]], nodeIDs + {list[k].node}, list, remaining - {k}, except, known)
            else Gathered(ips0, ips, nodeIDs, list, remaining - {k}, except, known)
  {
    if Eligible(list[k], except, known) && list[k].node !in nodeIDs {
      AppendNode(ips, list[k]);
      ExtendsAppend(ips0, ips, list, except, known, k);
    }
  }

  lemma GatherStart(ips0: seq<ClaimedIP>, nodeIDs: set<NodeID>, list: seq<ClaimedIP>, except: NodeID,
                    known: GossipID -> bool)
    requires nodeIDs == Nodes(ips0) && DistinctNodes(ips0)
    ensures Gathered(ips0, ips0, nodeIDs, list, Below(|list|), except, known)
  {
  }

  /** Then no eligible node of the list is missing. */
  lemma GatherDone(ips0: seq<ClaimedIP>, ips: seq<ClaimedIP>, nodeIDs: set<NodeID>, list: seq<ClaimedIP>,
                   except: NodeID, known: GossipID -> bool)
    requires Gathered(ips0, ips, nodeIDs, list, {}, except, known)
    ensures forall ip :: ip in list && Eligible(ip, except, known) ==> ip.node in nodeIDs
  {
  }

  class GossipableSubnet {
    const numGossipableIPs: Gauge
    var manuallyGossipable: set<NodeID>
    var gossipableIDs: set<NodeID>
    var gossipableIndices: map<NodeID, nat>
    var gossipableIPs: seq<ClaimedIP>

    ghost var view: SubnetView
    ghost const subnetID: SubnetID  // tells the objects of different subnets apart

    ghost predicate Valid()
      reads this
    {
      && view.manual == manuallyGossipable
      && view.ids == gossipableIDs
      && IndexOk(gossipableIndices, gossipableIPs, view.entries)
    }

    constructor (gauge: Gauge, ghost subnetID: SubnetID)
      ensures Valid() && view == SubnetView({}, {}, map[])
      ensures numGossipableIPs == gauge && this.subnetID == subnetID
    {
      this.subnetID := subnetID;
      numGossipableIPs := gauge;
      manuallyGossipable, gossipableIDs := {}, {};
      gossipableIndices, gossipableIPs := map[], [];
      view := SubnetView({}, {}, map[]);
    }

    method SetGossipableIP(ip: ClaimedIP)
      requires Valid()
      modifies this, numGossipableIPs
      ensures Valid()
      ensures view == old(view).(entries := old(view).entries[ip.node := ip])
      ensures numGossipableIPs.value == old(numGossipableIPs.value) + |view.entries| - old(|view.entries|)
    {
      UpdateCount(view.entries, ip.node, ip);
      view := view.(entries := view.entries[ip.node := ip]);
      if ip.node in gossipableIndices {
        ReplaceOk(gossipableIndices, gossipableIPs, old(view).entries, ip);
        gossipableIPs := gossipableIPs[gossipableIndices[ip.node] := ip];
        return;
      }
      AppendOk(gossipableIndices, gossipableIPs, old(view).entries, ip);
      numGossipableIPs.Inc();
      gossipableIndices := gossipableIndices[ip.node := |gossipableIPs|];
      gossipableIPs := gossipableIPs + [ip];
    }

    method RemoveGossipableIP(nodeID: NodeID)
      requires Valid()
      modifies this, numGossipableIPs
      ensures Valid()
      ensures view == old(view).(entries := old(view).entries - {nodeID})
      ensures numGossipableIPs.value == old(numGossipableIPs.value) + |view.entries| - old(|view.entries|)
    {
      view := view.(entries := view.entries - {nodeID});
      if nodeID !in gossipableIndices {
        assert old(view).entries - {nodeID} == old(view).entries;
        return;
      }
      RemoveCount(old(view).entries, nodeID);
      numGossipableIPs.Dec();
      gossipableIndices, gossipableIPs := SwapRemove(gossipableIndices, gossipableIPs, nodeID, old(view).entries);
    }

    /** Makes `n` gossipable and, if it was not before, lists it under `entry`. */
    method AddID(n: NodeID, manuallyGossiped: bool, entry: Option<ClaimedIP>)
      requires Valid() && (entry.Some? ==> entry.value.node == n)
      modifies this, numGossipableIPs
      ensures Valid() && view == AddToView(old(view), n, manuallyGossiped, entry)
      ensures numGossipableIPs.value == old(numGossipableIPs.value) + |view.entries| - old(|view.entries|)
    {
      var known := n in gossipableIDs;
      Mark(n, manuallyGossiped);
      if !known && entry.Some? {
        SetGossipableIP(entry.value);
      }
    }

    method Mark(n: NodeID, manuallyGossiped: bool)
      requires Valid()
      modifies this`manuallyGossipable, this`gossipableIDs, this`view
      ensures Valid() && view == AddToView(old(view), n, manuallyGossiped, None)
    {
      if manuallyGossiped {
        manuallyGossipable := manuallyGossipable + {n};
      }
      gossipableIDs := gossipableIDs + {n};
      view := view.(manual := manuallyGossipable, ids := gossipableIDs);
    }

    method RemoveID(n: NodeID)
      requires Valid()
      modifies this, numGossipableIPs
      ensures Valid() && view == RemoveFromView(old(view), n)
      ensures numGossipableIPs.value == old(numGossipableIPs.value) + |view.entries| - old(|view.entries|)
    {
      gossipableIDs := gossipableIDs - {n};
      view := view.(ids := gossipableIDs);
      RemoveGossipableIP(n);
    }

    predicate CanDelete()
      reads this
    {
      |gossipableIDs| == 0
    }

    /** Extends `ips0`, whose node IDs are `nodeIDs0`, in a random order. */
    method GetGossipableIPs(except: NodeID, known: GossipID -> bool, maxNumIPs: int,
                            ips0: seq<ClaimedIP>, nodeIDs0: set<NodeID>)
      returns (ips: seq<ClaimedIP>, nodeIDs: set<NodeID>)
      requires Valid()
      requires nodeIDs0 == Nodes(ips0) && DistinctNodes(ips0)
      ensures |ips| <= maxNumIPs || ips == ips0
      ensures nodeIDs == Nodes(ips) && DistinctNodes(ips)
      ensures Extends(ips0, ips, gossipableIPs, except, known)
      ensures |ips| < maxNumIPs ==>
                forall ip :: ip in gossipableIPs && Eligible(ip, except, known) ==> ip.node in nodeIDs
    {
      ips, nodeIDs := ips0, nodeIDs0;
      var list := gossipableIPs;
      var uniform := new UniformReplacer(|list|);
      GatherStart(ips0, nodeIDs, list, except, known);
      while |ips| < maxNumIPs
        invariant uniform.Valid() && fresh(uniform)
        invariant |ips| <= maxNumIPs || ips == ips0
        invariant Gathered(ips0, ips, nodeIDs, list, uniform.remaining, except, known)
        decreases |uniform.remaining|
      {
        ghost var remaining := uniform.remaining;
        var next := uniform.Next();
        if next.None? {
          GatherDone(ips0, ips, nodeIDs, list, except, known);
          return;
        }
        GatherStep(ips0, ips, nodeIDs, list, remaining, except, known, next.value);
        var ip := list[next.value];
        if ip.node == except || ip.node in nodeIDs || known(GossipIDOf(ip)) {
          continue;
        }
        ips := ips + [ip];
        nodeIDs := nodeIDs + {ip.node};
      }
    }
  }
}
