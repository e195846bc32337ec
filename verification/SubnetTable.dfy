/** All subnets with at least one gossipable node, and the gauges that count them. */
module SubnetTables {
  import opened Ids
  import opened GossipableSubnets
  import opened TrackerState

  lemma AddInTwoSteps(views: Views, n: NodeID, s: SubnetID, manuallyGossiped: bool, entry: Option<ClaimedIP>)
    ensures AddGossipable(views, n, s, manuallyGossiped, entry) ==
            views[s := ViewOf(views, s)][s := AddToView(ViewOf(views, s), n, manuallyGossiped, entry)]
  {
  }

  lemma RemoveInTwoSteps(views: Views, n: NodeID, s: SubnetID)
    requires s in views
    ensures var removed := views[s := RemoveFromView(views[s], n)];
            RemoveGossipable(views, n, s) == if removed[s].ids == {} then removed - {s} else removed
  {
  }

  class SubnetTable {
    const numGossipableIPs: Gauge
    const numTrackedSubnets: Gauge
    var subnet: map<SubnetID, GossipableSubnet>
    ghost var views: Views  // the contents of `subnet`

    ghost var Repr: set<object>

    ghost predicate Linked()
      reads this, Repr
      ensures Linked() ==> this in Repr
    {
      && this in Repr && numGossipableIPs in Repr && numTrackedSubnets in Repr
      && numGossipableIPs != numTrackedSubnets
      && (forall s {:trigger s in subnet} :: s in subnet <==> s in views)
      && (forall s {:trigger s in subnet} {:trigger subnet[s]} :: s in subnet ==>
            subnet[s] in Repr && subnet[s].subnetID == s && subnet[s].numGossipableIPs == numGossipableIPs)
    }

    ghost predicate Shape()
      reads this, Repr
      ensures Shape() ==> this in Repr
    {
      && Linked()
      && (forall s {:trigger s in subnet} {:trigger subnet[s]} :: s in subnet ==>
            subnet[s].Valid() && subnet[s].view == views[s])
    }

    /** Both gauges are exact. */
    ghost predicate Valid()
      reads this, Repr
      ensures Valid() ==> this in Repr
    {
      Shape() && numGossipableIPs.value == NumListed(views) && numTrackedSubnets.value == |views|
    }

    constructor ()
      ensures Valid() && fresh(Repr) && views == map[]
    {
      numGossipableIPs := new Gauge();
      numTrackedSubnets := new Gauge();
      subnet, views := map[], map[];
      Repr := {this, numGossipableIPs, numTrackedSubnets};
    }

    /** Right but for `views[s]`, which is behind the subnet, as the gauge tells. */
    ghost predicate Behind(s: SubnetID)
      reads this, Repr
    {
      && s in subnet && s in views && Linked() && subnet[s].Valid()
      && (forall t {:trigger t in subnet} {:trigger subnet[t]} :: t in subnet && t != s ==>
            subnet[t].Valid() && subnet[t].view == views[t])
      && numGossipableIPs.value == NumListed(views) - |views[s].entries| + |subnet[s].view.entries|
      && numTrackedSubnets.value == |views|
    }

    /** Brings `views` up to date after a call to one subnet. */
    ghost method Refresh(s: SubnetID)
      requires Behind(s)
      modifies this`views
      ensures Valid() && views == old(views)[s := subnet[s].view]
    {
      NumListedUpdate(views, s, subnet[s].view);
      views := views[s := subnet[s].view];
    }

    method SetIn(s: SubnetID, ip: ClaimedIP)
      requires Valid()
      modifies Repr
      ensures Valid() && Repr == old(Repr) && subnet == old(subnet)
      ensures views == SetEntry(old(views), ip, s)
    {
      if s in subnet && ip.node in subnet[s].gossipableIDs {
        subnet[s].SetGossipableIP(ip);
        Refresh(s);
      }
    }

    method RemoveFrom(s: SubnetID, n: NodeID)
      requires Valid()
      modifies Repr
      ensures Valid() && Repr == old(Repr) && subnet == old(subnet)
      ensures views == RemoveEntry(old(views), n, s)
    {
      if s in subnet {
        subnet[s].RemoveGossipableIP(n);
        Refresh(s);
      }
    }

    method SetGossipableIP(ip: ClaimedIP, trackedSubnets: set<SubnetID>)
      requires Valid()
      modifies Repr
      ensures Valid() && Repr == old(Repr)
      ensures EntriesSet(old(views), views, ip, trackedSubnets)
    {
      var rest := trackedSubnets;
      ghost var done := {};
      while rest != {}
        invariant done + rest == trackedSubnets && done !! rest
        invariant Valid() && Repr == old(Repr)
        invariant EntriesSet(old(views), views, ip, done)
        decreases rest
      {
        var subnetID :| subnetID in rest;
        EntriesSetStep(old(views), views, ip, done, subnetID);
        SetIn(subnetID, ip);
        rest, done := rest - {subnetID}, done + {subnetID};
      }
      assert done == trackedSubnets;
    }

    method RemoveGossipableIP(n: NodeID, trackedSubnets: set<SubnetID>)
      requires Valid()
      modifies Repr
      ensures Valid() && Repr == old(Repr)
      ensures EntriesRemoved(old(views), views, n, trackedSubnets)
    {
      var rest := trackedSubnets;
      ghost var done := {};
      while rest != {}
        invariant done + rest == trackedSubnets && done !! rest
        invariant Valid() && Repr == old(Repr)
        invariant EntriesRemoved(old(views), views, n, done)
        decreases rest
      {
        var subnetID :| subnetID in rest;
        EntriesRemovedStep(old(views), views, n, done, subnetID);
        RemoveFrom(subnetID, n);
        rest, done := rest - {subnetID}, done + {subnetID};
      }
      assert done == trackedSubnets;
    }

    /** Adds the subnet if it is missing. */
    method Ensure(s: SubnetID)
      requires Valid()
      modifies Repr
      ensures Valid() && fresh(Repr - old(Repr))
      ensures s in subnet && views == old(views)[s := ViewOf(old(views), s)]
    {
      if s !in subnet {
        NumListedUpdate(views, s, SubnetView({}, {}, map[]));
        numTrackedSubnets.Inc();
        Insert(s);
      }
    }

    method Insert(s: SubnetID)
      requires Shape() && s !in subnet
      modifies this`subnet, this`views, this`Repr
      ensures Shape() && fresh(Repr - old(Repr))
      ensures s in subnet && views == old(views)[s := SubnetView({}, {}, map[])]
    {
      var created := new GossipableSubnet(numGossipableIPs, s);
      subnet, views := subnet[s := created], views[s := created.view];
      Repr := Repr + {created};
    }

    method AddID(n: NodeID, s: SubnetID, manuallyGossiped: bool, entry: Option<ClaimedIP>)
      requires Valid() && s in subnet && (entry.Some? ==> entry.value.node == n)
      modifies Repr
      ensures Valid() && Repr == old(Repr)
      ensures views == old(views)[s := AddToView(old(views)[s], n, manuallyGossiped, entry)]
    {
      subnet[s].AddID(n, manuallyGossiped, entry);
      Refresh(s);
    }

    method AddGossipableID(n: NodeID, s: SubnetID, manuallyGossiped: bool, entry: Option<ClaimedIP>)
      requires Valid() && (entry.Some? ==> entry.value.node == n)
      modifies Repr
      ensures Valid() && fresh(Repr - old(Repr))
      ensures views == AddGossipable(old(views), n, s, manuallyGossiped, entry)
    {
      AddInTwoSteps(views, n, s, manuallyGossiped, entry);
      Ensure(s);
      AddID(n, s, manuallyGossiped, entry);
    }

    method RemoveID(n: NodeID, s: SubnetID)
      requires Valid() && s in subnet
      modifies Repr
      ensures Valid() && Repr == old(Repr) && subnet == old(subnet)
      ensures views == old(views)[s := RemoveFromView(old(views)[s], n)]
    {
      subnet[s].RemoveID(n);
      Refresh(s);
    }

    /** Drops the subnet when its last gossipable node leaves. */
    method RemoveGossipableID(n: NodeID, s: SubnetID)
      requires Valid() && s in subnet
      requires forall m :: m in views[s].entries ==> m in views[s].ids
      modifies Repr
      ensures Valid() && Repr == old(Repr)
      ensures views == RemoveGossipable(old(views), n, s)
    {
      RemoveInTwoSteps(views, n, s);
      RemoveID(n, s);
      DeleteIfUnused(s);
    }

    method DeleteIfUnused(s: SubnetID)
      requires Valid() && s in subnet
      requires forall m :: m in views[s].entries ==> m in views[s].ids
      modifies Repr
      ensures Valid() && Repr == old(Repr)
      ensures views == if old(views)[s].ids == {} then old(views) - {s} else old(views)
    {
      if subnet[s].CanDelete() {
        assert views[s].entries.Keys == {};
        Delete(s);
      }
    }

    method Delete(s: SubnetID)
      requires Valid() && s in subnet && views[s].entries == map[]
      modifies this`subnet, this`views, numTrackedSubnets
      ensures Valid() && views == old(views) - {s}
    {
      NumListedRemove(views, s);
      numTrackedSubnets.Dec();
      Drop(s);
    }

    method Drop(s: SubnetID)
      requires Shape() && s in subnet
      modifies this`subnet, this`views
      ensures Shape() && views == old(views) - {s}
    {
      subnet, views := subnet - {s}, views - {s};
    }
  }
}
