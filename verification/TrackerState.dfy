/** The tracker's state as plain values, and what it must be after a given history. */
module TrackerState {
  import opened Collections
  import opened Ids
  import opened TrackerHistory
  import opened GossipableSubnets

  datatype TrackedNode = TrackedNode(
    manuallyTracked: bool,
    validatedSubnets: set<SubnetID>,
    trackedSubnets: set<SubnetID>,
    ip: Option<ClaimedIP>)
  {
    predicate WantsConnection() {
      manuallyTracked || |trackedSubnets| > 0
    }

    predicate CanDelete() {
      !manuallyTracked && |validatedSubnets| == 0
    }

    /** With no subnet, the node is being tracked manually. */
    function With(c: Config, s: Option<SubnetID>): TrackedNode {
      if s.None? then this.(manuallyTracked := true)
      else if Follows(c, s.value) then
        this.(validatedSubnets := validatedSubnets + {s.value}, trackedSubnets := trackedSubnets + {s.value})
      else this.(validatedSubnets := validatedSubnets + {s.value})
    }

    function Without(s: SubnetID): TrackedNode {
      this.(validatedSubnets := validatedSubnets - {s}, trackedSubnets := trackedSubnets - {s})
    }
  }

  type TrackedMap = map<NodeID, TrackedNode>
  type ConnectedMap = map<NodeID, Connection>
  type Views = map<SubnetID, SubnetView>

  // ---------------------------------------------------------------- what the maps must hold

  ghost function Followed(c: Config, subnets: set<SubnetID>): set<SubnetID> {
    set s | s in subnets && Follows(c, s)
  }

  ghost function NodeRecord(c: Config, h: History, n: NodeID): TrackedNode {
    var validated := Validated(h, n);
    TrackedNode(ManuallyTracked(c, h, n), validated, Followed(c, validated), LatestIP(c, h, n))
  }

  /** Exactly the tracked nodes have a record, and it is the right one. */
  ghost predicate TrackedOk(c: Config, h: History, tracked: TrackedMap) {
    forall n :: (n in tracked <==> Tracked(c, h, n)) && (n in tracked ==> tracked[n] == NodeRecord(c, h, n))
  }

  ghost predicate ConnectedOk(h: History, connected: ConnectedMap) {
    forall n ::
      && (n in connected <==> ConnectionOf(h, n).Some?)
      && (n in connected ==> connected[n] == ConnectionOf(h, n).value && connected[n].ip.node == n)
  }

  ghost function IDsOf(views: Views, s: SubnetID): set<NodeID> {
    if s in views then views[s].ids else {}
  }

  ghost function ManualOf(views: Views, s: SubnetID): set<NodeID> {
    if s in views then views[s].manual else {}
  }

  /** A subnet has an entry exactly when some node validates it or is manually gossiped on it. */
  ghost predicate SubnetsOk(h: History, views: Views) {
    && (forall s :: s in views ==> views[s].ids != {})
    && (forall s, n :: n in IDsOf(views, s) <==> s in Validated(h, n))
    && (forall s, n :: n in ManualOf(views, s) <==> ManuallyGossiped(h, s, n))
  }

  /** A node is on a gossip list exactly when it is gossipable there, connected, and reported tracking the subnet;
      the listed IP is then its latest one. */
  ghost predicate ListsOk(tracked: TrackedMap, connected: ConnectedMap, views: Views) {
    forall s, n {:trigger n in views[s].entries} {:trigger n in views[s].ids} :: s in views ==>
      && (n in views[s].entries <==> n in views[s].ids && n in connected && s in connected[n].subnets)
      && (n in views[s].entries ==> n in tracked && tracked[n].ip == Some(views[s].entries[n]))
  }

  /** The summed lengths of all gossip lists. */
  ghost function NumListed(views: Views): nat {
    if views == map[] then 0
    else
      var s :| s in views;
      |views[s].entries| + NumListed(views - {s})
  }

  ghost predicate StateOk(c: Config, h: History, tracked: TrackedMap, connected: ConnectedMap, views: Views) {
    TrackedOk(c, h, tracked) && ConnectedOk(h, connected) && SubnetsOk(h, views) && ListsOk(tracked, connected, views)
  }

  // ---------------------------------------------------------------- effects on the maps

  ghost function WithIP(tracked: TrackedMap, n: NodeID, ip: ClaimedIP): TrackedMap
    requires n in tracked
  {
    tracked[n := tracked[n].(ip := Some(ip))]
  }

  ghost function Offered(tracked: TrackedMap, ip: ClaimedIP): TrackedMap {
    if ip.node in tracked then tracked[ip.node := tracked[ip.node].(ip := Newest(tracked[ip.node].ip, ip))] else tracked
  }

  ghost function AddTrackable(c: Config, tracked: TrackedMap, connected: ConnectedMap,
                              n: NodeID, s: Option<SubnetID>): TrackedMap {
    var known := if n in connected then Some(connected[n].ip) else None;
    var node := if n in tracked then tracked[n] else TrackedNode(false, {}, {}, known);
    tracked[n := node.With(c, s)]
  }

  ghost function SetEntry(views: Views, ip: ClaimedIP, s: SubnetID): Views {
    if s in views && ip.node in views[s].ids
    then views[s := views[s].(entries := views[s].entries[ip.node := ip])] else views
  }

  ghost function RemoveEntry(views: Views, n: NodeID, s: SubnetID): Views {
    if s in views then views[s := views[s].(entries := views[s].entries - {n})] else views
  }

  /** `after` is `before` with `ip` listed in each of `subnets` where its node is gossipable. */
  ghost predicate EntriesSet(before: Views, after: Views, ip: ClaimedIP, subnets: set<SubnetID>) {
    && after.Keys == before.Keys
    && forall s :: s in before ==>
         after[s] == if s in subnets && ip.node in before[s].ids
                     then before[s].(entries := before[s].entries[ip.node := ip]) else before[s]
  }

  lemma EntriesSetStep(before: Views, mid: Views, ip: ClaimedIP, done: set<SubnetID>, s: SubnetID)
    requires EntriesSet(before, mid, ip, done) && s !in done
    ensures EntriesSet(before, SetEntry(mid, ip, s), ip, done + {s})
  {
  }

  ghost predicate EntriesRemoved(before: Views, after: Views, n: NodeID, subnets: set<SubnetID>) {
    && after.Keys == before.Keys
    && forall s :: s in before ==>
         after[s] == if s in subnets then before[s].(entries := before[s].entries - {n}) else before[s]
  }

  lemma EntriesRemovedStep(before: Views, mid: Views, n: NodeID, done: set<SubnetID>, s: SubnetID)
    requires EntriesRemoved(before, mid, n, done) && s !in done
    ensures EntriesRemoved(before, RemoveEntry(mid, n, s), n, done + {s})
  {
  }

  ghost function ViewOf(views: Views, s: SubnetID): SubnetView {
    if s in views then views[s] else SubnetView({}, {}, map[])
  }

  /** The IP under which `n` should be listed on `s`, if it should be. */
  ghost function EntryFor(tracked: TrackedMap, connected: ConnectedMap, n: NodeID, s: SubnetID): Option<ClaimedIP> {
    if n in connected && s in connected[n].subnets && n in tracked then tracked[n].ip else None
  }

  ghost function AddGossipable(views: Views, n: NodeID, s: SubnetID, manual: bool, entry: Option<ClaimedIP>): Views {
    views[s := AddToView(ViewOf(views, s), n, manual, entry)]
  }

  ghost function RemoveGossipable(views: Views, n: NodeID, s: SubnetID): Views
    requires s in views
  {
    var v := RemoveFromView(views[s], n);
    if v.ids == {} then views - {s} else views[s := v]
  }

  ghost function RemoveTrackable(tracked: TrackedMap, n: NodeID, s: SubnetID): TrackedMap {
    if n !in tracked then tracked
    else if tracked[n].Without(s).CanDelete() then tracked - {n}
    else tracked[n := tracked[n].Without(s)]
  }

  /** At most one record goes, and no IP changes. */
  lemma RemoveTrackableKeeps(tracked: TrackedMap, n: NodeID, s: SubnetID)
    requires n in tracked
    ensures var record := tracked[n].Without(s);
            && tracked[n := record] - {n} == tracked - {n} && |tracked[n := record]| == |tracked|
            && |RemoveTrackable(tracked, n, s)| == |tracked| - (if record.CanDelete() then 1 else 0)
    ensures forall m :: m in RemoveTrackable(tracked, n, s) ==>
              m in tracked && RemoveTrackable(tracked, n, s)[m].ip == tracked[m].ip
  {
    UpdateCount(tracked, n, tracked[n].Without(s));
    RemoveCount(tracked, n);
  }

  // ---------------------------------------------------------------- each effect keeps the state right

  lemma InitiallyOk(c: Config)
    ensures StateOk(c, Start, map[], map[], map[]) && NumListed(map[]) == 0
  {
  }

  /** Events that are not about gossip or validation leave the subnets alone. */
  lemma SubnetsUnaffected(h: History, e: Event, views: Views)
    requires SubnetsOk(h, views)
    requires !e.ManuallyGossip? && !e.ValidatorAdded? && !e.ValidatorRemoved?
    ensures SubnetsOk(Then(h, e), views)
  {
    forall s, n
      ensures Validated(Then(h, e), n) == Validated(h, n)
      ensures ManuallyGossiped(Then(h, e), s, n) <==> ManuallyGossiped(h, s, n)
    {
    }
  }

  lemma ConnectedUnaffected(h: History, e: Event, connected: ConnectedMap)
    requires ConnectedOk(h, connected)
    requires !e.PeerConnected? && !e.PeerDisconnected?
    ensures ConnectedOk(Then(h, e), connected)
  {
    forall n ensures ConnectionOf(Then(h, e), n) == ConnectionOf(h, n) {
    }
  }

  lemma ManuallyTrackOk(c: Config, h: History, tracked: TrackedMap, connected: ConnectedMap, views: Views, n: NodeID)
    requires StateOk(c, h, tracked, connected, views)
    ensures StateOk(c, Then(h, ManuallyTrack(n)), AddTrackable(c, tracked, connected, n, None), connected, views)
  {
    SubnetsUnaffected(h, ManuallyTrack(n), views);
    ConnectedUnaffected(h, ManuallyTrack(n), connected);
    assert TrackedOk(c, Then(h, ManuallyTrack(n)), AddTrackable(c, tracked, connected, n, None));
  }

  lemma AddGossipableSubnetsOk(h: History, views: Views,
                               n: NodeID, s: SubnetID, manual: bool, entry: Option<ClaimedIP>)
    requires SubnetsOk(h, views)
    ensures SubnetsOk(Then(h, if manual then ManuallyGossip(s, n) else ValidatorAdded(s, n)),
                      AddGossipable(views, n, s, manual, entry))
  {
    var h' := Then(h, if manual then ManuallyGossip(s, n) else ValidatorAdded(s, n));
    var views' := AddGossipable(views, n, s, manual, entry);
    forall t, m
      ensures m in IDsOf(views', t) <==> t in Validated(h', m)
      ensures m in ManualOf(views', t) <==> ManuallyGossiped(h', t, m)
    {
      assert m in IDsOf(views, t) <==> t in Validated(h, m);
      assert m in ManualOf(views, t) <==> ManuallyGossiped(h, t, m);
    }
  }

  lemma AddGossipableListsOk(tracked: TrackedMap, connected: ConnectedMap, views: Views,
                             n: NodeID, s: SubnetID, manual: bool)
    requires ListsOk(tracked, connected, views)
    requires n in tracked && (n in connected ==> tracked[n].ip.Some?)
    ensures ListsOk(tracked, connected, AddGossipable(views, n, s, manual, EntryFor(tracked, connected, n, s)))
  {
  }

  lemma AddTrackableListsOk(c: Config, tracked: TrackedMap, connected: ConnectedMap, views: Views,
                            n: NodeID, s: Option<SubnetID>)
    requires ListsOk(tracked, connected, views)
    requires n in tracked || forall t :: t in views ==> n !in views[t].ids
    ensures ListsOk(AddTrackable(c, tracked, connected, n, s), connected, views)
  {
  }

  lemma AddValidatorTrackedOk(c: Config, h: History, tracked: TrackedMap, connected: ConnectedMap,
                              n: NodeID, s: SubnetID)
    requires TrackedOk(c, h, tracked) && ConnectedOk(h, connected)
    ensures TrackedOk(c, Then(h, ValidatorAdded(s, n)), AddTrackable(c, tracked, connected, n, Some(s)))
  {
    var h' := Then(h, ValidatorAdded(s, n));
    assert Followed(c, Validated(h, n) + {s}) == Followed(c, Validated(h, n)) + (if Follows(c, s) then {s} else {});
    assert Followed(c, {}) == {};
    forall m | m != n ensures NodeRecord(c, h', m) == NodeRecord(c, h, m) {
    }
  }

  lemma {:induction false} KnownIfConnected(c: Config, h: History, tracked: TrackedMap, connected: ConnectedMap)
    requires TrackedOk(c, h, tracked) && ConnectedOk(h, connected)
    ensures forall n :: n in tracked && n in connected ==> tracked[n].ip.Some?
  {
    forall n | n in tracked && n in connected ensures tracked[n].ip.Some? {
      LatestCoversConnection(c, h, n);
    }
  }

  /** Whatever is known about a connected node belongs to that node, and a tracked one has a known IP. */
  lemma ConnectedNodeKnown(c: Config, h: History, tracked: TrackedMap, connected: ConnectedMap, n: NodeID)
    requires TrackedOk(c, h, tracked) && ConnectedOk(h, connected) && n in connected
    ensures connected[n].ip.node == n
    ensures n in tracked ==> tracked[n].ip.Some? && tracked[n].ip.value.node == n
  {
    if n in tracked { LatestCoversConnection(c, h, n); }
  }

  lemma UntrackedNotGossipable(c: Config, h: History, tracked: TrackedMap, views: Views, n: NodeID)
    requires TrackedOk(c, h, tracked) && SubnetsOk(h, views) && n !in tracked
    ensures forall t :: t in views ==> n !in views[t].ids
  {
    forall t | t in views ensures n !in views[t].ids {
      assert n in IDsOf(views, t) <==> t in Validated(h, n);
    }
  }

  lemma ValidatorAddedOk(c: Config, h: History, tracked: TrackedMap, connected: ConnectedMap, views: Views,
                         s: SubnetID, n: NodeID)
    requires StateOk(c, h, tracked, connected, views)
    ensures var tracked' := AddTrackable(c, tracked, connected, n, Some(s));
            StateOk(c, Then(h, ValidatorAdded(s, n)), tracked', connected,
                    AddGossipable(views, n, s, false, EntryFor(tracked', connected, n, s)))
  {
    var h' := Then(h, ValidatorAdded(s, n));
    var tracked' := AddTrackable(c, tracked, connected, n, Some(s));
    AddValidatorTrackedOk(c, h, tracked, connected, n, s);
    ConnectedUnaffected(h, ValidatorAdded(s, n), connected);
    AddGossipableSubnetsOk(h, views, n, s, false, EntryFor(tracked', connected, n, s));
    if n !in tracked { UntrackedNotGossipable(c, h, tracked, views, n); }
    AddTrackableListsOk(c, tracked, connected, views, n, Some(s));
    KnownIfConnected(c, h', tracked', connected);
    AddGossipableListsOk(tracked', connected, views, n, s, false);
  }

  lemma ManuallyGossipTrackedOk(c: Config, h: History, tracked: TrackedMap, connected: ConnectedMap,
                                s: SubnetID, n: NodeID)
    requires TrackedOk(c, h, tracked) && ConnectedOk(h, connected)
    ensures var tracked1 := if IsLocal(c, s) then AddTrackable(c, tracked, connected, n, None) else tracked;
            TrackedOk(c, Then(h, ManuallyGossip(s, n)), AddTrackable(c, tracked1, connected, n, Some(s)))
  {
    var h' := Then(h, ManuallyGossip(s, n));
    assert Followed(c, Validated(h, n) + {s}) == Followed(c, Validated(h, n)) + (if Follows(c, s) then {s} else {});
    assert Followed(c, {}) == {};
    forall m | m != n ensures NodeRecord(c, h', m) == NodeRecord(c, h, m) {
    }
  }

  lemma ManuallyGossipOk(c: Config, h: History, tracked: TrackedMap, connected: ConnectedMap, views: Views,
                         s: SubnetID, n: NodeID)
    requires StateOk(c, h, tracked, connected, views)
    ensures var tracked1 := if IsLocal(c, s) then AddTrackable(c, tracked, connected, n, None) else tracked;
            var tracked2 := AddTrackable(c, tracked1, connected, n, Some(s));
            StateOk(c, Then(h, ManuallyGossip(s, n)), tracked2, connected,
                    AddGossipable(views, n, s, true, EntryFor(tracked2, connected, n, s)))
  {
    var h' := Then(h, ManuallyGossip(s, n));
    var tracked1 := if IsLocal(c, s) then AddTrackable(c, tracked, connected, n, None) else tracked;
    var tracked2 := AddTrackable(c, tracked1, connected, n, Some(s));
    ManuallyGossipTrackedOk(c, h, tracked, connected, s, n);
    ConnectedUnaffected(h, ManuallyGossip(s, n), connected);
    AddGossipableSubnetsOk(h, views, n, s, true, EntryFor(tracked2, connected, n, s));
    if n !in tracked { UntrackedNotGossipable(c, h, tracked, views, n); }
    AddTrackableListsOk(c, tracked, connected, views, n, None);
    AddTrackableListsOk(c, tracked1, connected, views, n, Some(s));
    KnownIfConnected(c, h', tracked2, connected);
    AddGossipableListsOk(tracked2, connected, views, n, s, true);
  }

  /** A removal that the tracker ignores: the node is manually gossiped on `s`, or `s` is unknown. */
  lemma IgnoredRemovalOk(c: Config, h: History, tracked: TrackedMap, connected: ConnectedMap, views: Views,
                         s: SubnetID, n: NodeID)
    requires StateOk(c, h, tracked, connected, views)
    requires s in views ==> n in views[s].manual
    ensures StateOk(c, Then(h, ValidatorRemoved(s, n)), tracked, connected, views)
  {
    var h' := Then(h, ValidatorRemoved(s, n));
    ConnectedUnaffected(h, ValidatorRemoved(s, n), connected);
    assert n in IDsOf(views, s) <==> s in Validated(h, n);
    assert n in ManualOf(views, s) <==> ManuallyGossiped(h, s, n);
    forall m
      ensures Validated(h', m) == Validated(h, m)
      ensures NodeRecord(c, h', m) == NodeRecord(c, h, m)
    {
    }
    forall t, m ensures ManuallyGossiped(h', t, m) <==> ManuallyGossiped(h, t, m) {
    }
  }

  lemma RemoveGossipableSubnetsOk(h: History, views: Views, s: SubnetID, n: NodeID)
    requires SubnetsOk(h, views) && s in views && n !in views[s].manual
    ensures SubnetsOk(Then(h, ValidatorRemoved(s, n)), RemoveGossipable(views, n, s))
  {
    var h' := Then(h, ValidatorRemoved(s, n));
    var views' := RemoveGossipable(views, n, s);
    assert n in ManualOf(views, s) <==> ManuallyGossiped(h, s, n);
    forall t, m
      ensures m in IDsOf(views', t) <==> t in Validated(h', m)
      ensures m in ManualOf(views', t) <==> ManuallyGossiped(h', t, m)
    {
      assert m in IDsOf(views, t) <==> t in Validated(h, m);
      assert m in ManualOf(views, t) <==> ManuallyGossiped(h, t, m);
      if ManuallyGossiped(h, t, m) { GossipedStaysValidated(h, t, m); }
    }
  }

  /** What a removal does to the record of the node itself. */
  lemma RemovedRecord(c: Config, h: History, s: SubnetID, n: NodeID)
    requires !ManuallyGossiped(h, s, n) && Tracked(c, h, n)
    ensures var h', record := Then(h, ValidatorRemoved(s, n)), NodeRecord(c, h, n).Without(s);
            && (Tracked(c, h', n) <==> !record.CanDelete())
            && (Tracked(c, h', n) ==> NodeRecord(c, h', n) == record)
  {
    var h' := Then(h, ValidatorRemoved(s, n));
    assert Validated(h', n) == Validated(h, n) - {s};
    assert Followed(c, Validated(h', n)) == Followed(c, Validated(h, n)) - {s};
    assert ManuallyTracked(c, h', n) == ManuallyTracked(c, h, n);
  }

  /** A removal is nothing to other nodes, nor to a node that is not tracked. */
  lemma RemovalUnaffected(c: Config, h: History, s: SubnetID, n: NodeID, m: NodeID)
    requires m != n || !Tracked(c, h, m)
    ensures var h' := Then(h, ValidatorRemoved(s, n));
            && (Tracked(c, h', m) <==> Tracked(c, h, m))
            && (Tracked(c, h, m) ==> NodeRecord(c, h', m) == NodeRecord(c, h, m))
  {
    var h' := Then(h, ValidatorRemoved(s, n));
    assert ManuallyTracked(c, h', m) == ManuallyTracked(c, h, m);
    assert Validated(h', m) == Validated(h, m);
  }

  lemma RemoveTrackableTrackedOk(c: Config, h: History, tracked: TrackedMap, s: SubnetID, n: NodeID)
    requires TrackedOk(c, h, tracked) && !ManuallyGossiped(h, s, n)
    ensures TrackedOk(c, Then(h, ValidatorRemoved(s, n)), RemoveTrackable(tracked, n, s))
  {
    var h' := Then(h, ValidatorRemoved(s, n));
    var tracked' := RemoveTrackable(tracked, n, s);
    forall m
      ensures m in tracked' <==> Tracked(c, h', m)
      ensures m in tracked' ==> tracked'[m] == NodeRecord(c, h', m)
    {
      assert m in tracked <==> Tracked(c, h, m);
      if m == n && m in tracked {
        RemovedRecord(c, h, s, n);
      } else {
        RemovalUnaffected(c, h, s, n, m);
      }
    }
  }

  lemma RemovedListsOk(tracked: TrackedMap, connected: ConnectedMap, views: Views, s: SubnetID, n: NodeID)
    requires ListsOk(tracked, connected, views) && s in views
    requires n !in RemoveTrackable(tracked, n, s) ==> forall t :: t in RemoveGossipable(views, n, s) ==>
               n !in RemoveGossipable(views, n, s)[t].ids
    ensures ListsOk(RemoveTrackable(tracked, n, s), connected, RemoveGossipable(views, n, s))
  {
    var tracked', views' := RemoveTrackable(tracked, n, s), RemoveGossipable(views, n, s);
    forall t, m | t in views'
      ensures m in views'[t].entries <==> m in views'[t].ids && m in connected && t in connected[m].subnets
      ensures m in views'[t].entries ==> m in tracked' && tracked'[m].ip == Some(views'[t].entries[m])
    {
      assert m in views'[t].entries ==> m in views[t].entries;
    }
  }

  lemma ValidatorRemovedOk(c: Config, h: History, tracked: TrackedMap, connected: ConnectedMap, views: Views,
                           s: SubnetID, n: NodeID)
    requires StateOk(c, h, tracked, connected, views)
    requires s in views && n !in views[s].manual
    ensures StateOk(c, Then(h, ValidatorRemoved(s, n)), RemoveTrackable(tracked, n, s), connected,
                    RemoveGossipable(views, n, s))
  {
    var h' := Then(h, ValidatorRemoved(s, n));
    var tracked' := RemoveTrackable(tracked, n, s);
    var views' := RemoveGossipable(views, n, s);
    assert n in ManualOf(views, s) <==> ManuallyGossiped(h, s, n);
    RemoveTrackableTrackedOk(c, h, tracked, s, n);
    RemoveGossipableSubnetsOk(h, views, s, n);
    ConnectedUnaffected(h, ValidatorRemoved(s, n), connected);
    if n !in tracked' { UntrackedNotGossipable(c, h', tracked', views', n); }
    RemovedListsOk(tracked, connected, views, s, n);
  }

  lemma OfferedTrackedOk(c: Config, h: History, e: Event, tracked: TrackedMap)
    requires TrackedOk(c, h, tracked) && (e.IPAdded? || e.PeerConnected?)
    ensures TrackedOk(c, Then(h, e), Offered(tracked, e.ip))
  {
    var h' := Then(h, e);
    forall m ensures Tracked(c, h', m) <==> Tracked(c, h, m) {
    }
  }

  lemma EntriesSetSubnetsOk(h: History, before: Views, after: Views, ip: ClaimedIP, subnets: set<SubnetID>)
    requires SubnetsOk(h, before) && EntriesSet(before, after, ip, subnets)
    ensures SubnetsOk(h, after)
  {
    forall s
      ensures IDsOf(after, s) == IDsOf(before, s)
      ensures ManualOf(after, s) == ManualOf(before, s)
    {
    }
  }

  lemma IPAddedOk(c: Config, h: History, tracked: TrackedMap, connected: ConnectedMap, views: Views,
                  ip: ClaimedIP, views': Views)
    requires StateOk(c, h, tracked, connected, views)
    requires if Offered(tracked, ip) != tracked && ip.node in connected
             then EntriesSet(views, views', ip, connected[ip.node].subnets) else views' == views
    ensures StateOk(c, Then(h, IPAdded(ip)), Offered(tracked, ip), connected, views')
  {
    SubnetsUnaffected(h, IPAdded(ip), views);
    ConnectedUnaffected(h, IPAdded(ip), connected);
    OfferedTrackedOk(c, h, IPAdded(ip), tracked);
    if Offered(tracked, ip) == tracked {
    } else if ip.node in connected {
      EntriesSetSubnetsOk(Then(h, IPAdded(ip)), views, views', ip, connected[ip.node].subnets);
      assert Newest(tracked[ip.node].ip, ip) == Some(ip);
    }
  }

  lemma PeerConnectedOk(c: Config, h: History, tracked: TrackedMap, connected: ConnectedMap, views: Views,
                        ip: ClaimedIP, subnets: set<SubnetID>, views': Views)
    requires StateOk(c, h, tracked, connected, views)
    requires ip.node !in connected
    requires if ip.node in tracked
             then EntriesSet(views, views', Newest(tracked[ip.node].ip, ip).value, subnets) else views' == views
    ensures StateOk(c, Then(h, PeerConnected(ip, subnets)), Offered(tracked, ip),
                    connected[ip.node := Connection(subnets, ip)], views')
  {
    var e := PeerConnected(ip, subnets);
    SubnetsUnaffected(h, e, views);
    OfferedTrackedOk(c, h, e, tracked);
    assert ConnectedOk(Then(h, e), connected[ip.node := Connection(subnets, ip)]);
    if ip.node in tracked {
      LatestIsOwn(c, h, tracked, ip.node);
      EntriesSetSubnetsOk(Then(h, e), views, views', Newest(tracked[ip.node].ip, ip).value, subnets);
    } else {
      UntrackedNotGossipable(c, h, tracked, views, ip.node);
    }
  }

  lemma LatestIsOwn(c: Config, h: History, tracked: TrackedMap, n: NodeID)
    requires TrackedOk(c, h, tracked) && n in tracked
    ensures tracked[n].ip.Some? ==> tracked[n].ip.value.node == n
  {
    LatestCoversConnection(c, h, n);
  }

  lemma PeerDisconnectedOk(c: Config, h: History, tracked: TrackedMap, connected: ConnectedMap, views: Views,
                           n: NodeID, views': Views)
    requires StateOk(c, h, tracked, connected, views)
    requires if n in connected then EntriesRemoved(views, views', n, connected[n].subnets) else views' == views
    ensures StateOk(c, Then(h, PeerDisconnected(n)), tracked, connected - {n}, views')
  {
    var e := PeerDisconnected(n);
    SubnetsUnaffected(h, e, views);
    forall m ensures NodeRecord(c, Then(h, e), m) == NodeRecord(c, h, m) {
    }
    forall s
      ensures IDsOf(views', s) == IDsOf(views, s)
      ensures ManualOf(views', s) == ManualOf(views, s)
    {
    }
  }

  // ---------------------------------------------------------------- reading the state

  lemma RecordMeaning(c: Config, h: History, tracked: TrackedMap, n: NodeID)
    requires TrackedOk(c, h, tracked)
    ensures n in tracked <==> Tracked(c, h, n)
    ensures LatestIP(c, h, n) == if n in tracked then tracked[n].ip else None
    ensures Wanted(c, h, n) <==> n in tracked && tracked[n].WantsConnection()
  {
    if s :| s in Validated(h, n) && Follows(c, s) {
      assert s in Followed(c, Validated(h, n));
    } else {
      assert Followed(c, Validated(h, n)) == {};
    }
  }

  // ---------------------------------------------------------------- counting listed IPs

  /** `f` takes some subnet off the table and goes on with the rest. */
  ghost predicate TakesOne(f: Views -> nat, views: Views) {
    views != map[] ==> exists t :: t in views && f(views) == |views[t].entries| + f(views - {t})
  }

  /** Then it does not matter which one. */
  lemma {:induction false} TakesAny(f: Views -> nat, views: Views, s: SubnetID)
    requires forall v {:trigger TakesOne(f, v)} :: TakesOne(f, v)
    requires s in views
    ensures f(views) == |views[s].entries| + f(views - {s})
    decreases |views|
  {
    assert TakesOne(f, views);
    var t :| t in views && f(views) == |views[t].entries| + f(views - {t});
    if s != t {
      RemoveBoth(views, s, t);
      TakesAny(f, views - {t}, s);
      TakesAny(f, views - {s}, t);
    }
  }

  lemma NumListedSplit(views: Views, s: SubnetID)
    requires s in views
    ensures NumListed(views) == |views[s].entries| + NumListed(views - {s})
  {
    forall v ensures TakesOne(NumListed, v) {
    }
    TakesAny(NumListed, views, s);
  }

  lemma NumListedRemove(views: Views, s: SubnetID)
    requires s in views && views[s].entries == map[]
    ensures NumListed(views - {s}) == NumListed(views) && |views - {s}| == |views| - 1
  {
    NumListedSplit(views, s);
    RemoveCount(views, s);
  }

  lemma NumListedAdd(views: Views, s: SubnetID, v: SubnetView)
    requires s !in views
    ensures NumListed(views[s := v]) == NumListed(views) + |v.entries|
  {
    NumListedSplit(views[s := v], s);
    assert views[s := v] - {s} == views;
  }

  lemma NumListedUpdate(views: Views, s: SubnetID, v: SubnetView)
    ensures NumListed(views[s := v]) == NumListed(views) - |ViewOf(views, s).entries| + |v.entries|
  {
    if s in views {
      NumListedSplit(views, s);
      assert views[s := v] == (views - {s})[s := v];
      NumListedAdd(views - {s}, s, v);
    } else {
      NumListedAdd(views, s, v);
    }
  }
}
