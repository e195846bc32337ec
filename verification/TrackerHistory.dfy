/** What an IP tracker should know, as a function of everything that has happened to it.
    Nothing here mentions the tracker's maps: this is the reference that they are proved to agree with. */
module TrackerHistory {
  import opened Ids

  datatype Event =
    | ManuallyTrack(node: NodeID)
    | ManuallyGossip(subnet: SubnetID, node: NodeID)
    | ValidatorAdded(subnet: SubnetID, node: NodeID)
    | ValidatorRemoved(subnet: SubnetID, node: NodeID)
    | IPAdded(ip: ClaimedIP)
    | PeerConnected(ip: ClaimedIP, subnets: set<SubnetID>)
    | PeerDisconnected(node: NodeID)

  datatype History = Start | Then(past: History, last: Event)

  datatype Config = Config(trackedSubnets: set<SubnetID>, connectToAllValidators: bool)

  datatype Connection = Connection(subnets: set<SubnetID>, ip: ClaimedIP)

  predicate IsLocal(c: Config, s: SubnetID) {
    s == PrimaryNetworkID || s in c.trackedSubnets
  }

  /** Subnets on whose account this node wants connections. */
  predicate Follows(c: Config, s: SubnetID) {
    IsLocal(c, s) || c.connectToAllValidators
  }

  ghost predicate ManuallyTracked(c: Config, h: History, n: NodeID) {
    match h
    case Start => false
    case Then(p, ManuallyTrack(m)) => m == n || ManuallyTracked(c, p, n)
    case Then(p, ManuallyGossip(s, m)) => (m == n && IsLocal(c, s)) || ManuallyTracked(c, p, n)
    case Then(p, _) => ManuallyTracked(c, p, n)
  }

  ghost predicate ManuallyGossiped(h: History, s: SubnetID, n: NodeID) {
    match h
    case Start => false
    case Then(p, e) => e == ManuallyGossip(s, n) || ManuallyGossiped(p, s, n)
  }

  /** The subnets on which `n` validates or was manually marked for gossip. */
  ghost function Validated(h: History, n: NodeID): set<SubnetID> {
    match h
    case Start => {}
    case Then(p, ManuallyGossip(s, m)) => if m == n then Validated(p, n) + {s} else Validated(p, n)
    case Then(p, ValidatorAdded(s, m)) => if m == n then Validated(p, n) + {s} else Validated(p, n)
    case Then(p, ValidatorRemoved(s, m)) =>
      if m == n && !ManuallyGossiped(p, s, n) then Validated(p, n) - {s} else Validated(p, n)
    case Then(p, _) => Validated(p, n)
  }

  ghost predicate Tracked(c: Config, h: History, n: NodeID) {
    ManuallyTracked(c, h, n) || Validated(h, n) != {}
  }

  ghost predicate Wanted(c: Config, h: History, n: NodeID) {
    ManuallyTracked(c, h, n) || exists s :: s in Validated(h, n) && Follows(c, s)
  }

  ghost function ConnectionOf(h: History, n: NodeID): Option<Connection> {
    match h
    case Start => None
    case Then(p, PeerConnected(ip, subnets)) =>
      if ip.node == n then Some(Connection(subnets, ip)) else ConnectionOf(p, n)
    case Then(p, PeerDisconnected(m)) => if m == n then None else ConnectionOf(p, n)
    case Then(p, _) => ConnectionOf(p, n)
  }

  /** A claim replaces the known one only if it is strictly newer. */
  function Newest(known: Option<ClaimedIP>, ip: ClaimedIP): Option<ClaimedIP> {
    if known.None? || known.value.timestamp < ip.timestamp then Some(ip) else known
  }

  ghost function LatestIP(c: Config, h: History, n: NodeID): Option<ClaimedIP> {
    match h
    case Start => None
    case Then(p, e) =>
      if !Tracked(c, h, n) then None
      else if !Tracked(c, p, n) then
        (match ConnectionOf(p, n) case None => None case Some(conn) => Some(conn.ip))
      else if (e.IPAdded? || e.PeerConnected?) && e.ip.node == n then Newest(LatestIP(c, p, n), e.ip)
      else LatestIP(c, p, n)
  }

  /** `n`'s IP belongs in the gossip list of `s`. */
  ghost predicate Listed(h: History, s: SubnetID, n: NodeID) {
    s in Validated(h, n) && ConnectionOf(h, n).Some? && s in ConnectionOf(h, n).value.subnets
  }

  // ---------------------------------------------------------------- whole-history statements

  ghost predicate Happened(e: Event, h: History) {
    h.Then? && (h.last == e || Happened(e, h.past))
  }

  /** `p` is `h` or an earlier point of it. */
  ghost predicate Within(p: History, h: History) {
    p == h || (h.Then? && Within(p, h.past))
  }

  ghost predicate HappenedSince(e: Event, p: History, h: History) {
    h != p && h.Then? && (h.last == e || HappenedSince(e, p, h.past))
  }

  /** Some addition of `n` to `s` was never followed by a removal. */
  ghost predicate StillValidates(h: History, s: SubnetID, n: NodeID) {
    exists p ::
      && Within(p, h)
      && p.Then? && p.last == ValidatorAdded(s, n)
      && !HappenedSince(ValidatorRemoved(s, n), p, h)
  }

  lemma {:induction false} ManuallyGossipedMeaning(h: History, s: SubnetID, n: NodeID)
    ensures ManuallyGossiped(h, s, n) <==> Happened(ManuallyGossip(s, n), h)
  {
    if h.Then? { ManuallyGossipedMeaning(h.past, s, n); }
  }

  lemma {:induction false} ManuallyTrackedMeaning(c: Config, h: History, n: NodeID)
    ensures ManuallyTracked(c, h, n) <==>
            || Happened(ManuallyTrack(n), h)
            || exists s :: (s == PrimaryNetworkID || s in c.trackedSubnets) && Happened(ManuallyGossip(s, n), h)
  {
    if h.Then? { ManuallyTrackedMeaning(c, h.past, n); }
  }

  lemma {:induction false} SizeOfWithin(p: History, h: History)
    requires Within(p, h)
    ensures p == h || p < h
  {
    if p != h { SizeOfWithin(p, h.past); }
  }

  lemma {:induction false} StillValidatesStep(h: History, s: SubnetID, n: NodeID)
    requires h.Then?
    ensures StillValidates(h, s, n) <==>
            h.last == ValidatorAdded(s, n)
            || (h.last != ValidatorRemoved(s, n) && StillValidates(h.past, s, n))
  {
    var removed := ValidatorRemoved(s, n);
    if h.last == ValidatorAdded(s, n) {
      assert Within(h, h);
    } else if h.last != removed && StillValidates(h.past, s, n) {
      var p :| Within(p, h.past) && p.Then? && p.last == ValidatorAdded(s, n) && !HappenedSince(removed, p, h.past);
      SizeOfWithin(p, h.past);
      assert Within(p, h) && !HappenedSince(removed, p, h);
    }
  }

  lemma {:induction false} ValidatedMeaning(h: History, s: SubnetID, n: NodeID)
    ensures s in Validated(h, n) <==> Happened(ManuallyGossip(s, n), h) || StillValidates(h, s, n)
  {
    if h.Then? {
      ValidatedMeaning(h.past, s, n);
      StillValidatesStep(h, s, n);
      ManuallyGossipedMeaning(h.past, s, n);
    }
  }

  /** The documented meaning of WantsConnection, over every history. */
  lemma WantedMeaning(c: Config, h: History, n: NodeID)
    ensures Wanted(c, h, n) <==>
            || Happened(ManuallyTrack(n), h)
            || exists s :: (s == PrimaryNetworkID || s in c.trackedSubnets || c.connectToAllValidators)
                           && (Happened(ManuallyGossip(s, n), h) || StillValidates(h, s, n))
  {
    ManuallyTrackedMeaning(c, h, n);
    forall s { ValidatedMeaning(h, s, n); }
    if s :| Follows(c, s) && (Happened(ManuallyGossip(s, n), h) || StillValidates(h, s, n)) {
      assert s in Validated(h, n);
    } else if s :| IsLocal(c, s) && Happened(ManuallyGossip(s, n), h) {
      assert Follows(c, s);
    }
  }

  /** A node is tracked for any of these reasons, on whatever subnet. */
  lemma TrackedMeaning(c: Config, h: History, n: NodeID)
    ensures Tracked(c, h, n) <==>
            || Happened(ManuallyTrack(n), h)
            || exists s :: Happened(ManuallyGossip(s, n), h) || StillValidates(h, s, n)
  {
    ManuallyTrackedMeaning(c, h, n);
    forall s { ValidatedMeaning(h, s, n); }
    if s :| Happened(ManuallyGossip(s, n), h) || StillValidates(h, s, n) {
      assert s in Validated(h, n);
    }
  }

  /** `e` is about the connection to `n`. */
  ghost predicate AboutConnection(e: Event, n: NodeID) {
    (e.PeerConnected? && e.ip.node == n) || e == PeerDisconnected(n)
  }

  /** What has happened to the connection to `n`, if anything, happened last at `p`. */
  ghost predicate LastAbout(p: History, h: History, n: NodeID) {
    && Within(p, h) && p.Then? && AboutConnection(p.last, n)
    && (p == h || (!AboutConnection(h.last, n) && LastAbout(p, h.past, n)))
  }

  /** A node is connected exactly when its last connection event was a connection, and then with its IP and subnets. */
  lemma {:induction false} ConnectionMeaning(h: History, n: NodeID, subnets: set<SubnetID>, ip: ClaimedIP)
    ensures ConnectionOf(h, n) == Some(Connection(subnets, ip)) <==>
            exists p :: LastAbout(p, h, n) && p.last == PeerConnected(ip, subnets)
  {
    if h.Then? {
      if AboutConnection(h.last, n) {
        assert LastAbout(h, h, n);
        forall p | LastAbout(p, h, n) ensures p == h {
        }
      } else {
        ConnectionMeaning(h.past, n, subnets, ip);
        if p :| LastAbout(p, h.past, n) && p.last == PeerConnected(ip, subnets) {
          SizeOfWithin(p, h.past);
          assert LastAbout(p, h, n);
        }
      }
    }
  }

  lemma {:induction false} GossipedStaysValidated(h: History, s: SubnetID, n: NodeID)
    requires ManuallyGossiped(h, s, n)
    ensures s in Validated(h, n)
  {
    if h.last != ManuallyGossip(s, n) { GossipedStaysValidated(h.past, s, n); }
  }

  // ---------------------------------------------------------------- timestamps

  lemma {:induction false} LatestCoversConnection(c: Config, h: History, n: NodeID)
    requires Tracked(c, h, n)
    ensures LatestIP(c, h, n).Some? ==> LatestIP(c, h, n).value.node == n
    ensures ConnectionOf(h, n).Some? ==>
            && LatestIP(c, h, n).Some?
            && ConnectionOf(h, n).value.ip.timestamp <= LatestIP(c, h, n).value.timestamp
  {
    ConnectionIsOwn(h.past, n);
    if Tracked(c, h.past, n) { LatestCoversConnection(c, h.past, n); }
  }

  lemma {:induction false} ConnectionIsOwn(h: History, n: NodeID)
    ensures ConnectionOf(h, n).Some? ==> ConnectionOf(h, n).value.ip.node == n
  {
    if h.Then? { ConnectionIsOwn(h.past, n); }
  }

  ghost predicate TrackedThroughout(c: Config, p: History, h: History, n: NodeID)
    requires Within(p, h)
  {
    Tracked(c, h, n) && (p == h || TrackedThroughout(c, p, h.past, n))
  }

  /** While a node stays tracked, its known IP is never lost and never gets older. */
  lemma {:induction false} LatestNeverOlder(c: Config, p: History, h: History, n: NodeID)
    requires Within(p, h) && TrackedThroughout(c, p, h, n)
    requires LatestIP(c, p, n).Some?
    ensures LatestIP(c, h, n).Some? && LatestIP(c, p, n).value.timestamp <= LatestIP(c, h, n).value.timestamp
  {
    if p != h { LatestNeverOlder(c, p, h.past, n); }
  }

  /** Every claim about `n` heard while it was continuously tracked is at most as new as the known IP. */
  lemma {:induction false} LatestIsMaximal(c: Config, p: History, h: History, n: NodeID)
    requires Within(p, h) && p.Then? && TrackedThroughout(c, p, h, n) && Tracked(c, p.past, n)
    requires (p.last.IPAdded? || p.last.PeerConnected?) && p.last.ip.node == n
    ensures LatestIP(c, h, n).Some? && p.last.ip.timestamp <= LatestIP(c, h, n).value.timestamp
  {
    LatestNeverOlder(c, p, h, n);
  }

  /** A claim about a tracked node replaces the known IP exactly when it is strictly newer, or the first. */
  lemma LatestStep(c: Config, h: History, ip: ClaimedIP)
    requires Tracked(c, h, ip.node)
    ensures var known := LatestIP(c, h, ip.node);
            LatestIP(c, Then(h, IPAdded(ip)), ip.node) ==
              if known.None? || known.value.timestamp < ip.timestamp then Some(ip) else known
  {
    var h' := Then(h, IPAdded(ip));
    assert ManuallyTracked(c, h', ip.node) == ManuallyTracked(c, h, ip.node);
    assert Validated(h', ip.node) == Validated(h, ip.node);
  }

  /** At this point of the history `ip` became known: it was claimed while `n` was tracked, or tracking began while `ip`
      was the one of `n`'s connection. */
  ghost predicate BecameKnown(c: Config, p: History, n: NodeID, ip: ClaimedIP) {
    && p.Then? && Tracked(c, p, n)
    && if Tracked(c, p.past, n) then (p.last.IPAdded? || p.last.PeerConnected?) && p.last.ip == ip && ip.node == n
       else ConnectionOf(p.past, n).Some? && ConnectionOf(p.past, n).value.ip == ip
  }

  /** The known IP is one that was heard: it became known at some point since when the node has stayed tracked. */
  lemma {:induction false} LatestIsAttained(c: Config, h: History, n: NodeID) returns (p: History)
    requires LatestIP(c, h, n).Some?
    ensures Within(p, h) && TrackedThroughout(c, p, h, n) && BecameKnown(c, p, n, LatestIP(c, h, n).value)
  {
    if Tracked(c, h.past, n) && LatestIP(c, h, n) == LatestIP(c, h.past, n) {
      p := LatestIsAttained(c, h.past, n);
      SizeOfWithin(p, h.past);
    } else {
      p := h;
    }
  }
}
