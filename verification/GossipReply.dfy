/** What a reply to a request for peers must contain, in terms of the tracker's history. */
module GossipReply {
  import opened Ids
  import opened TrackerHistory
  import opened TrackerState
  import opened GossipableSubnets

  /** `ip` is the latest IP of a node that some allowed subnet of `from` lists. */
  ghost predicate Offers(c: Config, h: History, from: set<SubnetID>, allowed: SubnetID -> bool, ip: ClaimedIP) {
    && LatestIP(c, h, ip.node) == Some(ip)
    && exists s :: s in from && allowed(s) && Listed(h, s, ip.node)
  }

  datatype Request = Request(allowed: SubnetID -> bool, except: NodeID, known: GossipID -> bool, maxNumIPs: nat)

  /** At most `maxNumIPs` IPs of distinct nodes, all of them news to the requester. */
  ghost predicate Sound(c: Config, h: History, from: set<SubnetID>, r: Request, ips: seq<ClaimedIP>) {
    && |ips| <= r.maxNumIPs && DistinctNodes(ips)
    && forall i :: 0 <= i < |ips| ==> Eligible(ips[i], r.except, r.known) && Offers(c, h, from, r.allowed, ips[i])
  }

  /** If there is room left, no eligible node of an allowed subnet is missing. */
  ghost predicate Complete(c: Config, h: History, from: set<SubnetID>, r: Request, ips: seq<ClaimedIP>) {
    |ips| < r.maxNumIPs ==>
      forall ip :: Offers(c, h, from, r.allowed, ip) && Eligible(ip, r.except, r.known) ==> ip.node in Nodes(ips)
  }

  /** All lists hold the same IP for a node, so leaving out repeated nodes loses nothing. */
  lemma CompleteByIP(c: Config, h: History, from: set<SubnetID>, r: Request, ips: seq<ClaimedIP>, ip: ClaimedIP)
    requires Sound(c, h, from, r, ips) && Complete(c, h, from, r, ips) && |ips| < r.maxNumIPs
    requires Offers(c, h, from, r.allowed, ip) && Eligible(ip, r.except, r.known)
    ensures ip in ips
  {
    NodesMeaning(ips, ip.node);
    var i :| 0 <= i < |ips| && ips[i].node == ip.node;
    assert Offers(c, h, from, r.allowed, ips[i]);
  }

  /** The meaning of a reply that is not full, over every history: exactly the latest IPs of connected nodes that are
      manually gossiped on, or validate, a requested and allowed subnet which they reported tracking, other than the
      requester's own and those that the requester has. */
  lemma ReplyMeaning(c: Config, h: History, from: set<SubnetID>, r: Request, ips: seq<ClaimedIP>, ip: ClaimedIP)
    requires Sound(c, h, from, r, ips) && Complete(c, h, from, r, ips) && |ips| < r.maxNumIPs
    ensures ip in ips <==>
            && LatestIP(c, h, ip.node) == Some(ip) && ip.node != r.except && !r.known(GossipID(ip.node, ip.timestamp))
            && ConnectionOf(h, ip.node).Some?
            && exists s :: s in from && r.allowed(s) && s in ConnectionOf(h, ip.node).value.subnets
                           && (Happened(ManuallyGossip(s, ip.node), h) || StillValidates(h, s, ip.node))
  {
    forall s { ValidatedMeaning(h, s, ip.node); }
    if ip in ips {
      assert Offers(c, h, from, r.allowed, ip);
    } else if Offers(c, h, from, r.allowed, ip) && Eligible(ip, r.except, r.known) {
      CompleteByIP(c, h, from, r, ips, ip);
    }
    if s :| s in from && r.allowed(s) && s in Validated(h, ip.node)
            && ConnectionOf(h, ip.node).Some? && s in ConnectionOf(h, ip.node).value.subnets {
      assert Listed(h, s, ip.node);
    }
  }

  lemma SoundMonotone(c: Config, h: History, from: set<SubnetID>, to: set<SubnetID>, r: Request, ips: seq<ClaimedIP>)
    requires Sound(c, h, from, r, ips) && from <= to
    ensures Sound(c, h, to, r, ips)
  {
    forall i | 0 <= i < |ips| ensures Offers(c, h, to, r.allowed, ips[i]) {
      assert Offers(c, h, from, r.allowed, ips[i]);
    }
  }

  /** A gossip list holds exactly the listed nodes, under their latest IPs. */
  lemma ListMeaning(c: Config, h: History, tracked: TrackedMap, connected: ConnectedMap, views: Views,
                    s: SubnetID, n: NodeID)
    requires StateOk(c, h, tracked, connected, views)
    ensures Listed(h, s, n) <==> s in views && n in views[s].entries
    ensures Listed(h, s, n) ==> LatestIP(c, h, n) == Some(views[s].entries[n])
  {
    assert n in IDsOf(views, s) <==> s in Validated(h, n);
    assert n in connected <==> ConnectionOf(h, n).Some?;
    assert n in tracked <==> Tracked(c, h, n);
  }

  /** The subnets in `from + {s}` offer what those in `from` do and what the list of `s` holds. */
  lemma OffersStep(c: Config, h: History, tracked: TrackedMap, connected: ConnectedMap, views: Views,
                   from: set<SubnetID>, s: SubnetID, r: Request, ip: ClaimedIP)
    requires StateOk(c, h, tracked, connected, views)
    ensures Offers(c, h, from + {s}, r.allowed, ip) <==>
            || Offers(c, h, from, r.allowed, ip)
            || (r.allowed(s) && s in views && ip.node in views[s].entries && views[s].entries[ip.node] == ip)
  {
    ListMeaning(c, h, tracked, connected, views, s, ip.node);
    if Offers(c, h, from, r.allowed, ip) {
      var t :| t in from && r.allowed(t) && Listed(h, t, ip.node);
      assert t in from + {s};
    } else if r.allowed(s) && s in views && ip.node in views[s].entries && views[s].entries[ip.node] == ip {
      assert s in from + {s};
    }
  }

  lemma SkippedComplete(c: Config, h: History, tracked: TrackedMap, connected: ConnectedMap, views: Views,
                        from: set<SubnetID>, s: SubnetID, r: Request, ips: seq<ClaimedIP>)
    requires StateOk(c, h, tracked, connected, views) && Complete(c, h, from, r, ips)
    requires !r.allowed(s) || s !in views
    ensures Complete(c, h, from + {s}, r, ips)
  {
    forall ip { OffersStep(c, h, tracked, connected, views, from, s, r, ip); }
  }

  lemma ExtendedSound(c: Config, h: History, tracked: TrackedMap, connected: ConnectedMap, views: Views,
                      from: set<SubnetID>, s: SubnetID, r: Request,
                      list: seq<ClaimedIP>, ips0: seq<ClaimedIP>, ips: seq<ClaimedIP>)
    requires StateOk(c, h, tracked, connected, views) && Sound(c, h, from, r, ips0)
    requires r.allowed(s) && s in views
    requires forall ip :: ip in list <==> ip.node in views[s].entries && views[s].entries[ip.node] == ip
    requires Extends(ips0, ips, list, r.except, r.known) && DistinctNodes(ips) && |ips| <= r.maxNumIPs
    ensures Sound(c, h, from + {s}, r, ips)
  {
    SoundMonotone(c, h, from, from + {s}, r, ips0);
    forall i | 0 <= i < |ips|
      ensures Eligible(ips[i], r.except, r.known) && Offers(c, h, from + {s}, r.allowed, ips[i])
    {
      if i < |ips0| {
        assert ips[i] == ips0[i];
      } else {
        OffersStep(c, h, tracked, connected, views, from, s, r, ips[i]);
      }
    }
  }

  lemma ExtendedComplete(c: Config, h: History, tracked: TrackedMap, connected: ConnectedMap, views: Views,
                         from: set<SubnetID>, s: SubnetID, r: Request,
                         list: seq<ClaimedIP>, ips0: seq<ClaimedIP>, ips: seq<ClaimedIP>)
    requires StateOk(c, h, tracked, connected, views) && Complete(c, h, from, r, ips0)
    requires s in views
    requires forall ip :: ip in list <==> ip.node in views[s].entries && views[s].entries[ip.node] == ip
    requires ips0 <= ips
    requires |ips| < r.maxNumIPs ==>
               forall ip :: ip in list && Eligible(ip, r.except, r.known) ==> ip.node in Nodes(ips)
    ensures Complete(c, h, from + {s}, r, ips)
  {
    if |ips| < r.maxNumIPs {
      forall ip | Offers(c, h, from + {s}, r.allowed, ip) && Eligible(ip, r.except, r.known)
        ensures ip.node in Nodes(ips)
      {
        OffersStep(c, h, tracked, connected, views, from, s, r, ip);
        if Offers(c, h, from, r.allowed, ip) {
          NodesMeaning(ips0, ip.node);
          var i :| 0 <= i < |ips0| && ips0[i].node == ip.node;
          assert ips[i] == ips0[i];
          NodesMeaning(ips, ip.node);
        }
      }
    }
  }
}
