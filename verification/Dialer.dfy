/** The addresses that the network is dialling. */
module Dialers {
  import opened Ids

  /** An address that is being dialled, until it is stopped. */
  class TrackedIP {
    ghost const node: NodeID
    const ip: nat
    var delay: nat
    var stopped: bool

    constructor (ghost node: NodeID, ip: nat, delay: nat)
      ensures this.node == node && this.ip == ip && this.delay == delay && !stopped
    {
      this.node, this.ip, this.delay, stopped := node, ip, delay, false;
    }

    method StopTracking()
      modifies this`stopped
      ensures stopped
    {
      stopped := true;
    }

    /** The replacement keeps the backoff that was reached. */
    method TrackNewIP(newIP: nat) returns (t: TrackedIP)
      modifies this`stopped
      ensures stopped && fresh(t) && t.node == node && t.ip == newIP && t.delay == delay && !t.stopped
    {
      StopTracking();
      t := new TrackedIP(node, newIP, delay);
    }
  }

  class Dialer {
    var trackedIPs: map<NodeID, TrackedIP>
    ghost var targets: map<NodeID, nat>   // the addresses in trackedIPs
    ghost var created: set<TrackedIP>     // every address ever dialled
    ghost var Repr: set<object>

    /** The objects that were created and not stopped are exactly the entries of trackedIPs:
        overwriting or deleting an entry never leaves a live one behind. */
    ghost predicate Valid()
      reads this, Repr
      ensures Valid() ==> this in Repr
    {
      && this in Repr && created <= Repr
      && targets.Keys == trackedIPs.Keys
      && (forall n :: n in trackedIPs ==>
            && trackedIPs[n] in created && trackedIPs[n].node == n && !trackedIPs[n].stopped
            && trackedIPs[n].ip == targets[n])
      && (forall t :: t in created && !t.stopped ==> t.node in trackedIPs && trackedIPs[t.node] == t)
    }

    /** No object is forgotten, and none that was stopped is live again. */
    twostate predicate Grown()
      reads this, Repr
    {
      && old(created) <= created
      && forall t :: t in old(created) && t in Repr ==> t.delay == old(t.delay) && (old(t.stopped) ==> t.stopped)
    }

    constructor ()
      ensures Valid() && fresh(Repr) && targets == map[] && created == {}
    {
      trackedIPs, targets, created := map[], map[], {};
      Repr := {this};
    }

    /** Starts dialling a node, in place of any address that was being dialled for it: that object is stopped, and its
        successor is a new one which keeps its delay. */
    method Redirect(n: NodeID, ip: nat)
      requires Valid()
      modifies Repr
      ensures Valid() && fresh(Repr - old(Repr)) && targets == old(targets)[n := ip] && Grown()
      ensures n in trackedIPs && fresh(trackedIPs[n]) && trackedIPs == old(trackedIPs)[n := trackedIPs[n]]
      ensures created == old(created) + {trackedIPs[n]}
      ensures n in old(trackedIPs) ==> old(trackedIPs[n]).stopped && trackedIPs[n].delay == old(trackedIPs[n].delay)
      ensures n !in old(trackedIPs) ==> trackedIPs[n].delay == 0
    {
      var tracked: TrackedIP;
      if n in trackedIPs {
        tracked := trackedIPs[n].TrackNewIP(ip);
      } else {
        tracked := new TrackedIP(n, ip, 0);
      }
      trackedIPs, targets := trackedIPs[n := tracked], targets[n := ip];
      created, Repr := created + {tracked}, Repr + {tracked};
    }

    /** Starts dialling a node for which nothing is being dialled. */
    method Start(n: NodeID, ip: nat)
      requires Valid() && n !in trackedIPs
      modifies Repr
      ensures Valid() && fresh(Repr - old(Repr)) && targets == old(targets)[n := ip] && Grown()
      ensures n in trackedIPs && fresh(trackedIPs[n]) && trackedIPs == old(trackedIPs)[n := trackedIPs[n]]
      ensures created == old(created) + {trackedIPs[n]} && trackedIPs[n].delay == 0
    {
      var tracked := new TrackedIP(n, ip, 0);
      trackedIPs, targets := trackedIPs[n := tracked], targets[n := ip];
      created, Repr := created + {tracked}, Repr + {tracked};
    }

    /** Dials the same address afresh, if any. */
    method Retry(n: NodeID)
      requires Valid()
      modifies Repr
      ensures Valid() && fresh(Repr - old(Repr)) && targets == old(targets) && Grown()
      ensures n in old(trackedIPs) ==>
                && old(trackedIPs[n]).stopped && n in trackedIPs && fresh(trackedIPs[n])
                && trackedIPs == old(trackedIPs)[n := trackedIPs[n]]
                && trackedIPs[n].delay == old(trackedIPs[n].delay)
      ensures n !in old(trackedIPs) ==> trackedIPs == old(trackedIPs)
    {
      if n in trackedIPs {
        Redirect(n, trackedIPs[n].ip);
      }
    }

    method Stop(n: NodeID)
      requires Valid()
      modifies Repr
      ensures Valid() && Repr == old(Repr) && targets == old(targets) - {n} && Grown()
      ensures n in old(trackedIPs) ==> old(trackedIPs[n]).stopped
      ensures trackedIPs == old(trackedIPs) - {n} && created == old(created)
    {
      if n in trackedIPs {
        trackedIPs[n].StopTracking();
        trackedIPs := trackedIPs - {n};
      }
      targets := targets - {n};
    }

    /** Every object that was ever created is stopped. */
    method StopAll()
      requires Valid()
      modifies Repr
      ensures Valid() && Repr == old(Repr) && targets == map[] && trackedIPs == map[] && Grown()
      ensures created == old(created) && forall t :: t in created ==> t.stopped
    {
      while trackedIPs != map[]
        invariant Valid() && Repr == old(Repr) && Grown() && created == old(created)
        decreases |trackedIPs|
      {
        var n :| n in trackedIPs;
        Stop(n);
      }
      assert targets.Keys == {};
    }
  }
}
