/** Choosing the peers that a message is sent to. */
module PeerSampling {
  import opened Ids
  import opened Sampler
  import opened ConnectionLinks

  datatype SendConfig = SendConfig(nodeIDs: set<NodeID>, validators: int, nonValidators: int, peers: int)

  /** What the validator set and the subnet's policy say about nodes. */
  datatype Policy = Policy(subnet: SubnetID, isValidator: NodeID -> bool, isAllowed: (NodeID, bool) -> bool)

  predicate Eligible(policy: Policy, p: Peer) {
    policy.subnet in p.trackedSubnets && policy.isAllowed(p.id, policy.isValidator(p.id))
  }

  /** How many more peers of each kind may be taken. */
  datatype Quotas = Quotas(peers: nat, validators: nat, nonValidators: nat)

  function NumValidatorsToSample(config: SendConfig, numValidators: nat): int {
    if config.validators < numValidators then config.validators else numValidators
  }

  function Clip(x: int): nat {
    if x < 0 then 0 else x
  }

  function InitialQuotas(config: SendConfig, numValidators: nat): Quotas {
    Quotas(Clip(config.peers), Clip(NumValidatorsToSample(config, numValidators)), Clip(config.nonValidators))
  }

  /** The size of the sample that is asked for; negative counts lower it. */
  function SampleSize(config: SendConfig, numValidators: nat): int {
    NumValidatorsToSample(config, numValidators) + config.nonValidators + config.peers
  }

  ghost predicate MayTake(policy: Policy, q: Quotas, p: Peer) {
    q.peers > 0 || (if policy.isValidator(p.id) then q.validators > 0 else q.nonValidators > 0)
  }

  ghost function Spend(policy: Policy, q: Quotas, p: Peer): Quotas
    requires MayTake(policy, q, p)
  {
    if q.peers > 0 then q.(peers := q.peers - 1)
    else if policy.isValidator(p.id) then q.(validators := q.validators - 1)
    else q.(nonValidators := q.nonValidators - 1)
  }

  ghost function CountValidators(policy: Policy, ps: seq<Peer>): nat {
    if ps == [] then 0
    else CountValidators(policy, ps[..|ps| - 1]) + (if policy.isValidator(ps[|ps| - 1].id) then 1 else 0)
  }

  /** `taken` was paid for out of `q0`, and `q` is left. */
  ghost predicate Paid(policy: Policy, q0: Quotas, taken: seq<Peer>, q: Quotas) {
    && q.peers <= q0.peers && q.validators <= q0.validators && q.nonValidators <= q0.nonValidators
    && |taken| + q.peers + q.validators + q.nonValidators == q0.peers + q0.validators + q0.nonValidators
    && q0.validators - q.validators <= CountValidators(policy, taken)
    && q0.nonValidators - q.nonValidators <= |taken| - CountValidators(policy, taken)
    && (q.peers > 0 ==> q.validators == q0.validators && q.nonValidators == q0.nonValidators)
  }

  lemma PaidStep(policy: Policy, q0: Quotas, taken: seq<Peer>, q: Quotas, p: Peer)
    requires Paid(policy, q0, taken, q) && MayTake(policy, q, p)
    ensures Paid(policy, q0, taken + [p], Spend(policy, q, p))
  {
    assert (taken + [p])[..|taken|] == taken;
  }

  /** The condition under which a peer is taken; it counts its own decisions. */
  class Precondition {
    const policy: Policy
    const excluded: set<NodeID>
    var peers: int
    var numValidatorsToSample: int
    var nonValidators: int
    ghost var left: Quotas

    ghost predicate Valid()
      reads this
    {
      left == Quotas(Clip(peers), Clip(numValidatorsToSample), Clip(nonValidators))
    }

    constructor (policy: Policy, config: SendConfig, numValidators: nat)
      ensures Valid() && left == InitialQuotas(config, numValidators)
      ensures this.policy == policy && this.excluded == config.nodeIDs
    {
      this.policy, this.excluded, left := policy, config.nodeIDs, InitialQuotas(config, numValidators);
      peers, nonValidators := config.peers, config.nonValidators;
      numValidatorsToSample := NumValidatorsToSample(config, numValidators);
    }

    /** Takes an eligible peer that is not named exactly when a quota allows it, and then charges that quota. */
    method Accepts(p: Peer) returns (r: bool)
      requires Valid()
      modifies this
      ensures Valid()
      ensures r <==> Eligible(policy, p) && p.id !in excluded && MayTake(policy, old(left), p)
      ensures left == if r then Spend(policy, old(left), p) else old(left)
    {
      if policy.subnet !in p.trackedSubnets || p.id in excluded {
        return false;
      }
      var areTheyAValidator := policy.isValidator(p.id);
      if !policy.isAllowed(p.id, areTheyAValidator) {
        return false;
      }
      if peers > 0 {
        left := left.(peers := left.peers - 1);
        peers := peers - 1;
        return true;
      }
      if areTheyAValidator {
        numValidatorsToSample := numValidatorsToSample - 1;
        left := left.(validators := Clip(numValidatorsToSample));
        return numValidatorsToSample >= 0;
      }
      nonValidators := nonValidators - 1;
      left := left.(nonValidators := Clip(nonValidators));
      return nonValidators >= 0;
    }
  }

  ghost predicate DistinctIDs(ps: seq<Peer>) {
    forall i, j :: 0 <= i < j < |ps| ==> ps[i].id != ps[j].id
  }

  ghost predicate Candidate(policy: Policy, excluded: set<NodeID>, p: Peer) {
    Eligible(policy, p) && p.id !in excluded
  }

  /** Everything chosen is a candidate. */
  ghost predicate Chosen(policy: Policy, excluded: set<NodeID>, all: seq<Peer>, sampled: seq<Peer>) {
    forall i :: 0 <= i < |sampled| ==> sampled[i] in all && Candidate(policy, excluded, sampled[i])
  }

  /** Of the positions already looked at, every candidate was chosen or cannot be paid for any more. */
  ghost predicate Considered(policy: Policy, excluded: set<NodeID>, all: seq<Peer>, remaining: set<nat>,
                             sampled: seq<Peer>, q: Quotas) {
    forall k :: 0 <= k < |all| && k !in remaining && Candidate(policy, excluded, all[k]) ==>
      all[k] in sampled || !MayTake(policy, q, all[k])
  }

  /** Peers still to be looked at have not been chosen. */
  ghost predicate Untouched(all: seq<Peer>, remaining: set<nat>, sampled: seq<Peer>) {
    forall k, i :: k in remaining && 0 <= k < |all| && 0 <= i < |sampled| ==> all[k].id != sampled[i].id
  }

  lemma ConsiderStep(policy: Policy, excluded: set<NodeID>, all: seq<Peer>, remaining: set<nat>,
                     sampled: seq<Peer>, q: Quotas, k: nat)
    requires k < |all| && k in remaining && DistinctIDs(all) && DistinctIDs(sampled)
    requires Chosen(policy, excluded, all, sampled) && Untouched(all, remaining, sampled)
    requires Considered(policy, excluded, all, remaining, sampled, q)
    requires Candidate(policy, excluded, all[k]) && MayTake(policy, q, all[k])
    ensures DistinctIDs(sampled + [all[k]])
    ensures Chosen(policy, excluded, all, sampled + [all[k]])
    ensures Untouched(all, remaining - {k}, sampled + [all[k]])
    ensures Considered(policy, excluded, all, remaining - {k}, sampled + [all[k]], Spend(policy, q, all[k]))
  {
    var sampled' := sampled + [all[k]];
    assert sampled'[|sampled|] == all[k];
    forall j | 0 <= j < |all| && j !in remaining - {k} && Candidate(policy, excluded, all[j])
      ensures all[j] in sampled' || !MayTake(policy, Spend(policy, q, all[k]), all[j])
    {
      if j != k && all[j] in sampled {
        var i :| 0 <= i < |sampled| && sampled[i] == all[j];
        assert sampled'[i] == all[j];
      }
    }
  }

  /** A candidate is passed over only when the quota for arbitrary peers and the one for its kind are used up. */
  ghost predicate UsedUp(policy: Policy, q0: Quotas, sampled: seq<Peer>, p: Peer) {
    if policy.isValidator(p.id)
    then |sampled| >= q0.peers + q0.validators && CountValidators(policy, sampled) >= q0.validators
    else |sampled| >= q0.peers + q0.nonValidators && |sampled| - CountValidators(policy, sampled) >= q0.nonValidators
  }

  /** The invariant of a sampling run of which the positions `remaining` are still to be looked at. */
  ghost predicate Sampling(policy: Policy, excluded: set<NodeID>, all: seq<Peer>, q0: Quotas,
                           remaining: set<nat>, sampled: seq<Peer>, q: Quotas) {
    && remaining <= Below(|all|) && DistinctIDs(all) && DistinctIDs(sampled)
    && Chosen(policy, excluded, all, sampled) && Untouched(all, remaining, sampled)
    && Considered(policy, excluded, all, remaining, sampled, q) && Paid(policy, q0, sampled, q)
  }

  lemma SamplingStep(policy: Policy, excluded: set<NodeID>, all: seq<Peer>, q0: Quotas,
                     remaining: set<nat>, sampled: seq<Peer>, q: Quotas, k: nat)
    requires Sampling(policy, excluded, all, q0, remaining, sampled, q) && k in remaining
    ensures k < |all|
    ensures if Candidate(policy, excluded, all[k]) && MayTake(policy, q, all[k])
            then Sampling(policy, excluded, all, q0, remaining - {k}, sampled + [all[k]], Spend(policy, q, all[k]))
            else Sampling(policy, excluded, all, q0, remaining - {k}, sampled, q)
  {
    if Candidate(policy, excluded, all[k]) && MayTake(policy, q, all[k]) {
      ConsiderStep(policy, excluded, all, remaining, sampled, q, k);
      PaidStep(policy, q0, sampled, q, all[k]);
    }
  }

  /** Within the quotas and the size, and as many as they and the candidates allow. The size can be below the sum of the
      quotas only if some count is negative. */
  ghost predicate Sample(policy: Policy, excluded: set<NodeID>, all: seq<Peer>, q0: Quotas, size: int, sampled: seq<Peer>) {
    && DistinctIDs(sampled) && Chosen(policy, excluded, all, sampled)
    && |sampled| <= Clip(size)
    && CountValidators(policy, sampled) <= q0.peers + q0.validators
    && |sampled| - CountValidators(policy, sampled) <= q0.peers + q0.nonValidators
    && forall p :: p in all && Candidate(policy, excluded, p) && p !in sampled ==>
         UsedUp(policy, q0, sampled, p) || (|sampled| >= size && size < q0.peers + q0.validators + q0.nonValidators)
  }

  /** What a sample is, spelled out. The counts are those of the configuration, with negative ones counting as none, and no
      more validators than there are. */
  lemma SampleMeaning(policy: Policy, all: seq<Peer>, config: SendConfig, numValidators: nat, sampled: seq<Peer>)
    requires Sample(policy, config.nodeIDs, all, InitialQuotas(config, numValidators),
                    SampleSize(config, numValidators), sampled)
    ensures forall i :: 0 <= i < |sampled| ==>
              && sampled[i] in all && sampled[i].id !in config.nodeIDs && policy.subnet in sampled[i].trackedSubnets
              && policy.isAllowed(sampled[i].id, policy.isValidator(sampled[i].id))
    ensures forall i, j :: 0 <= i < j < |sampled| ==> sampled[i].id != sampled[j].id
    ensures var validators := if config.validators < numValidators then config.validators else numValidators;
            var size := validators + config.nonValidators + config.peers;
            var v, n := if validators < 0 then 0 else validators, if config.nonValidators < 0 then 0 else config.nonValidators;
            var any := if config.peers < 0 then 0 else config.peers;
            && (sampled == [] || |sampled| <= size)
            && CountValidators(policy, sampled) <= any + v
            && |sampled| - CountValidators(policy, sampled) <= any + n
            && forall p :: p in all && p !in sampled && p.id !in config.nodeIDs && policy.subnet in p.trackedSubnets
                           && policy.isAllowed(p.id, policy.isValidator(p.id)) ==>
                 || (|sampled| >= size && size < any + v + n)
                 || (if policy.isValidator(p.id)
                     then |sampled| >= any + v && CountValidators(policy, sampled) >= v
                     else |sampled| >= any + n && |sampled| - CountValidators(policy, sampled) >= n)
  {
    forall p | p in all && p !in sampled && p.id !in config.nodeIDs && policy.subnet in p.trackedSubnets
               && policy.isAllowed(p.id, policy.isValidator(p.id))
      ensures Candidate(policy, config.nodeIDs, p)
    {
    }
  }

  /** The run may stop when no position is left, or when the sample is large enough. */
  lemma SamplingDone(policy: Policy, excluded: set<NodeID>, all: seq<Peer>, q0: Quotas,
                     remaining: set<nat>, sampled: seq<Peer>, q: Quotas, size: int)
    requires Sampling(policy, excluded, all, q0, remaining, sampled, q)
    requires |sampled| <= Clip(size) && size <= q0.peers + q0.validators + q0.nonValidators
    requires remaining == {} || |sampled| >= size
    ensures Sample(policy, excluded, all, q0, size, sampled)
  {
    forall p | p in all && Candidate(policy, excluded, p) && p !in sampled
      ensures UsedUp(policy, q0, sampled, p) || (|sampled| >= size && size < q0.peers + q0.validators + q0.nonValidators)
    {
      var k :| 0 <= k < |all| && all[k] == p;
      if remaining == {} {
        assert k !in remaining;
        assert !MayTake(policy, q, p);
      }
    }
  }

  /** `all` are the connected peers; they are looked at in a random order. */
  method SamplePeers(all: seq<Peer>, config: SendConfig, policy: Policy, numValidators: nat)
    returns (sampled: seq<Peer>)
    requires DistinctIDs(all)
    ensures Sample(policy, config.nodeIDs, all, InitialQuotas(config, numValidators),
                   SampleSize(config, numValidators), sampled)
  {
    ghost var q0 := InitialQuotas(config, numValidators);
    var n := SampleSize(config, numValidators);
    sampled := [];
    assert Sampling(policy, config.nodeIDs, all, q0, Below(|all|), sampled, q0);
    if n <= 0 {
      SamplingDone(policy, config.nodeIDs, all, q0, Below(|all|), sampled, q0, n);
      return;
    }
    var precondition := new Precondition(policy, config, numValidators);
    var sampler := new UniformReplacer(|all|);
    while |sampled| < n
      invariant sampler.Valid() && fresh(sampler) && precondition.Valid() && fresh(precondition)
      invariant precondition.policy == policy && precondition.excluded == config.nodeIDs && |sampled| <= n
      invariant Sampling(policy, config.nodeIDs, all, q0, sampler.remaining, sampled, precondition.left)
      decreases |sampler.remaining|
    {
      ghost var remaining := sampler.remaining;
      var next := sampler.Next();
      if next.None? {
        break;
      }
      SamplingStep(policy, config.nodeIDs, all, q0, remaining, sampled, precondition.left, next.value);
      var accepted := precondition.Accepts(all[next.value]);
      if !accepted {
        continue;
      }
      sampled := sampled + [all[next.value]];
    }
    SamplingDone(policy, config.nodeIDs, all, q0, sampler.remaining, sampled, precondition.left, n);
  }

  /** The named peers that are connected and allowed. */
  method GetPeers(connected: PeerSet, nodeIDs: set<NodeID>, policy: Policy) returns (named: seq<Peer>)
    requires forall n :: n in connected ==> connected[n].id == n
    ensures DistinctIDs(named) && |named| <= |nodeIDs|
    ensures forall p :: p in named <==> p.id in nodeIDs && p.id in connected && connected[p.id] == p
                                        && policy.isAllowed(p.id, policy.isValidator(p.id))
  {
    named := [];
    var rest := nodeIDs;
    while rest != {}
      invariant rest <= nodeIDs && DistinctIDs(named) && |named| + |rest| <= |nodeIDs|
      invariant forall p :: p in named <==>
                  p.id in nodeIDs - rest && p.id in connected && connected[p.id] == p
                  && policy.isAllowed(p.id, policy.isValidator(p.id))
      decreases rest
    {
      var nodeID :| nodeID in rest;
      rest := rest - {nodeID};
      if nodeID !in connected {
        continue;
      }
      if !policy.isAllowed(nodeID, policy.isValidator(nodeID)) {
        continue;
      }
      named := named + [connected[nodeID]];
    }
  }

  /** Named and sampled peers have different nodes. */
  lemma NamedAndSampledDisjoint(policy: Policy, nodeIDs: set<NodeID>, all: seq<Peer>, named: seq<Peer>, sampled: seq<Peer>)
    requires DistinctIDs(named) && DistinctIDs(sampled)
    requires Chosen(policy, nodeIDs, all, sampled) && (forall p :: p in named ==> p.id in nodeIDs)
    ensures DistinctIDs(named + sampled)
  {
    assert forall i :: 0 <= i < |named| ==> named[i] in named;
  }

  ghost function Reached(attempts: seq<Peer>, sends: Peer -> bool): set<NodeID> {
    set p | p in attempts && sends(p) :: p.id
  }

  /** The lock is free between looking up the named peers and sampling the others, so each sees its own peers and policy.
      Still no node is tried twice; those to which sending succeeds are returned. */
  method Send(connected: PeerSet, policy1: Policy, all: seq<Peer>, policy2: Policy, config: SendConfig, numValidators: nat,
              sends: Peer -> bool)
    returns (sentTo: set<NodeID>, attempts: seq<Peer>)
    requires (forall n :: n in connected ==> connected[n].id == n) && DistinctIDs(all)
    ensures DistinctIDs(attempts) && sentTo == Reached(attempts, sends)
    ensures forall n :: n in config.nodeIDs ==>
              ((exists p :: p in attempts && p.id == n) <==> n in connected && policy1.isAllowed(n, policy1.isValidator(n)))
    ensures forall p :: p in attempts ==>
              if p.id in config.nodeIDs then p.id in connected && connected[p.id] == p
              else p in all && policy2.subnet in p.trackedSubnets && policy2.isAllowed(p.id, policy2.isValidator(p.id))
    ensures exists k :: 0 <= k <= |attempts| && k <= |config.nodeIDs|
              && Sample(policy2, config.nodeIDs, all, InitialQuotas(config, numValidators),
                        SampleSize(config, numValidators), attempts[k..])
  {
    var namedPeers := GetPeers(connected, config.nodeIDs, policy1);
    var sampledPeers := SamplePeers(all, config, policy2, numValidators);
    NamedAndSampledDisjoint(policy2, config.nodeIDs, all, namedPeers, sampledPeers);
    attempts := namedPeers + sampledPeers;
    assert attempts[|namedPeers|..] == sampledPeers;
    sentTo := {};
    for i := 0 to |attempts|
      invariant sentTo == Reached(attempts[..i], sends)
    {
      assert attempts[..i + 1] == attempts[..i] + [attempts[i]];
      if sends(attempts[i]) {
        sentTo := sentTo + {attempts[i].id};
      }
    }
    assert attempts[..|attempts|] == attempts;
    forall n | n in config.nodeIDs
      ensures (exists p :: p in attempts && p.id == n) <==> n in connected && policy1.isAllowed(n, policy1.isValidator(n))
    {
      if n in connected && policy1.isAllowed(n, policy1.isValidator(n)) {
        assert connected[n] in namedPeers && connected[n] in attempts;
      }
    }
  }
}
