# Verification of avalanchego's hard cores

This project models five parts of avalanchego in Dafny and proves what they promise.

* **IP tracker** (`Sampler`, `GossipableSubnet`, `SubnetTable`, `TrackerHistory`, `TrackerState`, `GossipReply`,
  `IpTracker`). Every call appends an event to a ghost history. The invariant says that all four linked structures
  are what a specification over that history demands. It fixes the records of tracked nodes, the connections, the
  gossipable IDs and lists of every subnet, all gauges and the bloom filter's additions. Each call keeps it.
* **Connection lifecycle** (`Dialer`, `ConnectionLinks`, `Network`, `PeerSampling`). `Network` has one method per
  section of code that runs without giving up its lock, so that every order of calls is an interleaving. Each peer has a
  ghost phase. It encodes that a peer's own calls come in the documented order
  (`avalanchego/network/network.go:455-456` and `521-525`). The only other assumption is that the primary network is not
  among this node's subnets, which is enforced at `avalanchego/network/network.go:208`. Each method takes one step of the
  system in `ConnectionLinks`, whose safety is proved over all runs. This establishes what the IP tracker assumes about
  `Connected`.
* **Genesis allocation** (`Genesis`, `GenesisState`). Money is modelled as a sequence of single units, each with the owner
  it goes to. Conservation is then equality of sequences. Sums are 64-bit with wrap-around, and the absence
  of wrap-around is proved.
* **Indexer and database** (`Packing`, `Index`, `Indexer`, `Database`). The index refines an append-only sequence over every series
  of calls, faults at any step, and restarts. The flag protocol is proved over every sequence of runs.
* **Quorum certificates and bit ranges** (`Membership`, `BitSet`, `Canoto`, `QuorumCert`, `Bits`). The parser accepts
  exactly what the printer writes, quorums intersect, and the masked comparisons refine a comparison bit by bit.

`dafny verify dfyconfig.toml` checks everything.

## Findings

* Both genesis validations can pass and building can still index out of range: several stakers, none of whose
  staked addresses has locked funds. `GenesisState.FromConfig` gives the exact condition and
  `GenesisState.AcceptedMayBeOutOfRange` an instance. With staked funds and no staker, these
  funds go to nobody (`GenesisState.UnclaimedStake`); validation refuses that (`avalanchego/genesis/genesis.go:177-179`), so
  only a direct call of `FromConfig` gets there.
* The comment at `avalanchego/network/ip_tracker.go:130-134` speaks of the IPs of connections; the code stores the latest
  known IP of the node, and so does the model.
* In `createSignersBitSet` a signer that is no member would count as the first member. No certificate that the code
  builds has such a signer: they come from the canonical list (`avalanchego/simplex/qc.go:147`) or after the check of
  membership (`avalanchego/simplex/qc.go:195`). `QuorumCerts.Reload` states the exact condition, and
  `QuorumCerts.AggregateAndReload` and `QuorumCerts.DeserializeAndReload` that it always holds.
* `Aggregate` does not check for repeated signers, so that its result passes `Verify` only if there are none;
  `QuorumCerts.AggregateMayRepeat` gives an instance.
* `GetContainerRange` returns zero values if startIndex plus numToFetch exceeds 2^64, which takes nearly as many accepted
  containers. Bit ranges that start below zero skip the first byte or index out of range; `Bits.EqualSubset` and
  `Bits.FirstDifferenceSubset` say when.

## Model

| member | source | states |
|---|---|---|
| `GossipableSubnets.GossipableSubnet.SetGossipableIP` | avalanchego/network/ip_tracker.go:139-148 | inserts or replaces the node's entry; index map and slice stay in bijection and the shared gauge moves by exactly the change in length |
| `GossipableSubnets.SwapRemoveOk` | avalanchego/network/ip_tracker.go:150-169 | moving the last element into the hole and fixing its index keeps the bijection, for every position including the last, and removes that node only |
| `GossipableSubnets.SwapRemove` | avalanchego/network/ip_tracker.go:157-168 | the removal on index map and slice, for the last position and every other, leaves a bijection onto the other entries |
| `GossipableSubnets.GossipableSubnet.RemoveGossipableIP` | avalanchego/network/ip_tracker.go:150-169 | removes the node's entry if there is one, nothing else, and lowers the gauge then |
| `GossipableSubnets.GossipableSubnet.AddID` | avalanchego/network/ip_tracker.go:467-482 | adds the node to the gossipable IDs, marks it manual if asked, and lists the given entry if there is one and the ID is new |
| `GossipableSubnets.GossipableSubnet.RemoveID` | avalanchego/network/ip_tracker.go:504-505 | drops the ID and its entry, and nothing else |
| `GossipableSubnets.GossipableSubnet.GetGossipableIPs` | avalanchego/network/ip_tracker.go:174-202 | without replacement, over any random order: appends only eligible entries with new node IDs, never exceeds the limit, and below the limit misses none |
| `SubnetTables.SubnetTable.SetGossipableIP` | avalanchego/network/ip_tracker.go:390-396 | in every listed subnet that gossips the node the entry becomes this IP; all other subnets and nodes are unchanged and both gauges stay exact |
| `SubnetTables.SubnetTable.RemoveGossipableIP` | avalanchego/network/ip_tracker.go:409-413 | the node leaves the lists of exactly the listed subnets; both gauges stay exact |
| `SubnetTables.SubnetTable.AddGossipableID` | avalanchego/network/ip_tracker.go:456-483 | creates the subnet if it is missing, then adds the ID; both gauges stay exact |
| `SubnetTables.SubnetTable.RemoveGossipableID` | avalanchego/network/ip_tracker.go:504-510 | removes the ID and deletes the subnet exactly when no gossipable ID is left; both gauges stay exact |
| `TrackerHistory.ManuallyTrackedMeaning` | avalanchego/network/ip_tracker.go:246-268 | a node is manually tracked iff it was so at some point of the history, directly or by manual gossip on the primary network or a tracked subnet: nothing undoes it |
| `TrackerHistory.ValidatedMeaning` | avalanchego/network/ip_tracker.go:416-528 | a subnet is in a node's validated subnets iff the node was manually gossiped on it or became its validator and was not removed since |
| `TrackerHistory.WantedMeaning` | avalanchego/network/ip_tracker.go:270-281 | for every history: a connection is wanted iff the node was tracked manually, or on the primary network, a tracked subnet, or any subnet if this node connects to all validators, it was manually gossiped or still validates |
| `TrackerHistory.TrackedMeaning` | avalanchego/network/ip_tracker.go:106-108 | a record is kept for a node iff it was tracked manually, or on some subnet it was manually gossiped or still validates |
| `TrackerHistory.ConnectionMeaning` | avalanchego/network/ip_tracker.go:350-414 | the connection of a node is the one of its last connection event, with its IP and subnets, unless that was a disconnection |
| `TrackerHistory.LatestStep` | avalanchego/network/ip_tracker.go:365-388 | a claim replaces the known IP iff it is strictly newer or the first |
| `TrackerHistory.LatestCoversConnection` | avalanchego/network/ip_tracker.go:350-388 | a tracked node with a live connection has a known IP, its own, at least as new as the connection's |
| `TrackerHistory.LatestNeverOlder` | avalanchego/network/ip_tracker.go:365-388 | over any stretch of history in which a node stays tracked, its known IP is not lost and its timestamp does not decrease |
| `TrackerHistory.LatestIsMaximal` | avalanchego/network/ip_tracker.go:365-388 | every claim heard while the node stays tracked is at most as new as the known IP |
| `TrackerHistory.LatestIsAttained` | avalanchego/network/ip_tracker.go:365-454 | the known IP was heard: it became known at a point since which the node has stayed tracked, by a claim or as the IP of the connection when tracking began |
| `TrackerState.InitiallyOk` | avalanchego/network/ip_tracker.go:43-84 | the empty maps are right for the empty history |
| `TrackerState.ManuallyTrackOk` | avalanchego/network/ip_tracker.go:246-251 | the state after a manual track is the one that the longer history demands: records, connections, subnets and lists |
| `TrackerState.ManuallyGossipOk` | avalanchego/network/ip_tracker.go:258-268 | the same for a manual gossip, on a local subnet or on another |
| `TrackerState.ValidatorAddedOk` | avalanchego/network/ip_tracker.go:416-422 | the same for a new validator, known or unknown, connected or not |
| `TrackerState.IgnoredRemovalOk` | avalanchego/network/ip_tracker.go:491-502 | a removal on an unknown subnet or of a manually gossiped node needs no change |
| `TrackerState.ValidatorRemovedOk` | avalanchego/network/ip_tracker.go:487-528 | the same for a removal: no deletable node and no empty subnet survives |
| `TrackerState.IPAddedOk` | avalanchego/network/ip_tracker.go:317-330 | the same for a claimed IP: every list that holds the node holds the new IP |
| `TrackerState.PeerConnectedOk` | avalanchego/network/ip_tracker.go:350-363 | the same for a connection of a node that is not connected |
| `TrackerState.PeerDisconnectedOk` | avalanchego/network/ip_tracker.go:399-414 | the same for a disconnection: the node leaves all lists |
| `TrackerState.NumListedUpdate` | avalanchego/network/ip_tracker.go:139-169 | changing one subnet changes the sum of list lengths by the change in that list |
| `IpTrackers.IpTracker.constructor` | avalanchego/network/ip_tracker.go:43-84 | starts valid with an empty history |
| `IpTrackers.IpTracker.ManuallyTrack` | avalanchego/network/ip_tracker.go:246-251 | keeps the invariant and appends its event to the history; a successful bloom reset keeps the filter current |
| `IpTrackers.IpTracker.ManuallyGossip` | avalanchego/network/ip_tracker.go:258-268 | keeps the invariant and appends its event to the history |
| `IpTrackers.IpTracker.OnValidatorAdded` | avalanchego/network/ip_tracker.go:416-422 | keeps the invariant and appends its event to the history |
| `IpTrackers.IpTracker.OnValidatorRemoved` | avalanchego/network/ip_tracker.go:487-528 | keeps the invariant and appends its event to the history, whichever of the three early returns is taken |
| `IpTrackers.IpTracker.AddIP` | avalanchego/network/ip_tracker.go:317-330 | keeps the invariant; true iff the node is wanted and its known IP changed |
| `IpTrackers.IpTracker.Connected` | avalanchego/network/ip_tracker.go:350-363 | keeps the invariant, given that the node is not connected |
| `IpTrackers.IpTracker.Disconnected` | avalanchego/network/ip_tracker.go:399-414 | keeps the invariant, whether or not the node was connected |
| `IpTrackers.IpTracker.OfferIP` | avalanchego/network/ip_tracker.go:365-388 | stores the IP iff the node is tracked and has none or an older one; the five results tell untracked, first, older, same and newer apart exactly |
| `IpTrackers.IpTracker.UpdateMostRecentTrackedIP` | avalanchego/network/ip_tracker.go:530-558 | one or two recorded additions per node; with fewer than two the filter holds the node's current IP as long as resets succeed |
| `IpTrackers.IpTracker.ResetBloomFilter` | avalanchego/network/ip_tracker.go:582-614 | a successful reset makes the filter current: every tracked node with an IP has exactly one addition, of that IP; a failed one changes nothing |
| `IpTrackers.IpTracker.ResetBloom` | avalanchego/network/ip_tracker.go:563-568 | keeps the invariant and the history |
| `IpTrackers.IpTracker.AddTrackableID` | avalanchego/network/ip_tracker.go:425-454 | gives the node the record it must have: its subnets, and the IP of its live connection when it was unknown; the gauge counts records |
| `IpTrackers.IpTracker.AddGossipableID` | avalanchego/network/ip_tracker.go:456-483 | lists the node's known IP in the subnet iff the node is connected and reported tracking it |
| `IpTrackers.IpTracker.RemoveTrackableID` | avalanchego/network/ip_tracker.go:512-527 | takes the subnet out of the record and deletes the record exactly when it is deletable |
| `IpTrackers.IpTracker.WantsConnection` | avalanchego/network/ip_tracker.go:275-281 | equals the specification over the history |
| `IpTrackers.IpTracker.ShouldVerifyIP` | avalanchego/network/ip_tracker.go:287-305 | true iff the claim would change the known IP of a node that is wanted, or of any tracked node if asked |
| `IpTrackers.IpTracker.GetIP` | avalanchego/network/ip_tracker.go:337-346 | the latest known IP according to the history, and whether the node is wanted and has one |
| `IpTrackers.IpTracker.GetGossipableIPs` | avalanchego/network/ip_tracker.go:616-656 | across subnets: at most the limit, distinct nodes, neither the requester nor filtered IPs, only nodes and IPs that an allowed requested subnet offers; below the limit none of these is missing |
| `GossipReply.CompleteByIP` | avalanchego/network/ip_tracker.go:616-656 | deduplicating by node ID loses nothing: a missing eligible node's very IP is in the reply, since all subnets hold the same IP |
| `GossipReply.ReplyMeaning` | avalanchego/network/ip_tracker.go:616-656 | over every history: a reply that is not full holds exactly the latest IPs of connected nodes that validate, or are manually gossiped on, a requested and allowed subnet which they track, except the requester and what it knows |
| `GossipReply.ListMeaning` | avalanchego/network/ip_tracker.go:139-148 | in a right state a subnet's list offers exactly the connected gossipable nodes that reported tracking it, each with its latest known IP |
| `Dialers.TrackedIP.TrackNewIP` | avalanchego/network/tracked_ip.go:30-37 | stops this object and returns a live new one with the new address and the same delay |
| `Dialers.TrackedIP.StopTracking` | avalanchego/network/tracked_ip.go:66-70 | stopping is idempotent |
| `Dialers.Dialer.Redirect` | avalanchego/network/network.go:739-747 | stops the old object, if any, and puts a new one with its delay in its place; no object is forgotten or revived, and the live ones are exactly the current entries |
| `Dialers.Dialer.Start` | avalanchego/network/network.go:690-695 | adds a new live object for a node that has none; no object is forgotten or revived |
| `Dialers.Dialer.Retry` | avalanchego/network/network.go:849-852 | stops the object and replaces it by a new one with the same address and delay; without an object nothing changes |
| `Dialers.Dialer.Stop` | avalanchego/network/network.go:469-472 | the object of the node, if any, is stopped and its entry is gone; no other object changes |
| `Dialers.Dialer.StopAll` | avalanchego/network/network.go:1156-1159 | every object that was ever created is stopped |
| `Networks.Network.constructor` | avalanchego/network/network.go:176 | no peers, no targets, all parties agree |
| `Networks.Network.Upgrade` | avalanchego/network/network.go:1053-1127 | a peer starts iff it is not this node, is allowed, the network is open and no peer of that node exists; this is one step of the run |
| `Networks.Network.ConnectedLocked` | avalanchego/network/network.go:457-475 | the peer is found among the connecting ones, moves over, and its dial target is gone |
| `Networks.Network.ConnectedTracker` | avalanchego/network/network.go:477-485 | the tracker does not hold the node as connected, as its contract demands, and afterwards holds it with the IP and the subnets of this peer |
| `Networks.Network.ConnectedRouterPrimary` | avalanchego/network/network.go:489-490 | the router has not heard of the node, or has heard that it left |
| `Networks.Network.ConnectedRouterSubnet` | avalanchego/network/network.go:491-495 | each shared subnet is announced once |
| `Networks.Network.DisconnectedRead` | avalanchego/network/network.go:526-538 | the two lookups find this very peer, in exactly one of the sets |
| `Networks.Network.DisconnectedFromConnecting` | avalanchego/network/network.go:840-860 | the object is stopped; a new one with the same address takes its place iff the node is wanted |
| `Networks.Network.DisconnectedTracker` | avalanchego/network/network.go:862-863 | the tracker hears that the node left, between two lock sections |
| `Networks.Network.DisconnectedRouter` | avalanchego/network/network.go:864 | the router hears that the node left, exactly once |
| `Networks.Network.DisconnectedFromConnected` | avalanchego/network/network.go:866-879 | there is no target to overwrite; one for the latest known IP is added iff the node is wanted and has one |
| `Networks.Network.Track` | avalanchego/network/network.go:726-749 | the target changes iff the claim changed the known IP of a wanted node that is not connected |
| `Networks.Network.ManuallyTrackTracker` | avalanchego/network/network.go:676-677 | the tracker part, outside the lock |
| `Networks.Network.ManuallyTrackLocked` | avalanchego/network/network.go:679-696 | adds a target iff the node is neither connected nor being dialled |
| `Networks.Network.DialTick` | avalanchego/network/network.go:922-955 | an unwanted node loses its target; dialling goes on iff the node is wanted and neither connecting nor connected |
| `Networks.Network.StartClose` | avalanchego/network/network.go:1140-1171 | works once: every object ever dialled is stopped, no target is left, and all connecting and connected peers are told to close |
| `ConnectionLinks.StepOk` | avalanchego/network/network.go:455-879 | every action that the code may take, from any state in which all parties agree, leads to such a state |
| `ConnectionLinks.EveryRunAgrees` | avalanchego/network/network.go:455-879 | by induction, all parties agree in every state of every interleaving |
| `ConnectionLinks.EveryRunIsSafe` | avalanchego/network/network.go:455-538 | in every state of every interleaving: connecting, connected and dialled nodes are disjoint as demanded, the router hears per node only (primary, distinct subnets, left) repeated, and the tracker is never told twice |
| `ConnectionLinks.EveryRunInforms` | avalanchego/network/network.go:477-496 | in every state of every interleaving the tracker holds exactly the peers that told it, with their IPs and subnets, and the router knows every announced peer on the primary network and all shared subnets |
| `ConnectionLinks.OrderlyMeaning` | avalanchego/network/network.go:489-495 | at every point of the router's trace: the primary network is announced for a node that stands on nothing, another subnet once and only after it, and a node leaves only after it |
| `ConnectionLinks.ViewMeaning` | avalanchego/network/network.go:489-495 | the router sees a node on a subnet iff it was told so and not since that the node left |
| `ConnectionLinks.ClosedForGood` | avalanchego/network/network.go:1068-1075 | in every run, once the network is closing no peer starts any more |
| `ConnectionLinks.LeaveOk` | avalanchego/network/network.go:521-538 | although looked up by node ID after the lock was free, a leaving peer finds itself and not a successor |
| `Sampler.UniformReplacer.Next` | avalanchego/utils/sampler/uniform_replacer.go:58-69 | each value at most once, for every random source; none left exactly when all were returned |
| `Sampler.DrawOk` | avalanchego/utils/sampler/uniform_replacer.go:63-66 | one step of the lazy shuffle leaves the other values, each in one cell |
| `PeerSampling.Precondition.Accepts` | avalanchego/network/network.go:803-836 | takes an eligible, unnamed peer iff the quota for arbitrary peers or the one for its kind allows, and charges the former first |
| `PeerSampling.SamplePeers` | avalanchego/network/network.go:790-838 | for every visiting order and all counts, also negative ones: distinct eligible unnamed peers, within each quota, and an eligible peer is passed over only when the quotas that could pay for it are used up, or negative counts made the sample smaller |
| `PeerSampling.SampleMeaning` | avalanchego/network/network.go:790-838 | the same in terms of the configuration: which peers may be sampled, how many of each kind with negative counts as none and no more validators than there are, and when one may be passed over |
| `PeerSampling.SamplingStep` | avalanchego/network/peer/set.go:117-139 | looking at one more position keeps the sampling invariant, whether the peer is taken or not |
| `PeerSampling.GetPeers` | avalanchego/network/network.go:759-785 | exactly the named nodes that are connected and allowed, each once |
| `PeerSampling.NamedAndSampledDisjoint` | avalanchego/network/network.go:337-339 | the two lists of a send together name no node twice |
| `PeerSampling.Send` | avalanchego/network/network.go:321-357 | although peers and validators may change between the two lists: no node is tried twice, of the named nodes exactly the connected and allowed ones are tried, the rest is a sample as above, and exactly the nodes reached are returned |
| `Genesis.SumLocked` | avalanchego/genesis/genesis.go:471-476 | the sum of all locked amounts modulo 2^64 |
| `Genesis.SplitUnlock` | avalanchego/genesis/genesis.go:491-521 | hands out one locked amount unit by unit in order, never overfilling a group but the last, zero-amount pieces included; nothing wraps when the total fits |
| `Genesis.SplitAllocation` | avalanchego/genesis/genesis.go:483-527 | the same for one allocation |
| `Genesis.SplitAllocations` | avalanchego/genesis/genesis.go:466-530 | for every total below 2^64: exactly numSplits groups if the total is positive and one otherwise, all but the last giving out floor(T/n); the owners (both addresses and locktime) of the units, in order, are those of the input |
| `Genesis.SharesExact` | avalanchego/genesis/genesis.go:478-529 | all groups but the last give out floor(T/n), the last gives out T-(n-1)*floor(T/n) |
| `Genesis.AmountsConserved` | avalanchego/genesis/genesis.go:490-527 | for every pair of addresses and locktime, the amounts in all groups add up to those of the input |
| `Genesis.TooFewGroups` | avalanchego/genesis/genesis.go:478-529 | fewer than n groups can only come from a zero total |
| `GenesisState.InitialSupply` | avalanchego/genesis/config.go:146-167 | the exact sum of initial and locked amounts, or failure exactly when it does not fit 64 bits |
| `GenesisState.BuildHolders` | avalanchego/genesis/genesis.go:305-324 | one holder per allocation with a positive initial amount, in ascending order of amount and address, and their total is the sum of all initial amounts |
| `GenesisState.HoldersCount` | avalanchego/genesis/genesis.go:305-322 | for every amount and address, as many holders as allocations with that positive initial amount and that address |
| `GenesisState.StakedOnlyMeaning` | avalanchego/genesis/genesis.go:352-361 | staked and other allocations are told apart by address and make up all of them |
| `GenesisState.BuildPlatform` | avalanchego/genesis/genesis.go:352-376 | partitions the allocations: staked ones are kept for the stakers, the units of the others become outputs in order, owner and locktime kept |
| `GenesisState.BuildValidators` | avalanchego/genesis/genesis.go:379-423 | each staker gets its group, and indexing fails exactly when there are fewer groups than stakers |
| `GenesisState.FromConfig` | avalanchego/genesis/genesis.go:294-464 | fails exactly when a supply that is not fixed overflows or several stakers share nothing; else the sorted holders, the outputs and the appointed validators hold the allocated units, with equal shares but for the last, and add up to all allocated funds iff there is a staker or nothing is staked |
| `GenesisState.BuildStakers` | avalanchego/genesis/genesis.go:379-423 | every staker is appointed with its share of the staked units, unless several share nothing |
| `GenesisState.Conservation` | avalanchego/genesis/genesis.go:304-423 | holders, outputs and stakes add up to all allocated funds iff there is a staker or nothing is staked |
| `GenesisState.AccountsConserved` | avalanchego/genesis/genesis.go:352-423 | for every pair of addresses and locktime: what is locked is paid out if the address is not staked, and else staked by the validators together, in full |
| `GenesisState.ValidateInitialStakedFunds` | avalanchego/genesis/genesis.go:54-111 | accepts exactly non-empty, duplicate-free staked addresses that all have an allocation |
| `GenesisState.ValidateAllocationsLockedAmount` | avalanchego/genesis/genesis.go:115-132 | accepts exactly when the locked sum modulo 2^64 is at least the number of stakers |
| `GenesisState.ValidateConfig` | avalanchego/genesis/genesis.go:136-203 | accepts iff there is a supply that fits, a staker, valid staked funds and enough locked amounts |
| `GenesisState.AcceptedMayBeOutOfRange` | avalanchego/genesis/genesis.go:115-132 | a concrete configuration that passes both validations and still makes building fail |
| `GenesisState.UnclaimedStake` | avalanchego/genesis/genesis.go:177-179 | a concrete configuration without stakers whose staked funds go to nobody, and which validation refuses |
| `Packing.ParsePack` | avalanchego/database/helpers.go:57-68 | parsing undoes packing, at any width |
| `Packing.PackParse` | avalanchego/database/helpers.go:57-68 | packing undoes parsing, for every byte string |
| `Packing.ParseDigit` | avalanchego/database/helpers.go:57-68 | the bytes are in big-endian order |
| `Packing.PackUInt64RoundTrip` | avalanchego/database/helpers.go:57-68 | the eight-byte forms undo each other; other lengths are refused |
| `Indices.AppendedHolds` | avalanchego/indexer/index.go:134-157 | the three writes for a new container keep both maps, which hold nothing else, and the counter in agreement with the longer sequence |
| `Indices.Index.constructor` | avalanchego/indexer/index.go:62-96 | reopening reads back the number of accepted containers; a missing counter means none |
| `Indices.Index.Accept` | avalanchego/indexer/index.go:111-161 | for a failure or crash at every point: the stored state agrees with the sequence, which is extended by exactly the given container iff its ID is unknown and the commit takes effect; at the 2^64th container the counter wraps to zero |
| `Indices.Index.GetContainerByIndex` | avalanchego/indexer/index.go:167-182 | the element at that index, or the error exactly when there is none |
| `Indices.Index.GetContainerRange` | avalanchego/indexer/index.go:205-237 | the slice of at most numToFetch elements, and each of the three errors exactly when its condition holds; zero values instead iff startIndex plus numToFetch exceeds 2^64 |
| `Indices.Index.GetIndex` | avalanchego/indexer/index.go:240-245 | the index of the container in the sequence; not found exactly when it was not accepted |
| `Indices.Index.GetContainerByID` | avalanchego/indexer/index.go:247-257 | the accepted container with that ID; not found exactly when there is none |
| `Indices.Index.GetLastAccepted` | avalanchego/indexer/index.go:261-270 | the last element, or the error for the empty sequence |
| `Indices.OutcomeAppendOnly` | avalanchego/indexer/index.go:38-43 | over every series of calls, faults and restarts nothing accepted is lost, changed or moved, and nothing is accepted twice |
| `Indices.OutcomeKeeps` | avalanchego/indexer/index.go:108-120 | a container ID whose Accept call succeeded stays known through everything that follows |
| `Indices.OutcomeStores` | avalanchego/indexer/index.go:134-157 | a container that was new when its call took effect is found whole at the index that was next, through everything that follows |
| `Indices.OutcomeSkips` | avalanchego/indexer/index.go:115-125 | calls that fail before their commit, and calls for known containers, leave the sequence as it was |
| `Indices.RunScript` | avalanchego/indexer/index.go:62-161 | for every series of calls, faults and restarts the code's database agrees with the append-only sequence |
| `Indexers.Indexer.constructor` | avalanchego/indexer/indexer.go:69-91 | reads the has-run flag before setting it |
| `Indexers.Indexer.RegisterChain` | avalanchego/indexer/indexer.go:132-307 | outcome, memory and flags are those of the decision function, for reads, writes and creations that fail at any point |
| `Indexers.RunOnce` | avalanchego/indexer/indexer.go:132-307 | the log and the flags left behind are those that the decisions of the run give, one after the other |
| `Indexers.RunAll` | avalanchego/indexer/indexer.go:158-244 | for every sequence of runs: the log is the sequence of all decisions, and no run that disallows incomplete indices indexes a chain that an earlier decision let through, nor the reverse |
| `Indexers.HistoryComplete` | avalanchego/indexer/indexer.go:158-244 | the same of the decisions alone; moreover the two flags of a chain are set exactly if it was ever let through, or ever indexed or abandoned after the mark, and either implies the has-run flag |
| `Indexers.DecisionMeaning` | avalanchego/indexer/indexer.go:132-307 | every decision in terms of the earlier ones, of all runs: with incomplete indices disallowed the node is shut down iff it indexes now and the chain was ever let through, or does not and the chain was ever marked as indexed; otherwise the chain is indexed or let through as set |
| `Indexers.AllowedNeverDies` | avalanchego/indexer/indexer.go:189-231 | with incomplete indices allowed and no failure the node is never shut down |
| `Indexers.HasRunMeaning` | avalanchego/indexer/indexer.go:85-91 | the has-run flag is set iff some run has started |
| `Indexers.RunLogEntry` | avalanchego/indexer/indexer.go:132-307 | the k-th entry of a log is the decision on the k-th registration after the ones before it |
| `Databases.BatchOps.Put` | avalanchego/database/batch.go:55-62 | queues the write; the size is the sum of key and value lengths |
| `Databases.BatchOps.Delete` | avalanchego/database/batch.go:64-71 | queues the deletion; the size is the sum of key and value lengths |
| `Databases.BatchOps.Reset` | avalanchego/database/batch.go:77-81 | empties the batch |
| `Databases.BatchOps.Replay` | avalanchego/database/batch.go:83-94 | applies the operations in order, up to the first that fails |
| `Databases.ApplyMeaning` | avalanchego/database/batch.go:83-94 | after a batch the last operation on a key has decided, and a key without one is as before |
| `Databases.BatchOps.Write` | avalanchego/database/batch.go:21-22 | applies all operations in order, or none if it fails |
| `Databases.ClearPrefix` | avalanchego/database/helpers.go:203-241 | for every write size, also zero or negative, and iterators and writes that fail at any point: terminates; on success exactly the entries whose keys have the prefix are gone, otherwise only such entries; without faults it succeeds, with at most one write more than there are such entries |
| `Databases.WriteShrinks` | avalanchego/database/helpers.go:224-234 | a written batch leaves fewer matching keys, the first part of the termination measure |
| `Bits.EqualSubset` | avalanchego/ids/bits.go:21-62 | true iff the range is empty or lies within the IDs and the IDs agree on each of its bits; for a negative start the first byte is not compared or an index is out of range, exactly as stated |
| `Bits.FirstDifferenceSubset` | avalanchego/ids/bits.go:67-128 | finds the least differing bit of the range; finds none exactly when the range is empty, leaves the IDs, or has no differing bit; negative starts as above |
| `Bits.FirstDifferenceAcross` | avalanchego/ids/bits.go:98-127 | the same for a range over several bytes |
| `Bits.ByteComparison` | avalanchego/ids/id.go:140-158 | masked bytes are equal iff the IDs agree on the bits that the mask keeps |
| `Bits.ByteBitMeaning` | avalanchego/ids/id.go:150-157 | bit j of a byte is its low bit after a shift by j |
| `Bits.ByteDifference` | avalanchego/ids/id.go:140-158 | the trailing zeros of the xor of masked bytes give the first differing bit |
| `Bits.SliceComparison` | avalanchego/ids/bits.go:33-36 | byte slices are equal iff all their bits are |
| `Membership.CreateVerifier` | avalanchego/simplex/bls.go:116-137 | the canonical order is an ascending permutation; order and indices are inverse to each other and list each member once, iff no node ID is listed twice |
| `Membership.SortKeeps` | avalanchego/simplex/bls.go:129-130 | sorting permutes, and keeps distinct IDs distinct and repeated IDs repeated |
| `Canoto.VarintReadsBack` | avalanchego/simplex/qc.canoto.go:104-106 | a written length is read back, whatever follows |
| `Canoto.VarintWritesBack` | avalanchego/simplex/qc.canoto.go:104-106 | no number has two accepted encodings |
| `Canoto.VarintMeaning` | avalanchego/simplex/qc.canoto.go:209-218 | a length is written in groups of seven bits, lowest first, all bytes but the last marked, without superfluous groups |
| `Canoto.VarintComplete` | avalanchego/simplex/qc.canoto.go:209-218 | no group of the number is left out |
| `Canoto.CalculateCanotoCache` | avalanchego/simplex/qc.canoto.go:156-168 | the cached size equals the length of the encoding |
| `Canoto.MarshalCanotoInto` | avalanchego/simplex/qc.canoto.go:207-220 | appends the encoding, with fields at default value left out |
| `Canoto.MarshalCanoto` | avalanchego/simplex/qc.canoto.go:189-220 | the bytes are 0x0a, 96 and the signature unless it is zero, then 0x12, the length and the signers unless there are none; the cached size is their number |
| `Canoto.ReadFieldSound` | avalanchego/simplex/qc.canoto.go:83-134 | what one turn of the reader accepts is a known, ordered, non-default field followed by the rest |
| `Canoto.ReadFieldComplete` | avalanchego/simplex/qc.canoto.go:83-134 | every such field is accepted and read back exactly |
| `Canoto.UnmarshalCanoto` | avalanchego/simplex/qc.canoto.go:77-136 | accepts exactly the strings that are an encoding, and returns what they encode |
| `Canoto.EncodeInjective` | avalanchego/simplex/qc.canoto.go:207-220 | different contents have different encodings |
| `BitSets.AddContains` | avalanchego/utils/set/bits.go:33-36 | adding sets one bit and no other |
| `BitSets.ContainsMeaning` | avalanchego/utils/set/bits.go:65-68 | bit i of the number counts multiples of 2 to the i-th power |
| `BitSets.BitLenBounds` | avalanchego/utils/set/bits.go:70-73 | the bit length is the least bound on the members |
| `BitSets.BytesParse` | avalanchego/utils/set/bits.go:87-97 | writing what was read gives the same bytes iff there is no leading zero byte |
| `BitSets.ParseBytes` | avalanchego/utils/set/bits.go:87-97 | reading undoes writing |
| `QuorumCerts.CreateSignersBitSet` | avalanchego/simplex/qc.go:115-124 | the bytes of the set of the signers' canonical indices |
| `QuorumCerts.SignerBitsMeaning` | avalanchego/simplex/qc.go:115-124 | a bit is set iff it is some signer's index, where a signer that is no member counts as index 0 |
| `QuorumCerts.SignerBitsOfMembers` | avalanchego/simplex/qc.go:115-124 | for member signers: bit i is set iff the i-th member in canonical order signed |
| `QuorumCerts.FilterNodes` | avalanchego/simplex/qc.go:219-242 | fails exactly when a bit is beyond the nodes; otherwise the nodes whose bit is set, in order |
| `QuorumCerts.SelectedMember` | avalanchego/simplex/qc.go:115-124 | a member comes back iff it signed, or is first in canonical order and stands in for a signer that is no member |
| `QuorumCerts.BitsOfSelected` | avalanchego/simplex/qc.go:202-242 | reading a bit set as signers and marking them again gives the set back |
| `QuorumCerts.SelectedOfBits` | avalanchego/simplex/qc.go:202-242 | marking canonical signers and reading them again gives them back |
| `QuorumCerts.SignersFromBytes` | avalanchego/simplex/qc.go:202-213 | accepts exactly the byte strings of canonical signers, and returns those signers |
| `QuorumCerts.ToBytes` | avalanchego/simplex/qc.go:103-113 | the serialization, and its length is the cached size |
| `QuorumCerts.Deserialize` | avalanchego/simplex/qc.go:131-152 | re-serializing what is accepted gives the same string; refuses nothing that serializes canonical signers and a valid signature |
| `QuorumCerts.SerializedDetermines` | avalanchego/simplex/qc.go:103-124 | equal serializations have equal signatures and mark the same members |
| `QuorumCerts.Reload` | avalanchego/simplex/qc.go:103-152 | serializing and deserializing keeps the signature and yields canonical order, and the signer set is the same iff all signers are members |
| `QuorumCerts.Verify` | avalanchego/simplex/qc.go:60-100 | passes iff the signers are a quorum of distinct members and the signature checks out on their keys in order; each error names the first cause |
| `QuorumCerts.QuorumIntersection` | avalanchego/simplex/qc.go:60-82 | two certificates whose signers pass Verify with quorum q of n share at least 2q-n signers |
| `QuorumCerts.Aggregate` | avalanchego/simplex/qc.go:162-200 | uses the first q votes; each error names the first defect; the signers are members, and meet what Verify demands iff those q votes have distinct signers |
| `QuorumCerts.AggregateMayRepeat` | avalanchego/simplex/qc.go:171-188 | an instance: one member votes twice, both votes are usable, and Verify rejects the signers as duplicate |
| `QuorumCerts.AggregateAndReload` | avalanchego/simplex/qc.go:103-200 | every aggregated certificate survives serialization with its signature and signer set, and is a quorum afterwards iff its signers were distinct |
| `QuorumCerts.DeserializeAndReload` | avalanchego/simplex/qc.go:103-152 | every deserialized certificate has member signers and reloads to itself |
| `QuorumCerts.ReloadedQuorate` | avalanchego/simplex/qc.go:60-82 | after reloading, a certificate is a quorum iff it has that many different signers; a quorum stays one |

## Left out

- Sockets, TLS, timers, delays and their randomisation, metrics other than the three gauges, logging.
- The bloom filter's hashing and sizing: the filter is the set of claims that were added, and whether a reset succeeds is a parameter.
- `trackedNode` and `connectedNode` are values in the tracker's maps, not objects; the code never shares them between entries.
- The `subnet` map with its two gauges is an object of its own (`SubnetTable`), and so is `trackedIPs` (`Dialer`); both are fields in the code.
- The results of `AllowConnection`, of signature checks on claimed IPs and of the dial itself are parameters or not modelled.
- The subnet filter of a gossip request and the requester's bloom filter are arbitrary predicates.
- Addresses are numbers; bech32 forms, memos, times, delegation fees, signers and the C-chain genesis are not modelled.
- `validateConfig`'s checks on times, durations and the C-chain genesis, which do not concern amounts.
- GenesisState.FromConfig: on networks with fixed supply, says of the stakes only what holds while the staked total fits 64 bits, because nothing checks that there.
- The codec of containers is an injective encoding, and the version database is a map whose writes are committed together.
- Indexers.Indexer.RegisterChain: folds the creation of all indices of a chain, and an unexpected kind of VM, into one step that may fail.
- The order in which a database iterator yields keys is arbitrary; `AtomicClearPrefix`, `Count` and `Size` would only add easy members.
- BLS arithmetic: a signature is its compressed form, and which strings are signatures, how they aggregate, and whether one is valid for keys and a message are parameters. So is the quorum size.
- QuorumCerts.AggregateAndReload: assumes that aggregating valid signatures yields a valid signature, because the arithmetic behind it is not modelled.
- The varint reader and writer are in a library outside the repository. The model reads only minimal varints, following section "Base 128 Varints" of the Protocol Buffers Encoding specification, and refuses every wire type but 2.
- The kinds of parse errors of a certificate are one kind in the model, as its caller wraps them all alike.
- `block.canoto.go` and `storage.canoto.go` have the same shape as `qc.canoto.go`.
