/** Identifiers and the self-signed IP claims that peers gossip. */
module Ids {
  datatype Option<+T> = None | Some(value: T)

  /** Node IDs are only ever compared. */
  type NodeID(==, !new)

  /** Subnet IDs are only ever compared; one of them, the all-zero ID, is the primary network. */
  datatype SubnetID = PrimaryNetworkID | OtherSubnetID(id: nat)

  /** A claim that `node` owned `addr` at `timestamp`. */
  datatype ClaimedIP = ClaimedIP(node: NodeID, addr: nat, timestamp: nat)

  /** The preimage of the hash that identifies a claim in a bloom filter: the address is not part of it. */
  datatype GossipID = GossipID(node: NodeID, timestamp: nat)

  function GossipIDOf(ip: ClaimedIP): GossipID {
    GossipID(ip.node, ip.timestamp)
  }
}
