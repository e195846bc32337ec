/** The members that may sign quorum certificates, in canonical order. */
module Membership {
  import opened Collections
  import opened Numbers
  import opened Ids
  import opened Packing

  const NodeIDLen: nat := 20

  /** A node ID read as a big-endian number, which orders node IDs as comparing their bytes does. */
  type NodeKey = nat

  type PublicKey(==, !new)

  datatype ValidatorInfo = ValidatorInfo(nodeID: NodeKey, publicKey: PublicKey)

  datatype Verifier = Verifier(
    nodeID2PK: map<NodeKey, PublicKey>,
    canonicalNodeIDs: seq<NodeKey>,
    canonicalNodeIDIndices: map<NodeKey, nat>)

  function ToNodeID(bytes: seq<Byte>): Option<NodeKey> {
    if |bytes| == NodeIDLen then Some(Parse(bytes)) else None
  }

  // ---------------------------------------------------------------- sequences of node IDs

  predicate Less(x: NodeKey, y: NodeKey) {
    x < y
  }

  ghost predicate StrictlyAscending(s: seq<NodeKey>) {
    forall i, j :: 0 <= i < j < |s| ==> s[i] < s[j]
  }

  ghost predicate SameMembers(s: seq<NodeKey>, t: seq<NodeKey>) {
    forall x :: x in s <==> x in t
  }

  lemma HasMember(s: seq<NodeKey>)
    requires s != []
    ensures exists x :: x in s
  {
    assert s[0] in s;
  }

  /** Two strictly ascending sequences with the same members are the same. */
  lemma {:induction false} AscendingUnique(s: seq<NodeKey>, t: seq<NodeKey>)
    requires StrictlyAscending(s) && StrictlyAscending(t) && SameMembers(s, t)
    ensures s == t
  {
    if s == [] {
      if t != [] {
        HasMember(t);
      }
    } else {
      assert s[0] in t && t != [];
      assert t[0] in s;
      assert s == [s[0]] + s[1..] && t == [t[0]] + t[1..];
      assert s[0] == t[0];
      forall x ensures x in s[1..] <==> x in t[1..] {
        assert x in s[1..] <==> x in s && x != s[0];
        assert x in t[1..] <==> x in t && x != t[0];
      }
      AscendingUnique(s[1..], t[1..]);
    }
  }

  // ---------------------------------------------------------------- the verifier

  /** The canonical order lists every member once, and the indices are its inverse. */
  ghost predicate WellFormed(v: Verifier) {
    && StrictlyAscending(v.canonicalNodeIDs)
    && (forall x :: x in v.nodeID2PK <==> x in v.canonicalNodeIDs)
    && (forall x :: x in v.canonicalNodeIDIndices <==> x in v.canonicalNodeIDs)
    && (forall i :: 0 <= i < |v.canonicalNodeIDs| ==> v.canonicalNodeIDIndices[v.canonicalNodeIDs[i]] == i)
  }

  ghost function NodeIDs(validators: seq<ValidatorInfo>): (s: seq<NodeKey>)
    ensures |s| == |validators|
  {
    seq(|validators|, i requires 0 <= i < |validators| => validators[i].nodeID)
  }

  /** Each node ID is mapped to the last place at which it stands. */
  method IndexMembers(canonical: seq<NodeKey>) returns (indices: map<NodeKey, nat>)
    ensures Indexes(indices, canonical)
  {
    indices := map[];
    for i := 0 to |canonical|
      invariant forall x :: x in indices <==> x in canonical[..i]
      invariant forall x :: x in indices ==> indices[x] < i && canonical[indices[x]] == x && x !in canonical[indices[x] + 1..i]
    {
      indices := indices[canonical[i] := i];
    }
  }

  /** Each node ID has the public key that is listed for it last. */
  ghost predicate KeysOf(validators: seq<ValidatorInfo>, keys: map<NodeKey, PublicKey>) {
    forall i :: 0 <= i < |validators| && validators[i].nodeID !in NodeIDs(validators)[i + 1..] ==>
      validators[i].nodeID in keys && keys[validators[i].nodeID] == validators[i].publicKey
  }

  /** Collects the public keys; a node ID listed twice keeps its last one. */
  method CollectKeys(validators: seq<ValidatorInfo>) returns (keys: map<NodeKey, PublicKey>, nodeIDs: seq<NodeKey>)
    ensures nodeIDs == NodeIDs(validators) && forall x :: x in keys <==> x in nodeIDs
    ensures KeysOf(validators, keys)
  {
    keys, nodeIDs := map[], [];
    for i := 0 to |validators|
      invariant |nodeIDs| == i && forall k :: 0 <= k < i ==> nodeIDs[k] == validators[k].nodeID
      invariant forall x :: x in keys <==> x in nodeIDs
      invariant forall k :: 0 <= k < i && nodeIDs[k] !in nodeIDs[k + 1..] ==> keys[nodeIDs[k]] == validators[k].publicKey
    {
      keys := keys[validators[i].nodeID := validators[i].publicKey];
      ghost var before := nodeIDs;
      nodeIDs := nodeIDs + [validators[i].nodeID];
      forall k | 0 <= k < i && nodeIDs[k] !in nodeIDs[k + 1..] ensures keys[nodeIDs[k]] == validators[k].publicKey {
        assert nodeIDs[k + 1..] == before[k + 1..] + [validators[i].nodeID];
        assert nodeIDs[k] == before[k] && nodeIDs[k] != validators[i].nodeID;
      }
    }
  }

  lemma AscendingStrictly(s: seq<NodeKey>)
    requires Ascending(s, Less)
    ensures StrictlyAscending(s) <==> Distinct(s)
  {
  }

  /** Sorting keeps node IDs distinct, and keeps repeated ones repeated. */
  lemma SortKeeps(s: seq<NodeKey>)
    ensures var t := Sort(s, Less);
            && Ascending(t, Less) && multiset(t) == multiset(s) && SameMembers(t, s)
            && (Distinct(t) <==> Distinct(s))
  {
    SortPermutes(s, Less);
    SortSorts(s, Less);
    PermutationDistinct(Sort(s, Less), s);
    forall x ensures x in Sort(s, Less) <==> x in s {
      assert x in Elements(s) <==> x in s;
    }
  }

  /** Indices that name each node ID's last place invert a strictly ascending order, and no other. */
  ghost predicate Indexes(indices: map<NodeKey, nat>, canonical: seq<NodeKey>) {
    && (forall x :: x in indices <==> x in canonical)
    && forall x :: x in indices ==>
         indices[x] < |canonical| && canonical[indices[x]] == x && x !in canonical[indices[x] + 1..]
  }

  lemma WellFormedIff(v: Verifier)
    requires Ascending(v.canonicalNodeIDs, Less) && Indexes(v.canonicalNodeIDIndices, v.canonicalNodeIDs)
    requires forall x :: x in v.nodeID2PK <==> x in v.canonicalNodeIDs
    ensures WellFormed(v) <==> Distinct(v.canonicalNodeIDs)
  {
    AscendingStrictly(v.canonicalNodeIDs);
  }

  /** The verifier is well formed exactly when no node ID is listed twice. */
  method CreateVerifier(validators: seq<ValidatorInfo>) returns (v: Verifier)
    ensures Ascending(v.canonicalNodeIDs, Less) && multiset(v.canonicalNodeIDs) == multiset(NodeIDs(validators))
    ensures WellFormed(v) <==> Distinct(NodeIDs(validators))
    ensures forall x :: x in v.nodeID2PK <==> x in NodeIDs(validators)
    ensures KeysOf(validators, v.nodeID2PK)
  {
    var keys, nodeIDs := CollectKeys(validators);
    var canonical := Sort(nodeIDs, Less);
    SortKeeps(nodeIDs);
    var indices := IndexMembers(canonical);
    v := Verifier(keys, canonical, indices);
    WellFormedIff(v);
  }
}
