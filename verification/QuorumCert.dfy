/** Quorum certificates: serialization, verification and aggregation. */
module QuorumCerts {
  import opened Collections
  import opened Numbers
  import opened Ids
  import opened Packing
  import opened BitSets
  import opened Canoto
  import opened Membership

  /** A signature is identified with its compressed bytes. */
  datatype QC = QC(sig: SigBytes, signers: seq<NodeKey>)

  /** The members of a sequence are all members of the network. */
  ghost predicate AllMembers(v: Verifier, signers: seq<NodeKey>) {
    forall x :: x in signers ==> x in v.nodeID2PK
  }

  /** What deserialization yields: members, each once, in canonical order. */
  ghost predicate Canonical(v: Verifier, signers: seq<NodeKey>) {
    StrictlyAscending(signers) && AllMembers(v, signers)
  }

  // ---------------------------------------------------------------- signers as a bit set

  /** A signer that is not a member is looked up as index 0. */
  function IndexOf(v: Verifier, signer: NodeKey): nat {
    if signer in v.canonicalNodeIDIndices then v.canonicalNodeIDIndices[signer] else 0
  }

  /** The bit set whose bits are the signers' canonical indices. */
  function SignerBits(v: Verifier, signers: seq<NodeKey>): BitSet {
    if signers == [] then 0
    else Add(SignerBits(v, signers[..|signers| - 1]), IndexOf(v, signers[|signers| - 1]))
  }

  ghost predicate Marked(v: Verifier, signers: seq<NodeKey>, i: nat) {
    exists x :: x in signers && IndexOf(v, x) == i
  }

  lemma {:induction false} SignerBitsMeaning(v: Verifier, signers: seq<NodeKey>, i: nat)
    ensures Contains(SignerBits(v, signers), i) <==> Marked(v, signers, i)
  {
    if signers == [] {
      NothingInZero(i);
    } else {
      var front, last := signers[..|signers| - 1], signers[|signers| - 1];
      assert signers == front + [last];
      SignerBitsMeaning(v, front, i);
      AddContains(SignerBits(v, front), IndexOf(v, last), i);
      if Marked(v, front, i) {
        var x :| x in front && IndexOf(v, x) == i;
        assert x in signers;
      }
    }
  }

  /** For member signers: bit i says whether the i-th member in canonical order signed. */
  lemma SignerBitsOfMembers(v: Verifier, signers: seq<NodeKey>, i: nat)
    requires WellFormed(v) && AllMembers(v, signers)
    ensures Contains(SignerBits(v, signers), i) <==> i < |v.canonicalNodeIDs| && v.canonicalNodeIDs[i] in signers
  {
    SignerBitsMeaning(v, signers, i);
    if i < |v.canonicalNodeIDs| && v.canonicalNodeIDs[i] in signers {
      assert IndexOf(v, v.canonicalNodeIDs[i]) == i;
    }
  }

  method CreateSignersBitSet(v: Verifier, signers: seq<NodeKey>) returns (bytes: seq<Byte>)
    ensures bytes == Bytes(SignerBits(v, signers))
  {
    var bits: BitSet := 0;
    for i := 0 to |signers|
      invariant bits == SignerBits(v, signers[..i])
    {
      assert signers[..i + 1][..i] == signers[..i];
      bits := Add(bits, IndexOf(v, signers[i]));
    }
    assert signers[..|signers|] == signers;
    bytes := Bytes(bits);
  }

  /** The nodes whose bit is set, in order. */
  function Selected(bits: BitSet, nodeIDs: seq<NodeKey>): seq<NodeKey> {
    if nodeIDs == [] then []
    else
      var last := |nodeIDs| - 1;
      Selected(bits, nodeIDs[..last]) + if Contains(bits, last) then [nodeIDs[last]] else []
  }

  lemma {:induction false} SelectedMeaning(bits: BitSet, nodeIDs: seq<NodeKey>, x: NodeKey)
    ensures x in Selected(bits, nodeIDs) <==> exists i :: 0 <= i < |nodeIDs| && nodeIDs[i] == x && Contains(bits, i)
  {
    if nodeIDs != [] {
      var last := |nodeIDs| - 1;
      SelectedMeaning(bits, nodeIDs[..last], x);
    }
  }

  lemma {:induction false} SelectedAscending(bits: BitSet, nodeIDs: seq<NodeKey>)
    requires StrictlyAscending(nodeIDs)
    ensures StrictlyAscending(Selected(bits, nodeIDs))
  {
    if nodeIDs != [] {
      var last := |nodeIDs| - 1;
      var front := Selected(bits, nodeIDs[..last]);
      SelectedAscending(bits, nodeIDs[..last]);
      forall x | x in front ensures x < nodeIDs[last] {
        SelectedMeaning(bits, nodeIDs[..last], x);
      }
      assert forall i :: 0 <= i < |front| ==> front[i] in front;
    }
  }

  /** Fails exactly when the set has a member that is no index of a node. */
  method FilterNodes(bits: BitSet, nodeIDs: seq<NodeKey>) returns (filtered: Option<seq<NodeKey>>)
    ensures filtered == if Within(bits, |nodeIDs|) then Some(Selected(bits, nodeIDs)) else None
  {
    BitLenBounds(bits, |nodeIDs|);
    if BitLen(bits) > |nodeIDs| {
      return None;
    }
    var nodes: seq<NodeKey> := [];
    for i := 0 to |nodeIDs|
      invariant nodes == Selected(bits, nodeIDs[..i])
    {
      assert nodeIDs[..i + 1][..i] == nodeIDs[..i];
      if Contains(bits, i) {
        nodes := nodes + [nodeIDs[i]];
      }
    }
    assert nodeIDs[..|nodeIDs|] == nodeIDs;
    return Some(nodes);
  }

  // ---------------------------------------------------------------- bits and signers undo each other

  /** Selecting by a set within bounds and marking again gives the set back. */
  lemma BitsOfSelected(v: Verifier, bits: BitSet)
    requires WellFormed(v) && Within(bits, |v.canonicalNodeIDs|)
    ensures Canonical(v, Selected(bits, v.canonicalNodeIDs))
    ensures SignerBits(v, Selected(bits, v.canonicalNodeIDs)) == bits
  {
    var canonical := v.canonicalNodeIDs;
    var signers := Selected(bits, canonical);
    SelectedAscending(bits, canonical);
    forall x | x in signers ensures x in canonical && Contains(bits, IndexOf(v, x)) {
      SelectedMeaning(bits, canonical, x);
    }
    forall i: nat ensures Contains(SignerBits(v, signers), i) == Contains(bits, i) {
      SignerBitsMeaning(v, signers, i);
      if Contains(bits, i) {
        SelectedMeaning(bits, canonical, canonical[i]);
        assert IndexOf(v, canonical[i]) == i;
      }
    }
    Extensional(SignerBits(v, signers), bits);
  }

  /** The marks of canonical signers determine them. */
  lemma SelectedOfBits(v: Verifier, signers: seq<NodeKey>)
    requires WellFormed(v) && Canonical(v, signers)
    ensures Within(SignerBits(v, signers), |v.canonicalNodeIDs|)
    ensures Selected(SignerBits(v, signers), v.canonicalNodeIDs) == signers
  {
    var bits, canonical := SignerBits(v, signers), v.canonicalNodeIDs;
    WithinMembers(v, signers);
    SelectedAscending(bits, canonical);
    forall x ensures x in Selected(bits, canonical) <==> x in signers {
      SelectedMember(v, signers, x);
    }
    AscendingUnique(Selected(bits, canonical), signers);
  }

  /** Marks stay within the members, unless there are none and index 0 is marked. */
  lemma WithinMembers(v: Verifier, signers: seq<NodeKey>)
    requires WellFormed(v)
    ensures Within(SignerBits(v, signers), |v.canonicalNodeIDs|) <==> signers == [] || v.canonicalNodeIDs != []
  {
    var bits, n := SignerBits(v, signers), |v.canonicalNodeIDs|;
    if signers == [] || n > 0 {
      forall i: nat | Contains(bits, i) ensures i < n {
        SignerBitsMeaning(v, signers, i);
      }
    } else {
      assert IndexOf(v, signers[0]) == 0;
      SignerBitsMeaning(v, signers, 0);
    }
  }

  /** A member is selected exactly when it signed, or is first and stands in for a signer that is no member. */
  lemma SelectedMember(v: Verifier, signers: seq<NodeKey>, x: NodeKey)
    requires WellFormed(v)
    ensures x in Selected(SignerBits(v, signers), v.canonicalNodeIDs) <==>
              x in v.nodeID2PK && (x in signers || (IndexOf(v, x) == 0 && !AllMembers(v, signers)))
  {
    var bits, canonical := SignerBits(v, signers), v.canonicalNodeIDs;
    SelectedMeaning(bits, canonical, x);
    if x in canonical {
      var i := IndexOf(v, x);
      assert canonical[i] == x;
      SignerBitsMeaning(v, signers, i);
      if Marked(v, signers, i) {
        var y :| y in signers && IndexOf(v, y) == i;
        if y in canonical {
          assert canonical[i] == y;
        }
      }
      if !AllMembers(v, signers) && i == 0 {
        var y :| y in signers && y !in v.nodeID2PK;
        assert IndexOf(v, y) == 0;
      }
    }
  }

  // ---------------------------------------------------------------- serialization

  ghost function Serialized(v: Verifier, qc: QC): seq<Byte> {
    Encode(CanotoQC(qc.sig, Bytes(SignerBits(v, qc.signers))))
  }

  /** The cached size is the length of the result. */
  method ToBytes(v: Verifier, qc: QC) returns (bytes: seq<Byte>, size: nat)
    ensures bytes == Serialized(v, qc) && size == |bytes|
  {
    var signers := CreateSignersBitSet(v, qc.signers);
    bytes, size := MarshalCanoto(CanotoQC(qc.sig, signers));
  }

  /** Accepts exactly the byte sets of canonical signers. */
  method SignersFromBytes(v: Verifier, signerBytes: seq<Byte>) returns (signers: Option<seq<NodeKey>>)
    requires WellFormed(v)
    ensures match signers
            case Some(s) => Canonical(v, s) && Bytes(SignerBits(v, s)) == signerBytes
            case None => forall s :: Canonical(v, s) ==> Bytes(SignerBits(v, s)) != signerBytes
  {
    forall s | Canonical(v, s) && Bytes(SignerBits(v, s)) == signerBytes
      ensures Parse(signerBytes) == SignerBits(v, s) && Within(Parse(signerBytes), |v.canonicalNodeIDs|)
    {
      ParseBytes(SignerBits(v, s));
      SelectedOfBits(v, s);
    }
    var bits := Parse(signerBytes);
    if Bytes(bits) != signerBytes {
      return None;
    }
    signers := FilterNodes(bits, v.canonicalNodeIDs);
    if signers.Some? {
      BitsOfSelected(v, bits);
    }
  }

  /** Lengths fit into 64 bits whenever the number of members does. */
  lemma SerializedSized(v: Verifier, qc: QC)
    requires WellFormed(v) && |v.canonicalNodeIDs| < U64
    ensures Sized(CanotoQC(qc.sig, Bytes(SignerBits(v, qc.signers))))
  {
    var bits := SignerBits(v, qc.signers);
    var bound := if v.canonicalNodeIDs == [] then 1 else |v.canonicalNodeIDs|;
    forall i: nat | Contains(bits, i) ensures i < bound {
      SignerBitsMeaning(v, qc.signers, i);
    }
    BitLenBounds(bits, bound);
    BytesShort(bits);
  }

  lemma {:induction false} BytesShort(bits: BitSet)
    ensures |Bytes(bits)| <= BitLen(bits)
  {
    if bits > 0 {
      BytesShort(bits / 256);
      BitLenShrinks(bits / 2, bits / 256);
    }
  }

  lemma {:induction false} BitLenShrinks(a: BitSet, b: BitSet)
    requires b <= a
    ensures BitLen(b) <= BitLen(a)
  {
    if b > 0 {
      BitLenShrinks(a / 2, b / 2);
    }
  }

  /**
   * Re-serializing what is accepted gives the same string back, and no serialized certificate with
   * canonical signers and a valid signature is refused.
   */
  method Deserialize(v: Verifier, isSignature: SigBytes -> bool, bytes: seq<Byte>) returns (result: Option<QC>)
    requires WellFormed(v) && |v.canonicalNodeIDs| < U64
    ensures match result
            case Some(qc) => isSignature(qc.sig) && Canonical(v, qc.signers) && Serialized(v, qc) == bytes
            case None => forall qc: QC :: isSignature(qc.sig) && Canonical(v, qc.signers) ==> Serialized(v, qc) != bytes
  {
    forall qc: QC ensures Sized(CanotoQC(qc.sig, Bytes(SignerBits(v, qc.signers)))) {
      SerializedSized(v, qc);
    }
    var canotoQC := UnmarshalCanoto(bytes);
    if canotoQC.None? {
      return None;
    }
    forall qc: QC | Serialized(v, qc) == bytes
      ensures qc.sig == canotoQC.value.sig && Bytes(SignerBits(v, qc.signers)) == canotoQC.value.signers
    {
      EncodeInjective(CanotoQC(qc.sig, Bytes(SignerBits(v, qc.signers))), canotoQC.value);
    }
    if !isSignature(canotoQC.value.sig) {
      return None;
    }
    var signers := SignersFromBytes(v, canotoQC.value.signers);
    if signers.None? {
      return None;
    }
    return Some(QC(canotoQC.value.sig, signers.value));
  }

  /** Certificates with the same serialization have the same signature and mark the same members. */
  lemma SerializedDetermines(v: Verifier, qc1: QC, qc2: QC)
    requires WellFormed(v) && |v.canonicalNodeIDs| < U64 && Serialized(v, qc1) == Serialized(v, qc2)
    ensures qc1.sig == qc2.sig && SignerBits(v, qc1.signers) == SignerBits(v, qc2.signers)
  {
    SerializedSized(v, qc1);
    SerializedSized(v, qc2);
    var bits1, bits2 := SignerBits(v, qc1.signers), SignerBits(v, qc2.signers);
    EncodeInjective(CanotoQC(qc1.sig, Bytes(bits1)), CanotoQC(qc2.sig, Bytes(bits2)));
    ParseBytes(bits1);
    ParseBytes(bits2);
  }

  /** Signers in any order and number serialize like the same signers in canonical order. */
  lemma SerializedCanonical(v: Verifier, qc: QC)
    requires WellFormed(v) && (qc.signers == [] || v.canonicalNodeIDs != [])
    ensures var signers := Selected(SignerBits(v, qc.signers), v.canonicalNodeIDs);
            Canonical(v, signers) && Serialized(v, QC(qc.sig, signers)) == Serialized(v, qc)
  {
    WithinMembers(v, qc.signers);
    BitsOfSelected(v, SignerBits(v, qc.signers));
  }

  /** The signers that come back are the ones that went in exactly when all of those are members. */
  lemma SelectedSame(v: Verifier, signers: seq<NodeKey>)
    requires WellFormed(v)
    ensures SameMembers(Selected(SignerBits(v, signers), v.canonicalNodeIDs), signers) <==> AllMembers(v, signers)
  {
    var selected := Selected(SignerBits(v, signers), v.canonicalNodeIDs);
    forall x ensures x in selected ==> x in v.nodeID2PK
      ensures AllMembers(v, signers) ==> (x in selected <==> x in signers)
    {
      SelectedMember(v, signers, x);
    }
  }

  /**
   * Serializing and deserializing: the signature is unchanged, and the signers come back in canonical
   * order, the same set of them exactly when all are members.
   */
  method Reload(v: Verifier, isSignature: SigBytes -> bool, qc: QC) returns (result: Option<QC>)
    requires WellFormed(v) && |v.canonicalNodeIDs| < U64
    ensures result.Some? <==> isSignature(qc.sig) && (qc.signers == [] || v.canonicalNodeIDs != [])
    ensures result.Some? ==> result.value.sig == qc.sig && Canonical(v, result.value.signers)
    ensures result.Some? ==> (SameMembers(result.value.signers, qc.signers) <==> AllMembers(v, qc.signers))
    ensures Canonical(v, qc.signers) && isSignature(qc.sig) ==> result == Some(qc)
  {
    var bytes, _ := ToBytes(v, qc);
    result := Deserialize(v, isSignature, bytes);
    match result
    case Some(back) =>
      SerializedDetermines(v, back, qc);
      SelectedOfBits(v, back.signers);
      SelectedSame(v, qc.signers);
      WithinMembers(v, qc.signers);
      if Canonical(v, qc.signers) {
        SelectedOfBits(v, qc.signers);
      }
    case None =>
      if qc.signers == [] || v.canonicalNodeIDs != [] {
        SerializedCanonical(v, qc);
      } else {
        assert qc.signers[0] !in v.nodeID2PK;
      }
  }

  // ---------------------------------------------------------------- verification

  type Message(!new)

  datatype VerifyError = UnexpectedSigners | DuplicateSigner | SignerNotFound | SignatureRejected

  /** The checks on signers: as many as a quorum, none counted twice, all members. */
  ghost predicate Quorate(v: Verifier, quorum: nat, signers: seq<NodeKey>) {
    |signers| == quorum && Distinct(signers) && AllMembers(v, signers)
  }

  /** The first signer that is a duplicate or no member stands at `k`. */
  ghost predicate FirstBad(v: Verifier, signers: seq<NodeKey>, k: int) {
    && 0 <= k < |signers| && Distinct(signers[..k]) && AllMembers(v, signers[..k])
    && (signers[k] in signers[..k] || signers[k] !in v.nodeID2PK)
  }

  ghost function PublicKeys(v: Verifier, signers: seq<NodeKey>): (pks: seq<PublicKey>)
    requires AllMembers(v, signers)
    ensures |pks| == |signers| && forall i :: 0 <= i < |signers| ==> pks[i] == v.nodeID2PK[signers[i]]
  {
    seq(|signers|, i requires 0 <= i < |signers| => v.nodeID2PK[signers[i]])
  }

  /**
   * `quorumOf` is the quorum size for a number of members; `signed` aggregates public keys, encodes the
   * message and checks the signature.
   */
  method Verify(v: Verifier, quorumOf: nat -> nat, signed: (seq<PublicKey>, SigBytes, Message) -> bool,
                qc: QC, msg: Message)
    returns (error: Option<VerifyError>)
    ensures error == Some(UnexpectedSigners) <==> |qc.signers| != quorumOf(|v.nodeID2PK|)
    ensures error == Some(DuplicateSigner) ==>
              exists k :: FirstBad(v, qc.signers, k) && qc.signers[k] in qc.signers[..k]
    ensures error == Some(SignerNotFound) ==>
              exists k :: FirstBad(v, qc.signers, k) && qc.signers[k] !in qc.signers[..k]
    ensures error in {None, Some(SignatureRejected)} <==> Quorate(v, quorumOf(|v.nodeID2PK|), qc.signers)
    ensures error.None? <==>
              && Quorate(v, quorumOf(|v.nodeID2PK|), qc.signers)
              && signed(PublicKeys(v, qc.signers), qc.sig, msg)
  {
    var quorum := quorumOf(|v.nodeID2PK|);
    if |qc.signers| != quorum {
      return Some(UnexpectedSigners);
    }
    var uniqueSigners: set<NodeKey> := {};
    var pks: seq<PublicKey> := [];
    for i := 0 to |qc.signers|
      invariant Distinct(qc.signers[..i]) && AllMembers(v, qc.signers[..i])
      invariant forall x :: x in uniqueSigners <==> x in qc.signers[..i]
      invariant |pks| == i && forall k :: 0 <= k < i ==> qc.signers[k] in v.nodeID2PK && pks[k] == v.nodeID2PK[qc.signers[k]]
    {
      var signer := qc.signers[i];
      if signer in uniqueSigners {
        assert FirstBad(v, qc.signers, i);
        assert !Distinct(qc.signers);
        return Some(DuplicateSigner);
      }
      if signer !in v.nodeID2PK {
        assert FirstBad(v, qc.signers, i);
        return Some(SignerNotFound);
      }
      assert qc.signers[..i + 1] == qc.signers[..i] + [signer];
      uniqueSigners := uniqueSigners + {signer};
      pks := pks + [v.nodeID2PK[signer]];
    }
    assert qc.signers[..|qc.signers|] == qc.signers;
    assert pks == PublicKeys(v, qc.signers);
    if !signed(pks, qc.sig, msg) {
      return Some(SignatureRejected);
    }
    return None;
  }

  /** Any two quorums of q among n members share at least 2q - n signers. */
  lemma QuorumIntersection(v: Verifier, quorum: nat, signers1: seq<NodeKey>, signers2: seq<NodeKey>)
    requires Quorate(v, quorum, signers1) && Quorate(v, quorum, signers2)
    ensures |Elements(signers1) * Elements(signers2)| >= 2 * quorum - |v.nodeID2PK|
  {
    var a, b := Elements(signers1), Elements(signers2);
    DistinctCount(signers1);
    DistinctCount(signers2);
    UnionCount(a, b);
    SubsetCount(a + b, v.nodeID2PK.Keys);
  }

  // ---------------------------------------------------------------- aggregation

  datatype Vote = Vote(signer: seq<Byte>, value: seq<Byte>)

  datatype AggregateError =
    | TooFewSignatures
    | InvalidNodeID
    | UnknownSigner
    | FailedToParseSignature
    | SignatureAggregation

  datatype AggregateResult = Aggregated(qc: QC) | Failed(error: AggregateError)

  /** The vote names a member and carries a signature. */
  ghost predicate UsableVote(v: Verifier, isSignature: SigBytes -> bool, vote: Vote) {
    && |vote.signer| == 20 && Parse(vote.signer) in v.nodeID2PK
    && |vote.value| == 96 && isSignature(vote.value)
  }

  ghost predicate Defective(v: Verifier, isSignature: SigBytes -> bool, vote: Vote, error: AggregateError) {
    match error
    case InvalidNodeID => |vote.signer| != 20
    case UnknownSigner => |vote.signer| == 20 && Parse(vote.signer) !in v.nodeID2PK
    case FailedToParseSignature =>
      && |vote.signer| == 20 && Parse(vote.signer) in v.nodeID2PK
      && !(|vote.value| == 96 && isSignature(vote.value))
    case _ => false
  }

  method CheckVote(v: Verifier, isSignature: SigBytes -> bool, vote: Vote) returns (defect: Option<AggregateError>)
    ensures defect.None? <==> UsableVote(v, isSignature, vote)
    ensures defect.Some? ==> Defective(v, isSignature, vote, defect.value)
  {
    var id := ToNodeID(vote.signer);
    if id.None? {
      return Some(InvalidNodeID);
    }
    if id.value !in v.nodeID2PK {
      return Some(UnknownSigner);
    }
    if |vote.value| != SignatureLen || !isSignature(vote.value) {
      return Some(FailedToParseSignature);
    }
    return None;
  }

  ghost predicate Usable(v: Verifier, isSignature: SigBytes -> bool, votes: seq<Vote>) {
    forall i :: 0 <= i < |votes| ==> UsableVote(v, isSignature, votes[i])
  }

  /** The first vote that cannot be used stands at `k`, and this is why. */
  ghost predicate FirstDefect(v: Verifier, isSignature: SigBytes -> bool, votes: seq<Vote>, k: int, error: AggregateError) {
    && 0 <= k < |votes| && Usable(v, isSignature, votes[..k])
    && Defective(v, isSignature, votes[k], error)
  }

  ghost function Signers(votes: seq<Vote>): (s: seq<NodeKey>)
    ensures |s| == |votes|
  {
    seq(|votes|, i requires 0 <= i < |votes| => Parse(votes[i].signer))
  }

  ghost function Values(v: Verifier, isSignature: SigBytes -> bool, votes: seq<Vote>): (s: seq<SigBytes>)
    requires Usable(v, isSignature, votes)
    ensures |s| == |votes|
  {
    seq(|votes|, i requires 0 <= i < |votes| => votes[i].value)
  }

  method CollectVotes(v: Verifier, isSignature: SigBytes -> bool, votes: seq<Vote>)
    returns (error: Option<AggregateError>, signers: seq<NodeKey>, sigs: seq<SigBytes>)
    ensures error.None? ==>
              && Usable(v, isSignature, votes) && signers == Signers(votes) && sigs == Values(v, isSignature, votes)
              && AllMembers(v, signers)
    ensures error.Some? ==> exists k :: FirstDefect(v, isSignature, votes, k, error.value)
  {
    error, signers, sigs := None, [], [];
    for i := 0 to |votes|
      invariant Usable(v, isSignature, votes[..i]) && error.None?
      invariant |signers| == i && forall k :: 0 <= k < i ==> signers[k] == Parse(votes[k].signer) && signers[k] in v.nodeID2PK
      invariant |sigs| == i && forall k :: 0 <= k < i ==> sigs[k] == votes[k].value
    {
      error := CheckVote(v, isSignature, votes[i]);
      if error.Some? {
        assert FirstDefect(v, isSignature, votes, i, error.value);
        return;
      }
      signers := signers + [ToNodeID(votes[i].signer).value];
      sigs := sigs + [votes[i].value];
    }
    assert votes[..|votes|] == votes;
  }

  /**
   * Uses the first quorum of votes. The certificate passes every check on its signers exactly when those
   * votes come from distinct signers.
   */
  method Aggregate(v: Verifier, quorumOf: nat -> nat, isSignature: SigBytes -> bool,
                   aggregate: seq<SigBytes> -> Option<SigBytes>, votes: seq<Vote>)
    returns (result: AggregateResult)
    ensures var q := quorumOf(|v.nodeID2PK|);
            match result
            case Aggregated(qc) =>
              && q <= |votes| && Usable(v, isSignature, votes[..q]) && |qc.signers| == q
              && (forall i :: 0 <= i < q ==> qc.signers[i] == Parse(votes[i].signer))
              && q > 0 && aggregate(Values(v, isSignature, votes[..q])) == Some(qc.sig)
              && AllMembers(v, qc.signers) && (Quorate(v, q, qc.signers) <==> Distinct(qc.signers))
            case Failed(TooFewSignatures) => |votes| < q
            case Failed(SignatureAggregation) =>
              && q <= |votes| && Usable(v, isSignature, votes[..q])
              && (q == 0 || aggregate(Values(v, isSignature, votes[..q])).None?)
            case Failed(error) => q <= |votes| && exists k :: FirstDefect(v, isSignature, votes[..q], k, error)
  {
    var quorumSize := quorumOf(|v.nodeID2PK|);
    if |votes| < quorumSize {
      return Failed(TooFewSignatures);
    }
    var error, signers, sigs := CollectVotes(v, isSignature, votes[..quorumSize]);
    if error.Some? {
      return Failed(error.value);
    }
    if sigs == [] {
      return Failed(SignatureAggregation);
    }
    var sig := aggregate(sigs);
    if sig.None? {
      return Failed(SignatureAggregation);
    }
    return Aggregated(QC(sig.value, signers));
  }

  ghost function TwoMembers(pk1: PublicKey, pk2: PublicKey): Verifier {
    Verifier(map[0 := pk1, 1 := pk2], [0, 1], map[0 := 0, 1 := 1])
  }

  lemma TwoMembersWellFormed(pk1: PublicKey, pk2: PublicKey)
    ensures WellFormed(TwoMembers(pk1, pk2))
  {
  }

  /** Two members, and the first of them votes twice: every vote is usable, and yet the signers are no quorum. */
  lemma AggregateMayRepeat(pk1: PublicKey, pk2: PublicKey, sig: SigBytes)
    ensures var v := TwoMembers(pk1, pk2);
            var votes := [Vote(seq(20, _ => 0), sig), Vote(seq(20, _ => 0), sig)];
            && WellFormed(v) && Usable(v, (s: SigBytes) => true, votes)
            && FirstBad(v, Signers(votes), 1) && !Quorate(v, 2, Signers(votes))
  {
    TwoMembersWellFormed(pk1, pk2);
    var v := TwoMembers(pk1, pk2);
    var zeros := seq(20, _ => 0);
    var votes := [Vote(zeros, sig), Vote(zeros, sig)];
    ParseZeros(zeros);
    var signers := Signers(votes);
    assert signers == [0, 0];
    RepeatedSigner(v);
  }

  lemma RepeatedSigner(v: Verifier)
    requires 0 in v.nodeID2PK
    ensures FirstBad(v, [0, 0], 1) && !Quorate(v, 2, [0, 0])
  {
    var signers: seq<NodeKey> := [0, 0];
    assert signers[..1] == [0];
    assert signers[0] == signers[1];
  }

  lemma {:induction false} ParseZeros(bytes: seq<Byte>)
    requires IsZero(bytes)
    ensures Parse(bytes) == 0
  {
    if bytes != [] {
      ParseZeros(bytes[..|bytes| - 1]);
    }
  }

  // ---------------------------------------------------------------- certificates that the code builds

  /** A certificate whose signers come back in canonical order is a quorum exactly when it has that many different
      signers; one that was a quorum still is. */
  lemma ReloadedQuorate(v: Verifier, quorum: nat, signers: seq<NodeKey>, back: seq<NodeKey>)
    requires AllMembers(v, signers) && Canonical(v, back) && SameMembers(back, signers)
    ensures Quorate(v, quorum, back) <==> |Elements(signers)| == quorum
    ensures Quorate(v, quorum, signers) ==> Quorate(v, quorum, back)
  {
    assert Distinct(back);
    assert Elements(back) == Elements(signers);
    DistinctCount(back);
    DistinctCount(signers);
  }

  /** Aggregating signatures yields a signature. */
  ghost predicate ClosedUnder(isSignature: SigBytes -> bool, aggregate: seq<SigBytes> -> Option<SigBytes>) {
    forall sigs :: aggregate(sigs).Some? && (forall i :: 0 <= i < |sigs| ==> isSignature(sigs[i])) ==>
      isSignature(aggregate(sigs).value)
  }

  lemma ValuesSigned(v: Verifier, isSignature: SigBytes -> bool, votes: seq<Vote>)
    requires Usable(v, isSignature, votes)
    ensures forall i :: 0 <= i < |votes| ==> isSignature(Values(v, isSignature, votes)[i])
  {
    assert forall i :: 0 <= i < |votes| ==> UsableVote(v, isSignature, votes[i]);
  }

  /** Every aggregated certificate survives serialization: signature and signer set are the same, and a quorum stays one. */
  method AggregateAndReload(v: Verifier, quorumOf: nat -> nat, isSignature: SigBytes -> bool,
                            aggregate: seq<SigBytes> -> Option<SigBytes>, votes: seq<Vote>)
    returns (result: AggregateResult, back: Option<QC>)
    requires WellFormed(v) && |v.canonicalNodeIDs| < U64 && ClosedUnder(isSignature, aggregate)
    ensures result.Aggregated? <==> back.Some?
    ensures result.Aggregated? ==>
              && back.value.sig == result.qc.sig && SameMembers(back.value.signers, result.qc.signers)
              && Canonical(v, back.value.signers)
              && (Distinct(result.qc.signers) <==> Quorate(v, quorumOf(|v.nodeID2PK|), back.value.signers))
  {
    result := Aggregate(v, quorumOf, isSignature, aggregate, votes);
    back := None;
    if result.Aggregated? {
      ghost var q := quorumOf(|v.nodeID2PK|);
      ValuesSigned(v, isSignature, votes[..q]);
      assert result.qc.signers[0] in v.nodeID2PK;
      back := Reload(v, isSignature, result.qc);
      ReloadedQuorate(v, q, result.qc.signers, back.value.signers);
      DistinctCount(result.qc.signers);
    }
  }

  /** Every deserialized certificate reloads to itself. */
  method DeserializeAndReload(v: Verifier, isSignature: SigBytes -> bool, bytes: seq<Byte>)
    returns (result: Option<QC>, back: Option<QC>)
    requires WellFormed(v) && |v.canonicalNodeIDs| < U64
    ensures back == result
    ensures result.Some? ==> AllMembers(v, result.value.signers) && Serialized(v, result.value) == bytes
  {
    result := Deserialize(v, isSignature, bytes);
    back := None;
    if result.Some? {
      back := Reload(v, isSignature, result.value);
    }
  }
}
