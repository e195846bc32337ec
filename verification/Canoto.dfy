/** The wire format of a quorum certificate: two optional tag-length-value fields, in order. */
module Canoto {
  import opened Ids
  import opened Numbers
  import opened Packing

  const U32: nat := 0x1_0000_0000
  const SignatureLen: nat := 96

  type SigBytes = s: seq<Byte> | |s| == SignatureLen witness seq(SignatureLen, _ => 0)

  datatype CanotoQC = CanotoQC(sig: SigBytes, signers: seq<Byte>)

  /** Lengths are written as 64-bit numbers. */
  ghost predicate Sized(c: CanotoQC) {
    |c.signers| < U64
  }

  predicate IsZero(bytes: seq<Byte>) {
    forall i :: 0 <= i < |bytes| ==> bytes[i] == 0
  }

  // ---------------------------------------------------------------- base-128 varints

  /** Low groups of seven bits first; all bytes but the last have their high bit set. */
  function Varint(x: nat): (bytes: seq<Byte>)
    ensures bytes != []
  {
    if x < 128 then [x] else [x % 128 + 128] + Varint(x / 128)
  }

  function SizeUint(x: nat): nat {
    if x < 128 then 1 else 1 + SizeUint(x / 128)
  }

  datatype Read = Read(value: nat, rest: seq<Byte>)

  /** Reads one varint; a last group of zeros after another group is not minimal, and refused. */
  function ReadVarint(bytes: seq<Byte>): Option<Read> {
    if bytes == [] then None
    else if bytes[0] < 128 then Some(Read(bytes[0], bytes[1..]))
    else
      match ReadVarint(bytes[1..])
      case None => None
      case Some(r) => if r.value == 0 then None else Some(Read(bytes[0] - 128 + 128 * r.value, r.rest))
  }

  function ReadUint(bytes: seq<Byte>, bound: nat): Option<Read> {
    match ReadVarint(bytes)
    case None => None
    case Some(r) => if r.value < bound then Some(r) else None
  }

  function Power128(i: nat): (r: nat)
    ensures r > 0
  {
    if i == 0 then 1 else 128 * Power128(i - 1)
  }

  /** The byte order and the form: the i-th byte holds the i-th group of seven bits, all bytes but the last are marked, and
      the last holds no zero group unless it is alone. */
  lemma {:induction false} VarintMeaning(x: nat, i: nat)
    requires i < |Varint(x)|
    ensures Varint(x)[i] % 128 == x / Power128(i) % 128
    ensures Varint(x)[i] >= 128 <==> i < |Varint(x)| - 1
    ensures i == |Varint(x)| - 1 > 0 ==> Varint(x)[i] != 0
  {
    if x >= 128 && i > 0 {
      assert Varint(x)[i] == Varint(x / 128)[i - 1];
      VarintMeaning(x / 128, i - 1);
      DivideTwice(x, 128, Power128(i - 1));
    }
  }

  /** Nothing is left out. */
  lemma {:induction false} VarintComplete(x: nat)
    ensures x / Power128(|Varint(x)|) == 0
  {
    if x >= 128 {
      VarintComplete(x / 128);
      DivideTwice(x, 128, Power128(|Varint(x / 128)|));
    }
  }

  lemma {:induction false} VarintSize(x: nat)
    ensures |Varint(x)| == SizeUint(x)
  {
    if x >= 128 {
      VarintSize(x / 128);
    }
  }

  /** What is written is read back, whatever follows it. */
  lemma {:induction false} VarintReadsBack(x: nat, rest: seq<Byte>)
    ensures ReadVarint(Varint(x) + rest) == Some(Read(x, rest))
  {
    var bytes := Varint(x) + rest;
    if x < 128 {
      assert bytes[1..] == rest;
    } else {
      VarintReadsBack(x / 128, rest);
      assert bytes[1..] == Varint(x / 128) + rest;
    }
  }

  /** What is read is what would have been written: no number has two encodings. */
  lemma {:induction false} VarintWritesBack(bytes: seq<Byte>)
    requires ReadVarint(bytes).Some?
    ensures var r := ReadVarint(bytes).value; Varint(r.value) + r.rest == bytes
  {
    if bytes[0] < 128 {
      assert [bytes[0]] + bytes[1..] == bytes;
    } else {
      VarintWritesBack(bytes[1..]);
      var r := ReadVarint(bytes[1..]).value;
      var x := bytes[0] - 128 + 128 * r.value;
      assert x / 128 == r.value && x % 128 + 128 == bytes[0];
      assert Varint(x) == [bytes[0]] + Varint(r.value);
      assert [bytes[0]] + bytes[1..] == bytes;
    }
  }

  // ---------------------------------------------------------------- fields

  /** A field of wire type 2: tag, length, payload. */
  function Field(field: nat, payload: seq<Byte>): seq<Byte> {
    Varint(8 * field + 2) + (Varint(|payload|) + payload)
  }

  /** A field that `CanotoQC` has, and that is not at its default value. */
  predicate ValidField(field: nat, payload: seq<Byte>) {
    || (field == 1 && |payload| == SignatureLen && !IsZero(payload))
    || (field == 2 && 0 < |payload| < U64)
  }

  lemma FieldReadsBack(field: nat, payload: seq<Byte>, rest: seq<Byte>)
    ensures ReadVarint(Field(field, payload) + rest) == Some(Read(8 * field + 2, Varint(|payload|) + payload + rest))
    ensures ReadVarint(Varint(|payload|) + payload + rest) == Some(Read(|payload|, payload + rest))
  {
    assert Field(field, payload) + rest == Varint(8 * field + 2) + (Varint(|payload|) + payload + rest);
    VarintReadsBack(8 * field + 2, Varint(|payload|) + payload + rest);
    assert Varint(|payload|) + payload + rest == Varint(|payload|) + (payload + rest);
    VarintReadsBack(|payload|, payload + rest);
  }

  /** The signature field, absent when the signature is all zeros. */
  function SigField(sig: SigBytes): seq<Byte> {
    if IsZero(sig) then [] else Field(1, sig)
  }

  /** The signers field, absent when there are no bytes in it. */
  function SignersField(signers: seq<Byte>): seq<Byte> {
    if signers == [] then [] else Field(2, signers)
  }

  function Encode(c: CanotoQC): seq<Byte> {
    SigField(c.sig) + SignersField(c.signers)
  }

  // ---------------------------------------------------------------- writing

  function SizeBytes(bytes: seq<Byte>): nat {
    SizeUint(|bytes|) + |bytes|
  }

  /** The size computed ahead of writing is the length of what is written. */
  method CalculateCanotoCache(c: CanotoQC) returns (size: nat)
    ensures size == |Encode(c)|
  {
    size := 0;
    VarintSize(|c.sig|);
    VarintSize(|c.signers|);
    if !IsZero(c.sig) {
      size := size + 1 + SizeBytes(c.sig);
    }
    if |c.signers| != 0 {
      size := size + 1 + SizeBytes(c.signers);
    }
  }

  method MarshalCanotoInto(w: seq<Byte>, c: CanotoQC) returns (w': seq<Byte>)
    ensures w' == w + Encode(c)
  {
    w' := w;
    if !IsZero(c.sig) {
      w' := w' + [0x0a];
      w' := w' + Varint(|c.sig|) + c.sig;
      assert w' == w + Field(1, c.sig);
    }
    assert w' == w + SigField(c.sig);
    if |c.signers| != 0 {
      w' := w' + [0x12];
      w' := w' + Varint(|c.signers|) + c.signers;
      assert w' == w + SigField(c.sig) + Field(2, c.signers);
    }
    assert w' == w + SigField(c.sig) + SignersField(c.signers);
  }

  /** The bytes: tag 0x0a, 96 and the signature unless it is all zeros, then tag 0x12, the length and the signers unless
      there are none. */
  method MarshalCanoto(c: CanotoQC) returns (bytes: seq<Byte>, size: nat)
    ensures bytes == Encode(c) && size == |bytes|
    ensures bytes == (if forall i :: 0 <= i < 96 ==> c.sig[i] == 0 then [] else [0x0a, 96] + c.sig)
                     + if c.signers == [] then [] else [0x12] + Varint(|c.signers|) + c.signers
  {
    size := CalculateCanotoCache(c);
    bytes := MarshalCanotoInto([], c);
    assert Varint(10) == [10] && Varint(18) == [18] && Varint(96) == [96];
    assert Field(1, c.sig) == [0x0a, 96] + c.sig;
    assert Field(2, c.signers) == [0x12] + Varint(|c.signers|) + c.signers;
  }

  // ---------------------------------------------------------------- reading

  datatype FieldRead = FieldRead(field: nat, payload: seq<Byte>, rest: seq<Byte>)

  /** One turn of the reader: tag, field order, wire type, length, payload, default value. */
  function ReadField(r: seq<Byte>, minField: nat): Option<FieldRead> {
    var tag := ReadUint(r, U32);
    if tag.None? then None
    else
      var field, wireType := tag.value.value / 8, tag.value.value % 8;
      if field < minField then None
      else if field != 1 && field != 2 then None
      else if wireType != 2 then None
      else ReadPayload(tag.value.rest, field)
  }

  function ReadPayload(r: seq<Byte>, field: nat): Option<FieldRead> {
    var length := ReadUint(r, U64);
    if length.None? then None
    else
      var n, tail := length.value.value, length.value.rest;
      if field == 1 && n != SignatureLen then None
      else if n > |tail| then None
      else if field == 1 && IsZero(tail[..n]) then None
      else if n == 0 then None
      else Some(FieldRead(field, tail[..n], tail[n..]))
  }

  lemma ReadPayloadSound(r: seq<Byte>, field: nat)
    requires ReadPayload(r, field).Some? && (field == 1 || field == 2)
    ensures var next := ReadPayload(r, field).value;
            && r == Varint(|next.payload|) + next.payload + next.rest
            && next.field == field && ValidField(field, next.payload)
  {
    VarintWritesBack(r);
    var read := ReadVarint(r).value;
    var next := ReadPayload(r, field).value;
    assert next.payload + next.rest == read.rest;
    assert |next.payload| == read.value;
  }

  /** What is accepted was a field that may come next. */
  lemma ReadFieldSound(r: seq<Byte>, minField: nat)
    requires ReadField(r, minField).Some?
    ensures var next := ReadField(r, minField).value;
            && r == Field(next.field, next.payload) + next.rest
            && ValidField(next.field, next.payload) && next.field >= minField
  {
    VarintWritesBack(r);
    var tag := ReadVarint(r).value;
    var field := tag.value / 8;
    ReadPayloadSound(tag.rest, field);
    var next := ReadField(r, minField).value;
    assert tag.value == 8 * field + 2;
    assert Field(field, next.payload) + next.rest
        == Varint(tag.value) + (Varint(|next.payload|) + next.payload + next.rest);
  }

  /** Every field that may come next is accepted. */
  lemma ReadFieldComplete(field: nat, payload: seq<Byte>, rest: seq<Byte>, minField: nat)
    requires ValidField(field, payload) && field >= minField
    ensures ReadField(Field(field, payload) + rest, minField) == Some(FieldRead(field, payload, rest))
  {
    FieldReadsBack(field, payload, rest);
    var tail := payload + rest;
    assert tail[..|payload|] == payload && tail[|payload|..] == rest;
    assert (8 * field + 2) / 8 == field && (8 * field + 2) % 8 == 2;
  }

  /** What the unread bytes must be if the whole string is the encoding of `c`. */
  ghost predicate Remains(c: CanotoQC, minField: nat, sig: SigBytes, signers: seq<Byte>, r: seq<Byte>) {
    if minField == 0 then r == Encode(c)
    else if minField == 2 then c.sig == sig && r == SignersField(c.signers)
    else c.sig == sig && c.signers == signers && r == []
  }

  lemma ZeroUnique(sig1: SigBytes, sig2: SigBytes)
    requires IsZero(sig1) && IsZero(sig2)
    ensures sig1 == sig2
  {
  }

  /** If unread bytes remain of an encoding, they start with a field that may come next. */
  lemma NextField(c: CanotoQC, minField: nat, sig: SigBytes, signers: seq<Byte>, r: seq<Byte>) returns (next: FieldRead)
    requires Sized(c) && minField in {0, 2, 3} && Remains(c, minField, sig, signers, r) && r != []
    requires minField == 0 ==> IsZero(sig)
    ensures r == Field(next.field, next.payload) + next.rest
    ensures ValidField(next.field, next.payload) && next.field >= minField
    ensures Remains(c, next.field + 1, if next.field == 1 then next.payload else sig,
                    if next.field == 2 then next.payload else signers, next.rest)
  {
    if minField == 0 && !IsZero(c.sig) {
      next := FieldRead(1, c.sig, SignersField(c.signers));
    } else {
      if minField == 0 {
        ZeroUnique(c.sig, sig);
        assert [] + SignersField(c.signers) == SignersField(c.signers);
      }
      next := FieldRead(2, c.signers, []);
      assert r == Field(2, c.signers) + [];
    }
  }

  /** The reader's invariant: what was read so far, and what an encoding of the whole string leaves to read. */
  ghost predicate Reading(bytes: seq<Byte>, minField: nat, sig: SigBytes, signers: seq<Byte>, r: seq<Byte>) {
    && minField in {0, 2, 3} && |signers| < U64
    && (minField == 0 ==> IsZero(sig))
    && (minField < 3 ==> signers == [])
    && bytes == Encode(CanotoQC(sig, signers)) + r
    && forall c :: Sized(c) && Encode(c) == bytes ==> Remains(c, minField, sig, signers, r)
  }

  lemma ReadingStart(bytes: seq<Byte>, sig: SigBytes)
    requires IsZero(sig)
    ensures Reading(bytes, 0, sig, [], bytes)
  {
    assert Encode(CanotoQC(sig, [])) + bytes == bytes;
  }

  /** Storing a field that may come next keeps the invariant. */
  lemma ReadingStep(bytes: seq<Byte>, minField: nat, sig: SigBytes, signers: seq<Byte>, r: seq<Byte>, next: FieldRead)
    requires Reading(bytes, minField, sig, signers, r) && r == Field(next.field, next.payload) + next.rest
    requires ValidField(next.field, next.payload) && next.field >= minField
    ensures Reading(bytes, next.field + 1, if next.field == 1 then next.payload else sig,
                    if next.field == 2 then next.payload else signers, next.rest)
  {
    var sig': SigBytes := if next.field == 1 then next.payload else sig;
    var signers' := if next.field == 2 then next.payload else signers;
    assert Encode(CanotoQC(sig', signers')) == Encode(CanotoQC(sig, signers)) + Field(next.field, next.payload);
    forall c | Sized(c) && Encode(c) == bytes ensures Remains(c, next.field + 1, sig', signers', next.rest) {
      var n := NextField(c, minField, sig, signers, r);
      ReadFieldComplete(n.field, n.payload, n.rest, minField);
      ReadFieldComplete(next.field, next.payload, next.rest, minField);
    }
  }

  /** When no field can be read and bytes are left, the string encodes nothing. */
  lemma ReadingStuck(bytes: seq<Byte>, minField: nat, sig: SigBytes, signers: seq<Byte>, r: seq<Byte>, c: CanotoQC)
    requires Reading(bytes, minField, sig, signers, r) && r != [] && ReadField(r, minField).None? && Sized(c)
    ensures Encode(c) != bytes
  {
    if Encode(c) == bytes {
      var n := NextField(c, minField, sig, signers, r);
      ReadFieldComplete(n.field, n.payload, n.rest, minField);
    }
  }

  /** Accepts exactly the strings that the writer produces, and gives back what was written. */
  method UnmarshalCanoto(bytes: seq<Byte>) returns (result: Option<CanotoQC>)
    ensures match result
            case Some(c) => Sized(c) && Encode(c) == bytes
            case None => forall c :: Sized(c) ==> Encode(c) != bytes
  {
    var sig: SigBytes, signers: seq<Byte> := seq(SignatureLen, _ => 0), [];
    var minField: nat, r := 0, bytes;
    ReadingStart(bytes, sig);
    while r != []
      invariant Reading(bytes, minField, sig, signers, r)
      decreases |r|
    {
      var field := ReadField(r, minField);
      if field.None? {
        forall c | Sized(c) ensures Encode(c) != bytes {
          ReadingStuck(bytes, minField, sig, signers, r, c);
        }
        return None;
      }
      var next := field.value;
      ReadFieldSound(r, minField);
      ReadingStep(bytes, minField, sig, signers, r, next);
      if next.field == 1 {
        sig := next.payload;
      } else {
        signers := next.payload;
      }
      minField, r := next.field + 1, next.rest;
    }
    assert Encode(CanotoQC(sig, signers)) + [] == Encode(CanotoQC(sig, signers));
    return Some(CanotoQC(sig, signers));
  }

  lemma {:induction false} RemainsUnique(c1: CanotoQC, c2: CanotoQC, minField: nat, sig: SigBytes,
                                         signers: seq<Byte>, r: seq<Byte>)
    requires Sized(c1) && Sized(c2) && minField in {0, 2, 3}
    requires Remains(c1, minField, sig, signers, r) && Remains(c2, minField, sig, signers, r)
    requires minField == 0 ==> IsZero(sig)
    ensures c1 == c2
    decreases |r|
  {
    if r == [] {
      if minField == 0 {
        ZeroUnique(c1.sig, c2.sig);
      }
    } else {
      var next := NextField(c1, minField, sig, signers, r);
      var same := NextField(c2, minField, sig, signers, r);
      ReadFieldComplete(next.field, next.payload, next.rest, minField);
      ReadFieldComplete(same.field, same.payload, same.rest, minField);
      RemainsUnique(c1, c2, next.field + 1, if next.field == 1 then next.payload else sig,
                    if next.field == 2 then next.payload else signers, next.rest);
    }
  }

  /** Different contents are written differently. */
  lemma EncodeInjective(c1: CanotoQC, c2: CanotoQC)
    requires Sized(c1) && Sized(c2) && Encode(c1) == Encode(c2)
    ensures c1 == c2
  {
    RemainsUnique(c1, c2, 0, seq(SignatureLen, _ => 0), [], Encode(c1));
  }
}
