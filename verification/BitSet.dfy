/** Bit sets backed by an unbounded integer, and their minimal big-endian bytes. */
module BitSets {
  import opened Numbers
  import opened Packing

  /** Bit i of the number says whether i is in the set. */
  type BitSet = nat

  predicate Contains(bits: BitSet, i: nat) {
    if i == 0 then bits % 2 == 1 else Contains(bits / 2, i - 1)
  }

  function Add(bits: BitSet, i: nat): BitSet {
    if i == 0 then (if bits % 2 == 1 then bits else bits + 1)
    else 2 * Add(bits / 2, i - 1) + bits % 2
  }

  function BitLen(bits: BitSet): nat {
    if bits == 0 then 0 else 1 + BitLen(bits / 2)
  }

  /** No leading zero byte is written. */
  function Bytes(bits: BitSet): seq<Byte> {
    if bits == 0 then [] else Bytes(bits / 256) + [bits % 256]
  }

  function Power2(i: nat): (r: nat)
    ensures r > 0
  {
    if i == 0 then 1 else 2 * Power2(i - 1)
  }

  /** Bit i counts multiples of 2 to the i-th power. */
  lemma {:induction false} ContainsMeaning(bits: BitSet, i: nat)
    ensures Contains(bits, i) <==> bits / Power2(i) % 2 == 1
  {
    if i > 0 {
      ContainsMeaning(bits / 2, i - 1);
      DivideTwice(bits, 2, Power2(i - 1));
    }
  }

  lemma {:induction false} AddContains(bits: BitSet, i: nat, j: nat)
    ensures Contains(Add(bits, i), j) <==> i == j || Contains(bits, j)
  {
    var added := Add(bits, i);
    if i == 0 {
      assert added / 2 == bits / 2 && added % 2 == 1;
    } else {
      assert added / 2 == Add(bits / 2, i - 1) && added % 2 == bits % 2;
      if j > 0 {
        AddContains(bits / 2, i - 1, j - 1);
      }
    }
  }

  lemma {:induction false} NothingInZero(i: nat)
    ensures !Contains(0, i)
  {
    if i > 0 {
      NothingInZero(i - 1);
    }
  }

  /** A set is determined by its members. */
  lemma {:induction false} Extensional(a: BitSet, b: BitSet)
    requires forall i: nat :: Contains(a, i) == Contains(b, i)
    ensures a == b
    decreases a + b
  {
    assert Contains(a, 0) == Contains(b, 0);
    if a != 0 || b != 0 {
      forall i: nat ensures Contains(a / 2, i) == Contains(b / 2, i) {
        assert Contains(a, i + 1) == Contains(b, i + 1);
      }
      Extensional(a / 2, b / 2);
    }
  }

  lemma {:induction false} MemberBelow(bits: BitSet, i: nat)
    requires Contains(bits, i)
    ensures i < BitLen(bits)
  {
    if bits == 0 {
      NothingInZero(i);
    } else if i > 0 {
      MemberBelow(bits / 2, i - 1);
    }
  }

  lemma {:induction false} TopBit(bits: BitSet)
    requires bits > 0
    ensures Contains(bits, BitLen(bits) - 1)
  {
    if bits > 1 {
      TopBit(bits / 2);
    }
  }

  ghost predicate Within(bits: BitSet, bound: nat) {
    forall i: nat :: Contains(bits, i) ==> i < bound
  }

  /** The bit length is the least bound on the members. */
  lemma BitLenBounds(bits: BitSet, bound: nat)
    ensures BitLen(bits) <= bound <==> Within(bits, bound)
  {
    if BitLen(bits) <= bound {
      forall i: nat | Contains(bits, i) ensures i < bound {
        MemberBelow(bits, i);
      }
    } else {
      TopBit(bits);
      var top: nat := BitLen(bits) - 1;
      assert Contains(bits, top) && top >= bound;
    }
  }

  /** Reading back what was written. */
  lemma {:induction false} ParseBytes(bits: BitSet)
    ensures Parse(Bytes(bits)) == bits
  {
    if bits > 0 {
      ParseBytes(bits / 256);
      var bytes := Bytes(bits);
      assert bytes[..|bytes| - 1] == Bytes(bits / 256);
    }
  }

  /** Writing what was read gives the same bytes exactly when there was no leading zero byte. */
  lemma {:induction false} BytesParse(bytes: seq<Byte>)
    ensures Bytes(Parse(bytes)) == bytes <==> bytes == [] || bytes[0] != 0
  {
    if bytes != [] {
      var front, last := bytes[..|bytes| - 1], bytes[|bytes| - 1];
      BytesParse(front);
      var bits := Parse(bytes);
      assert bits / 256 == Parse(front) && bits % 256 == last;
      assert front + [last] == bytes;
      if bits > 0 {
        assert Bytes(bits)[..|Bytes(bits)| - 1] == Bytes(bits / 256);
      }
    }
  }
}
