/** Fixed-width big-endian numbers. */
module Packing {
  import opened Ids
  import opened Numbers

  const Uint64Size: nat := 8

  function Power256(k: nat): (r: nat)
    ensures r > 0
  {
    if k == 0 then 1 else 256 * Power256(k - 1)
  }

  lemma SizeOfUint64()
    ensures Power256(8) == U64
  {
    assert Power256(4) == 0x1_0000_0000;
    assert Power256(8) == 256 * (256 * (256 * (256 * Power256(4))));
  }

  function Pack(x: nat, width: nat): (bytes: seq<Byte>)
    ensures |bytes| == width
  {
    if width == 0 then [] else Pack(x / 256, width - 1) + [x % 256]
  }

  function Parse(bytes: seq<Byte>): (x: nat)
    ensures x < Power256(|bytes|)
  {
    if bytes == [] then 0 else 256 * Parse(bytes[..|bytes| - 1]) + bytes[|bytes| - 1]
  }

  lemma {:induction false} ParsePack(x: nat, width: nat)
    requires x < Power256(width)
    ensures Parse(Pack(x, width)) == x
  {
    if width > 0 {
      ParsePack(x / 256, width - 1);
      assert Pack(x, width)[..width - 1] == Pack(x / 256, width - 1);
    }
  }

  lemma {:induction false} PackParse(bytes: seq<Byte>)
    ensures Pack(Parse(bytes), |bytes|) == bytes
  {
    if bytes != [] {
      var front, last := bytes[..|bytes| - 1], bytes[|bytes| - 1];
      PackParse(front);
      assert Parse(bytes) / 256 == Parse(front) && Parse(bytes) % 256 == last;
      assert front + [last] == bytes;
    }
  }

  /** The byte order: the byte that is `k` places from the end counts multiples of 256 to the k-th power. */
  lemma {:induction false} ParseDigit(bytes: seq<Byte>, k: nat)
    requires k < |bytes|
    ensures Parse(bytes) / Power256(k) % 256 == bytes[|bytes| - 1 - k]
  {
    var front, last := bytes[..|bytes| - 1], bytes[|bytes| - 1];
    assert Parse(bytes) / 256 == Parse(front) && Parse(bytes) % 256 == last;
    if k > 0 {
      ParseDigit(front, k - 1);
      DivideTwice(Parse(bytes), 256, Power256(k - 1));
    }
  }

  lemma Euclid(x: nat, y: nat)
    requires y > 0
    ensures x == x / y * y + x % y && 0 <= x % y < y
  {
  }

  lemma DivideTwice(x: nat, a: nat, y: nat)
    requires a > 0 && y > 0
    ensures a * y > 0 && x / (a * y) == x / a / y
  {
    var p, s := x / a, x % a;
    var q, r := p / y, p % y;
    Euclid(x, a);
    Euclid(p, y);
    Regroup(a, q, y, r, s, p);
    QuotientUnique(x, a * y, q, a * r + s);
  }

  lemma Regroup(a: nat, q: nat, y: nat, r: nat, s: nat, p: nat)
    requires r < y && s < a && p == q * y + r
    ensures p * a + s == q * (a * y) + (a * r + s)
    ensures a * r + s < a * y
  {
    BelowProduct(a, y, r, s);
    assert p * a == q * y * a + r * a;
  }

  lemma BelowProduct(a: nat, y: nat, r: nat, s: nat)
    requires r < y && s < a
    ensures a * r + s < a * y
  {
    assert a * (r + 1) <= a * y;
  }

  lemma MultipleIsLarge(d: int, y: int)
    requires d != 0 && y > 0
    ensures d * y >= y || d * y <= -y
  {
  }

  lemma QuotientUnique(x: nat, y: nat, q: nat, r: nat)
    requires x == q * y + r && r < y
    ensures x / y == q
  {
    var d := q - x / y;
    assert d * y == x % y - r;
    if d != 0 {
      MultipleIsLarge(d, y);
    }
  }

  function PackUInt64(x: Uint64): (bytes: seq<Byte>)
    ensures |bytes| == Uint64Size
  {
    Pack(x, Uint64Size)
  }

  /** Only strings of exactly eight bytes are accepted. */
  function ParseUInt64(bytes: seq<Byte>): (r: Option<Uint64>)
    ensures r.Some? <==> |bytes| == Uint64Size
  {
    if |bytes| != Uint64Size then None
    else
      SizeOfUint64();
      Some(Parse(bytes))
  }

  /** Packing and parsing undo each other. */
  lemma PackUInt64RoundTrip(x: Uint64, bytes: seq<Byte>)
    ensures ParseUInt64(PackUInt64(x)) == Some(x)
    ensures ParseUInt64(bytes).Some? ==> PackUInt64(ParseUInt64(bytes).value) == bytes
  {
    SizeOfUint64();
    ParsePack(x, Uint64Size);
    PackParse(bytes);
  }
}
