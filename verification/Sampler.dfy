/** Sampling without replacement by a lazily performed shuffle. */
module Sampler {
  import opened Ids

  ghost function Below(n: nat): (r: set<nat>)
    ensures forall i: nat :: i in r <==> i < n
  {
    if n == 0 then {} else Below(n - 1) + {n - 1}
  }

  /** Cell `i` of the array being shuffled; cells that were never written hold their own index. */
  function At(drawn: map<nat, nat>, i: nat): nat {
    if i in drawn then drawn[i] else i
  }

  /** The cells from `drawsCount` on hold the remaining values, each once. */
  ghost predicate Shuffled(drawn: map<nat, nat>, drawsCount: nat, length: nat, remaining: set<nat>) {
    && drawsCount <= length
    && (forall i :: drawsCount <= i < length ==> At(drawn, i) in remaining)
    && (forall i, j :: drawsCount <= i < j < length ==> At(drawn, i) != At(drawn, j))
    && (forall v :: v in remaining ==> v < length && exists i :: drawsCount <= i < length && At(drawn, i) == v)
  }

  /** Moving the first cell into the one that was drawn removes the drawn value. */
  lemma DrawOk(drawn: map<nat, nat>, drawsCount: nat, length: nat, remaining: set<nat>, draw: nat)
    requires Shuffled(drawn, drawsCount, length, remaining) && drawsCount <= draw < length
    ensures Shuffled(drawn[draw := At(drawn, drawsCount)], drawsCount + 1, length, remaining - {At(drawn, draw)})
  {
    var drawn' := drawn[draw := At(drawn, drawsCount)];
    forall i | drawsCount < i < length
      ensures At(drawn', i) == At(drawn, if i == draw then drawsCount else i)
    {
    }
    forall v | v in remaining - {At(drawn, draw)} ensures exists i :: drawsCount + 1 <= i < length && At(drawn', i) == v {
      var i :| drawsCount <= i < length && At(drawn, i) == v;
      assert At(drawn', if i == drawsCount then draw else i) == v;
    }
  }

  class UniformReplacer {
    var length: nat
    var drawn: map<nat, nat>
    var drawsCount: nat
    ghost var remaining: set<nat>  // the values of [0, length) not returned yet

    ghost predicate Valid()
      reads this
    {
      Shuffled(drawn, drawsCount, length, remaining)
    }

    constructor (length: nat)
      ensures Valid()
      ensures this.length == length && remaining == Below(length)
    {
      this.length := length;
      drawn := map[];
      drawsCount := 0;
      remaining := Below(length);
      new;
      assert forall v :: v in remaining ==> At(drawn, v) == v;
    }

    /** Every value is returned at most once, and there is no next value exactly when all were returned. */
    method Next() returns (r: Option<nat>)
      requires Valid()
      modifies this
      ensures Valid() && length == old(length)
      ensures r.None? <==> old(remaining) == {}
      ensures r.None? ==> remaining == {}
      ensures r.Some? ==> r.value in old(remaining) && remaining == old(remaining) - {r.value}
    {
      if drawsCount >= length {
        return None;
      }
      var draw: nat :| drawsCount <= draw <= length - 1;  // the random source
      DrawOk(drawn, drawsCount, length, remaining, draw);
      var ret := At(drawn, draw);
      drawn := drawn[draw := At(drawn, drawsCount)];
      drawsCount := drawsCount + 1;
      remaining := remaining - {ret};
      return Some(ret);
    }
  }
}
