/** Batches of writes, and clearing all keys with a prefix. */
module Databases {
  import opened Collections
  import opened Ids
  import opened Numbers

  type Key = seq<Byte>
  type Data = map<Key, seq<Byte>>

  datatype BatchOp = PutOp(key: Key, value: seq<Byte>) | DeleteOp(key: Key)

  ghost function Apply(data: Data, ops: seq<BatchOp>): Data {
    if ops == [] then data
    else
      var before := Apply(data, ops[..|ops| - 1]);
      match ops[|ops| - 1]
      case PutOp(k, v) => before[k := v]
      case DeleteOp(k) => before - {k}
  }

  /** The last operation on a key decides; a key without any keeps its value. */
  lemma {:induction false} ApplyMeaning(data: Data, ops: seq<BatchOp>, k: Key, i: nat)
    requires i <= |ops| && (forall j :: i <= j < |ops| ==> ops[j].key != k) && (i == 0 || ops[i - 1].key == k)
    ensures i > 0 ==> (k in Apply(data, ops) <==> ops[i - 1].PutOp?)
    ensures i > 0 && ops[i - 1].PutOp? ==> Apply(data, ops)[k] == ops[i - 1].value
    ensures i == 0 ==> (k in Apply(data, ops) <==> k in data) && (k in data ==> Apply(data, ops)[k] == data[k])
  {
    if i < |ops| {
      ApplyMeaning(data, ops[..|ops| - 1], k, i);
    }
  }

  ghost function SizeOf(ops: seq<BatchOp>): nat {
    if ops == [] then 0
    else
      SizeOf(ops[..|ops| - 1]) +
      match ops[|ops| - 1]
      case PutOp(k, v) => |k| + |v|
      case DeleteOp(k) => |k|
  }

  class Database {
    var data: Data

    constructor (data: Data)
      ensures this.data == data
    {
      this.data := data;
    }
  }

  class BatchOps {
    var ops: seq<BatchOp>
    var size: int

    ghost predicate Valid()
      reads this
    {
      size == SizeOf(ops)
    }

    constructor ()
      ensures Valid() && ops == []
    {
      ops, size := [], 0;
    }

    method Put(key: Key, value: seq<Byte>)
      requires Valid()
      modifies this
      ensures Valid() && ops == old(ops) + [PutOp(key, value)] && size == old(size) + |key| + |value|
    {
      ops := ops + [PutOp(key, value)];
      size := size + |key| + |value|;
      assert ops[..|ops| - 1] == old(ops);
    }

    method Delete(key: Key)
      requires Valid()
      modifies this
      ensures Valid() && ops == old(ops) + [DeleteOp(key)] && size == old(size) + |key|
    {
      ops := ops + [DeleteOp(key)];
      size := size + |key|;
      assert ops[..|ops| - 1] == old(ops);
    }

    method Reset()
      modifies this
      ensures Valid() && ops == [] && size == 0
    {
      ops, size := [], 0;
    }

    /** Performs the operations in the order in which they were added, until one fails: here that is the one after
        `failAt` others, if there are so many. */
    method Replay(w: Database, failAt: nat) returns (ok: bool)
      modifies w
      ensures ok <==> failAt >= |ops|
      ensures w.data == Apply(old(w.data), if ok then ops else ops[..failAt])
    {
      for i := 0 to |ops|
        invariant w.data == Apply(old(w.data), ops[..i]) && i <= failAt
      {
        if i == failAt {
          return false;
        }
        assert ops[..i + 1][..i] == ops[..i];
        match ops[i]
        case PutOp(k, v) => w.data := w.data[k := v];
        case DeleteOp(k) => w.data := w.data - {k};
      }
      assert ops[..|ops|] == ops;
      return true;
    }

    /** Writes everything, or nothing if it fails. */
    method Write(db: Database, fails: bool) returns (ok: bool)
      modifies db
      ensures ok <==> !fails
      ensures db.data == if ok then Apply(old(db.data), ops) else old(db.data)
    {
      if fails {
        return false;
      }
      ok := Replay(db, |ops|);
    }
  }

  // ---------------------------------------------------------------- ClearPrefix

  ghost function Matching(data: Data, prefix: Key): set<Key> {
    set k | k in data && prefix <= k
  }

  /** Nothing but deletions of keys with the prefix. */
  ghost predicate DeletesOnly(ops: seq<BatchOp>, prefix: Key) {
    forall i :: 0 <= i < |ops| ==> ops[i].DeleteOp? && prefix <= ops[i].key
  }

  ghost function Deleted(ops: seq<BatchOp>): set<Key> {
    if ops == [] then {} else Deleted(ops[..|ops| - 1]) + {ops[|ops| - 1].key}
  }

  lemma {:induction false} ApplyDeletes(data: Data, ops: seq<BatchOp>, prefix: Key)
    requires DeletesOnly(ops, prefix)
    ensures Apply(data, ops) == data - Deleted(ops)
    ensures forall k :: k in Deleted(ops) ==> prefix <= k
  {
    if ops != [] {
      ApplyDeletes(data, ops[..|ops| - 1], prefix);
      assert data - Deleted(ops[..|ops| - 1]) - {ops[|ops| - 1].key} == data - Deleted(ops);
    }
  }

  /** The keys with the prefix, in some order, as they are now. */
  method NewIteratorWithPrefix(db: Database, prefix: Key) returns (keys: seq<Key>)
    ensures forall k :: k in keys <==> k in Matching(db.data, prefix)
  {
    keys := [];
    var rest := set k | k in db.data && prefix <= k;
    assert rest == Matching(db.data, prefix);
    while rest != {}
      invariant rest <= Matching(db.data, prefix)
      invariant forall k :: k in keys <==> k in Matching(db.data, prefix) - rest
      decreases rest
    {
      var key :| key in rest;
      keys, rest := keys + [key], rest - {key};
    }
  }

  /** Every matching key that is still there is still to come or already in the batch. */
  ghost predicate Covered(data: Data, prefix: Key, rest: seq<Key>, ops: seq<BatchOp>) {
    && DeletesOnly(ops, prefix)
    && (forall k :: k in Matching(data, prefix) ==> k in rest || k in Deleted(ops))
    && (forall k :: k in rest ==> k in Matching(data, prefix))
  }

  lemma CoverNext(data: Data, prefix: Key, rest: seq<Key>, ops: seq<BatchOp>)
    requires Covered(data, prefix, rest, ops) && rest != []
    ensures Covered(data, prefix, rest[1..], ops + [DeleteOp(rest[0])])
    ensures rest[0] in Matching(data, prefix) && rest[0] in Deleted(ops + [DeleteOp(rest[0])])
  {
    assert (ops + [DeleteOp(rest[0])])[..|ops|] == ops;
    assert rest == [rest[0]] + rest[1..];
    assert rest[0] in rest;
  }

  /** Some keys with the prefix are gone, and nothing else has changed. */
  ghost predicate Shrunk(before: Data, after: Data, prefix: Key) {
    && after.Keys <= before.Keys
    && (forall k :: k in after ==> after[k] == before[k])
    && (forall k :: k in before && !(prefix <= k) ==> k in after)
  }

  /** A written batch leaves fewer matching keys. */
  lemma WriteShrinks(data: Data, prefix: Key, ops: seq<BatchOp>, key: Key)
    requires DeletesOnly(ops, prefix) && key in Matching(data, prefix) && key in Deleted(ops)
    ensures |Matching(data - Deleted(ops), prefix)| < |Matching(data, prefix)|
  {
    SubsetCount(Matching(data - Deleted(ops), prefix), Matching(data, prefix) - {key});
  }

  /** In the middle of clearing, after so many writes. */
  ghost predicate Clearing(before: Data, now: Data, prefix: Key, rest: seq<Key>, ops: seq<BatchOp>, writes: nat) {
    && Covered(now, prefix, rest, ops) && Shrunk(before, now, prefix)
    && writes + |Matching(now, prefix)| <= |Matching(before, prefix)|
  }

  lemma DeletingShrinks(before: Data, now: Data, prefix: Key, ops: seq<BatchOp>)
    requires Shrunk(before, now, prefix) && DeletesOnly(ops, prefix)
    ensures Shrunk(before, now - Deleted(ops), prefix)
  {
    ApplyDeletes(now, ops, prefix);
  }

  lemma ClearingFlushed(before: Data, now: Data, prefix: Key, rest: seq<Key>, ops: seq<BatchOp>, writes: nat,
                        key: Key, restarted: seq<Key>)
    requires Clearing(before, now, prefix, rest, ops, writes)
    requires key in Matching(now, prefix) && key in Deleted(ops)
    requires forall k :: k in restarted <==> k in Matching(now - Deleted(ops), prefix)
    ensures |Matching(now - Deleted(ops), prefix)| < |Matching(now, prefix)|
    ensures Clearing(before, now - Deleted(ops), prefix, restarted, [], writes + 1)
  {
    DeletingShrinks(before, now, prefix, ops);
    WriteShrinks(now, prefix, ops, key);
  }

  lemma ClearingDone(before: Data, now: Data, prefix: Key, ops: seq<BatchOp>, writes: nat)
    requires Clearing(before, now, prefix, [], ops, writes)
    ensures now - Deleted(ops) == before - Matching(before, prefix)
  {
    ApplyDeletes(now, ops, prefix);
  }

  /** What goes wrong: the write after `writeAt` others fails, and the k-th iterator breaks off after `cut(k)` keys, if
      that is some number. */
  datatype Faults = Faults(writeAt: nat, cut: nat -> Option<nat>)

  /** A batch of deletions is written and emptied, or its write fails. */
  method Flush(db: Database, b: BatchOps, fails: bool, ghost prefix: Key) returns (ok: bool)
    requires b.Valid() && DeletesOnly(b.ops, prefix)
    modifies db, b
    ensures ok <==> !fails
    ensures ok ==> db.data == old(db.data) - Deleted(old(b.ops)) && b.Valid() && b.ops == []
    ensures !ok ==> db.data == old(db.data)
  {
    ApplyDeletes(db.data, b.ops, prefix);
    ok := b.Write(db, fails);
    if ok {
      b.Reset();
    }
  }

  /** Writes a batch whenever it reaches `writeSize` and then starts a new iterator. Exactly the keys with the prefix are
      removed, unless a write or an iterator fails; there are never more writes than such keys, and one. */
  method ClearPrefix(db: Database, prefix: Key, writeSize: int, faults: Faults) returns (ok: bool)
    modifies db
    ensures Shrunk(old(db.data), db.data, prefix)
    ensures ok ==> db.data == old(db.data) - Matching(old(db.data), prefix)
    ensures faults.writeAt > |Matching(old(db.data), prefix)| && (forall k :: faults.cut(k).None?) ==> ok
  {
    var b := new BatchOps();
    var it := NewIteratorWithPrefix(db, prefix);
    var writes, taken := 0, 0;
    while it != [] && faults.cut(writes) != Some(taken)
      invariant b.Valid() && fresh(b) && writes <= faults.writeAt
      invariant Clearing(old(db.data), db.data, prefix, it, b.ops, writes)
      decreases |Matching(db.data, prefix)|, |it|
    {
      ghost var now, key := db.data, it[0];
      CoverNext(db.data, prefix, it, b.ops);
      b.Delete(it[0]);
      it, taken := it[1..], taken + 1;
      if b.size < writeSize {
        continue;
      }
      ghost var rest, ops := it, b.ops;
      DeletingShrinks(old(db.data), now, prefix, ops);
      var written := Flush(db, b, writes == faults.writeAt, prefix);
      if !written || faults.cut(writes) == Some(taken) {
        return false;
      }
      it := NewIteratorWithPrefix(db, prefix);
      ClearingFlushed(old(db.data), now, prefix, rest, ops, writes, key, it);
      writes, taken := writes + 1, 0;
    }
    DeletingShrinks(old(db.data), db.data, prefix, b.ops);
    if it == [] {
      ClearingDone(old(db.data), db.data, prefix, b.ops, writes);
    }
    var written := Flush(db, b, writes == faults.writeAt, prefix);
    return written && faults.cut(writes) != Some(taken);
  }
}
