/** The index of accepted containers, and the database it survives in. */
module Indices {
  import opened Ids
  import opened Numbers
  import opened Packing

  type ContainerID(==, !new)

  datatype Container = Container(id: ContainerID, bytes: seq<Byte>, timestamp: int)

  /** The three disjoint key spaces of one index. */
  datatype Key = NextAcceptedIndexKey | IndexKey(index: seq<Byte>) | ContainerKey(id: ContainerID)

  /** A stored value: plain bytes, or an encoded container. */
  datatype Value = Bytes(bytes: seq<Byte>) | Encoded(container: Container)

  type Data = map<Key, Value>

  const MaxFetchedByRange: nat := 1024

  /** The most containers that a 64-bit counter can count. */
  const Capacity: nat := U64 - 1

  // ---------------------------------------------------------------- what the database must hold

  ghost predicate DistinctIDs(accepted: seq<Container>) {
    forall i, j :: 0 <= i < j < |accepted| ==> accepted[i].id != accepted[j].id
  }

  ghost predicate CounterOk(data: Data, count: nat) {
    if NextAcceptedIndexKey in data then count < U64 && data[NextAcceptedIndexKey] == Bytes(PackUInt64(count))
    else count == 0
  }

  ghost predicate ByIndexOk(data: Data, accepted: seq<Container>)
    requires |accepted| <= Capacity
  {
    && (forall i :: 0 <= i < |accepted| ==>
          IndexKey(PackUInt64(i)) in data && data[IndexKey(PackUInt64(i))] == Encoded(accepted[i]))
    && (forall b :: IndexKey(b) in data ==> exists i :: 0 <= i < |accepted| && b == PackUInt64(i))
  }

  ghost predicate ByIDOk(data: Data, accepted: seq<Container>)
    requires |accepted| <= Capacity
  {
    && (forall i :: 0 <= i < |accepted| ==>
          ContainerKey(accepted[i].id) in data && data[ContainerKey(accepted[i].id)] == Bytes(PackUInt64(i)))
    && (forall id :: ContainerKey(id) in data ==> exists i :: 0 <= i < |accepted| && accepted[i].id == id)
  }

  /** Both maps and the counter agree with the sequence of accepted containers. */
  ghost predicate Holds(data: Data, accepted: seq<Container>) {
    && |accepted| <= Capacity && DistinctIDs(accepted)
    && CounterOk(data, |accepted|) && ByIndexOk(data, accepted) && ByIDOk(data, accepted)
  }

  /** The counter is a machine integer. */
  function Successor(count: Uint64): Uint64 {
    if count == U64 - 1 then 0 else count + 1
  }

  /** What accepting one more container writes. */
  ghost function Appended(data: Data, count: Uint64, c: Container): Data {
    data[IndexKey(PackUInt64(count)) := Encoded(c)]
        [ContainerKey(c.id) := Bytes(PackUInt64(count))]
        [NextAcceptedIndexKey := Bytes(PackUInt64(Successor(count)))]
  }

  lemma WritesAppend(data: Data, count: Uint64, c: Container)
    ensures data + Appended(map[], count, c) == Appended(data, count, c)
  {
  }

  lemma PackInjective(i: Uint64, j: Uint64)
    requires PackUInt64(i) == PackUInt64(j)
    ensures i == j
  {
    PackUInt64RoundTrip(i, []);
    PackUInt64RoundTrip(j, []);
  }

  lemma AppendedByIndex(data: Data, accepted: seq<Container>, c: Container)
    requires |accepted| < Capacity && ByIndexOk(data, accepted)
    ensures ByIndexOk(Appended(data, |accepted|, c), accepted + [c])
  {
    var data', accepted' := Appended(data, |accepted|, c), accepted + [c];
    forall i | 0 <= i < |accepted'|
      ensures IndexKey(PackUInt64(i)) in data' && data'[IndexKey(PackUInt64(i))] == Encoded(accepted'[i])
    {
      if PackUInt64(i) == PackUInt64(|accepted|) { PackInjective(i, |accepted|); }
    }
    forall b | IndexKey(b) in data' ensures exists i :: 0 <= i < |accepted'| && b == PackUInt64(i) {
      if b == PackUInt64(|accepted|) {
        assert |accepted| < |accepted'|;
      } else {
        var i :| 0 <= i < |accepted| && b == PackUInt64(i);
      }
    }
  }

  lemma AppendedByID(data: Data, accepted: seq<Container>, c: Container)
    requires |accepted| < Capacity && ByIDOk(data, accepted) && ContainerKey(c.id) !in data
    ensures ByIDOk(Appended(data, |accepted|, c), accepted + [c])
  {
    var data', accepted' := Appended(data, |accepted|, c), accepted + [c];
    forall i | 0 <= i < |accepted'|
      ensures ContainerKey(accepted'[i].id) in data' && data'[ContainerKey(accepted'[i].id)] == Bytes(PackUInt64(i))
    {
      if i < |accepted| {
        assert accepted'[i] == accepted[i] && ContainerKey(accepted[i].id) in data;
      }
    }
    assert accepted'[|accepted|] == c;
    forall id | ContainerKey(id) in data' ensures exists i :: 0 <= i < |accepted'| && accepted'[i].id == id {
      if id != c.id {
        var i :| 0 <= i < |accepted| && accepted[i].id == id;
        assert accepted'[i].id == id;
      }
    }
  }

  lemma AppendedDistinct(data: Data, accepted: seq<Container>, c: Container)
    requires |accepted| <= Capacity && DistinctIDs(accepted) && ByIDOk(data, accepted) && ContainerKey(c.id) !in data
    ensures DistinctIDs(accepted + [c])
  {
    forall i | 0 <= i < |accepted| ensures accepted[i].id != c.id {
      assert ContainerKey(accepted[i].id) in data;
    }
  }

  lemma AppendedHolds(data: Data, accepted: seq<Container>, c: Container)
    requires Holds(data, accepted) && ContainerKey(c.id) !in data && |accepted| < Capacity
    ensures Holds(Appended(data, |accepted|, c), accepted + [c])
  {
    AppendedByIndex(data, accepted, c);
    AppendedByID(data, accepted, c);
    AppendedDistinct(data, accepted, c);
  }

  ghost predicate Known(accepted: seq<Container>, id: ContainerID) {
    exists i :: 0 <= i < |accepted| && accepted[i].id == id
  }

  // ---------------------------------------------------------------- the objects

  /** The database below the index; it outlives the process. */
  class Store {
    var data: Data
    ghost var accepted: seq<Container>

    constructor ()
      ensures data == map[] && accepted == []
    {
      data, accepted := map[], [];
    }

    ghost predicate Consistent()
      reads this
    {
      Holds(data, accepted)
    }
  }

  /** Where an Accept call goes wrong, if it does. A crash is the same as an error: nobody calls this index again. */
  datatype Fault =
    | NoFault
    | Stops(step: nat)   // before any effect on the database: at the lookup (0), the encoding (1) or a write (2, 3, 4)
    | CommitLost         // the commit fails
    | CommitKept         // the commit takes effect, but that is not reported

  /** The sequence after an Accept call. */
  ghost function AfterAccept(accepted: seq<Container>, c: Container, fault: Fault): seq<Container> {
    if Known(accepted, c.id) then accepted
    else if fault.NoFault? || fault.CommitKept? then accepted + [c]
    else accepted
  }

  datatype Read<T> = Found(value: T) | NotFound | NoneAccepted | NoContainerAtIndex | InvalidCount | StartTooHigh
    | Blank(count: nat)   // that many zero values

  class Index {
    const baseDB: Store
    var mem: Data                 // writes not committed yet
    var nextAcceptedIndex: Uint64

    ghost predicate Valid()
      reads this, baseDB
    {
      baseDB.Consistent() && mem == map[] && nextAcceptedIndex == |baseDB.accepted|
    }

    /** Opening reads the counter, which is missing only in a new database. */
    constructor (baseDB: Store)
      requires baseDB.Consistent()
      ensures Valid() && this.baseDB == baseDB
    {
      this.baseDB := baseDB;
      mem := map[];
      if NextAcceptedIndexKey in baseDB.data {
        PackUInt64RoundTrip(|baseDB.accepted|, []);
        nextAcceptedIndex := ParseUInt64(baseDB.data[NextAcceptedIndexKey].bytes).value;
      } else {
        nextAcceptedIndex := 0;
      }
    }

    function Get(key: Key): Option<Value>
      reads this, baseDB
    {
      if key in mem then Some(mem[key]) else if key in baseDB.data then Some(baseDB.data[key]) else None
    }

    /** While the counter does not wrap around: indexes a container unless it already is; all three writes reach the
        database together or not at all. */
    method Accept(id: ContainerID, bytes: seq<Byte>, timestamp: int, fault: Fault) returns (ok: bool)
      requires Valid()
      modifies this, baseDB
      ensures |old(baseDB.accepted)| < U64 - 1 ==> baseDB.Consistent() && (ok ==> Valid())
      ensures |old(baseDB.accepted)| == U64 - 1 && ok && !Known(old(baseDB.accepted), id) ==>
                NextAcceptedIndexKey in baseDB.data && baseDB.data[NextAcceptedIndexKey] == Bytes(PackUInt64(0))
      ensures baseDB.accepted ==
              if !Known(old(baseDB.accepted), id) && (fault.NoFault? || fault.CommitKept?)
              then old(baseDB.accepted) + [Container(id, bytes, timestamp)] else old(baseDB.accepted)
      ensures ok <==> fault.NoFault? || (Known(old(baseDB.accepted), id) && fault != Stops(0))
    {
      if fault == Stops(0) {
        return false;
      }
      if Get(ContainerKey(id)).Some? {
        return true;
      }
      assert !Known(baseDB.accepted, id);
      ok := Append(Container(id, bytes, timestamp), fault);
    }

    /** The part of Accept that handles a new container. */
    method Append(container: Container, fault: Fault) returns (ok: bool)
      requires Valid() && ContainerKey(container.id) !in baseDB.data
      modifies this, baseDB
      ensures |old(baseDB.accepted)| < U64 - 1 ==> baseDB.Consistent() && (ok ==> Valid())
      ensures ok ==> baseDB.data == Appended(old(baseDB.data), |old(baseDB.accepted)|, container)
      ensures baseDB.accepted ==
              if fault.NoFault? || fault.CommitKept? then old(baseDB.accepted) + [container] else old(baseDB.accepted)
      ensures ok <==> fault.NoFault?
    {
      if fault.Stops? && fault.step <= 2 {
        return false;
      }
      mem := mem[IndexKey(PackUInt64(nextAcceptedIndex)) := Encoded(container)];
      if fault == Stops(3) {
        return false;
      }
      mem := mem[ContainerKey(container.id) := Bytes(PackUInt64(nextAcceptedIndex))];
      nextAcceptedIndex := Successor(nextAcceptedIndex);
      if fault.Stops? {
        return false;
      }
      mem := mem[NextAcceptedIndexKey := Bytes(PackUInt64(nextAcceptedIndex))];
      if fault.CommitLost? {
        return false;
      }
      WritesAppend(baseDB.data, |baseDB.accepted|, container);
      if |baseDB.accepted| < Capacity {
        AppendedHolds(baseDB.data, baseDB.accepted, container);
      }
      Commit(container);
      return fault.NoFault?;
    }

    method Commit(ghost c: Container)
      modifies this`mem, baseDB
      ensures baseDB.data == old(baseDB.data) + old(mem) && mem == map[]
      ensures baseDB.accepted == old(baseDB.accepted) + [c]
    {
      baseDB.data := baseDB.data + mem;
      baseDB.accepted := baseDB.accepted + [c];
      mem := map[];
    }

    // -------------------------------------------------------------- reads

    function LastAcceptedIndex(): (r: (Uint64, bool))
      reads this
      ensures nextAcceptedIndex > 0 ==> r == (nextAcceptedIndex - 1, true)
      ensures nextAcceptedIndex == 0 ==> !r.1
    {
      (if nextAcceptedIndex == 0 then U64 - 1 else nextAcceptedIndex - 1, nextAcceptedIndex != 0)
    }

    method GetContainerByIndex(index: Uint64) returns (r: Read<Container>)
      requires Valid()
      ensures r == if index < |baseDB.accepted| then Found(baseDB.accepted[index]) else NoContainerAtIndex
    {
      var (lastAcceptedIndex, ok) := LastAcceptedIndex();
      if !ok || index > lastAcceptedIndex {
        return NoContainerAtIndex;
      }
      var value := Get(IndexKey(PackUInt64(index)));
      return Found(value.value.container);
    }

    /** The containers from `startIndex` on, at most `numToFetch` of them, unless the sum of the two wraps around: then
        the loop does not run and as many zero values are returned as were asked for. */
    method GetContainerRange(startIndex: Uint64, numToFetch: Uint64) returns (r: Read<seq<Container>>)
      requires Valid()
      ensures var n := |baseDB.accepted|;
              r == if numToFetch == 0 || numToFetch > 1024 then InvalidCount
                   else if n == 0 then NoneAccepted
                   else if startIndex >= n then StartTooHigh
                   else if startIndex + numToFetch > U64 then Blank(numToFetch)
                   else Found(baseDB.accepted[startIndex..if startIndex + numToFetch < n then startIndex + numToFetch else n])
    {
      if numToFetch == 0 || numToFetch > MaxFetchedByRange {
        return InvalidCount;
      }
      var (lastAcceptedIndex, ok) := LastAcceptedIndex();
      if !ok {
        return NoneAccepted;
      } else if startIndex > lastAcceptedIndex {
        return StartTooHigh;
      }
      var sum := startIndex + numToFetch - 1;
      var end: Uint64 := if sum < U64 then sum else sum - U64;
      var lastIndex := if end < lastAcceptedIndex then end else lastAcceptedIndex;
      if lastIndex < startIndex {
        return Blank(numToFetch);  // lastIndex - startIndex + 1, as a machine integer
      }
      var containers := ReadContainers(startIndex, lastIndex);
      return Found(containers);
    }

    method ReadContainers(startIndex: Uint64, lastIndex: Uint64) returns (containers: seq<Container>)
      requires Valid() && startIndex <= lastIndex < |baseDB.accepted|
      ensures containers == baseDB.accepted[startIndex..lastIndex + 1]
    {
      containers := [];
      var j := startIndex;
      while j <= lastIndex
        invariant startIndex <= j <= lastIndex + 1 && containers == baseDB.accepted[startIndex..j]
      {
        var c := GetContainerByIndex(j);
        containers := containers + [c.value];
        j := j + 1;
      }
    }

    method GetIndex(id: ContainerID) returns (r: Read<Uint64>)
      requires Valid()
      ensures r == NotFound <==> !Known(baseDB.accepted, id)
      ensures r == NotFound || (r.Found? && r.value < |baseDB.accepted| && baseDB.accepted[r.value].id == id)
    {
      var value := Get(ContainerKey(id));
      if value.None? {
        return NotFound;
      }
      ghost var i :| 0 <= i < |baseDB.accepted| && baseDB.accepted[i].id == id;
      PackUInt64RoundTrip(i, []);
      return Found(ParseUInt64(value.value.bytes).value);
    }

    method GetContainerByID(id: ContainerID) returns (r: Read<Container>)
      requires Valid()
      ensures r == NotFound <==> !Known(baseDB.accepted, id)
      ensures r == NotFound || (r.Found? && r.value in baseDB.accepted && r.value.id == id)
    {
      var indexBytes := Get(ContainerKey(id));
      if indexBytes.None? {
        return NotFound;
      }
      ghost var i :| 0 <= i < |baseDB.accepted| && baseDB.accepted[i].id == id;
      var value := Get(IndexKey(indexBytes.value.bytes));
      return Found(value.value.container);
    }

    method GetLastAccepted() returns (r: Read<Container>)
      requires Valid()
      ensures r == if baseDB.accepted == [] then NoneAccepted else Found(baseDB.accepted[|baseDB.accepted| - 1])
    {
      var (lastAcceptedIndex, any) := LastAcceptedIndex();
      if !any {
        return NoneAccepted;
      }
      r := GetContainerByIndex(lastAcceptedIndex);
    }
  }

  // ---------------------------------------------------------------- whole histories

  datatype Command = AcceptCommand(container: Container, fault: Fault) | Restart

  /** The sequence after a series of calls, faults and restarts. */
  ghost function Outcome(accepted: seq<Container>, script: seq<Command>): seq<Container> {
    if script == [] then accepted
    else
      var before, last := Outcome(accepted, script[..|script| - 1]), script[|script| - 1];
      if last.Restart? then before else AfterAccept(before, last.container, last.fault)
  }

  lemma {:induction false} OutcomeBounded(accepted: seq<Container>, script: seq<Command>)
    ensures |Outcome(accepted, script)| <= |accepted| + |script|
  {
    if script != [] { OutcomeBounded(accepted, script[..|script| - 1]); }
  }

  /** Nothing that was accepted is ever lost, changed or moved, and nothing is accepted twice. */
  lemma {:induction false} OutcomeAppendOnly(accepted: seq<Container>, script: seq<Command>)
    requires DistinctIDs(accepted)
    ensures accepted <= Outcome(accepted, script) && DistinctIDs(Outcome(accepted, script))
  {
    if script != [] { OutcomeAppendOnly(accepted, script[..|script| - 1]); }
  }

  /** A container whose Accept call succeeded at some point is known from then on. */
  lemma {:induction false} OutcomeKeeps(accepted: seq<Container>, script: seq<Command>, k: nat)
    requires k < |script| && script[k].AcceptCommand? && script[k].fault.NoFault?
    ensures Known(Outcome(accepted, script), script[k].container.id)
  {
    var front, last := script[..|script| - 1], script[|script| - 1];
    var before := Outcome(accepted, front);
    if k < |front| {
      OutcomeKeeps(accepted, front, k);
      if last.AcceptCommand? && !Known(before, last.container.id) {
        var i :| 0 <= i < |before| && before[i].id == script[k].container.id;
        assert (before + [last.container])[i].id == script[k].container.id;
      }
    } else if !Known(before, last.container.id) {
      assert (before + [last.container])[|before|].id == last.container.id;
    }
  }

  lemma {:induction false} OutcomeFrom(accepted: seq<Container>, script: seq<Command>, k: nat)
    requires k <= |script|
    ensures Outcome(accepted, script[..k]) <= Outcome(accepted, script)
    decreases |script| - k
  {
    if k == |script| {
      assert script[..k] == script;
    } else {
      assert script[..k + 1][..k] == script[..k];
      OutcomeFrom(accepted, script, k + 1);
    }
  }

  /** A container that was new when its Accept call took effect is in the sequence from then on, whole and at the index
      that was next. */
  lemma OutcomeStores(accepted: seq<Container>, script: seq<Command>, k: nat)
    requires k < |script| && script[k].AcceptCommand?
    requires script[k].fault.NoFault? || script[k].fault.CommitKept?
    requires !Known(Outcome(accepted, script[..k]), script[k].container.id)
    ensures var index, outcome := |Outcome(accepted, script[..k])|, Outcome(accepted, script);
            index < |outcome| && outcome[index] == script[k].container
  {
    assert script[..k + 1][..k] == script[..k];
    OutcomeFrom(accepted, script, k + 1);
  }

  /** A call that fails before its commit, and a call for a known container, leave the sequence as it was. */
  lemma OutcomeSkips(accepted: seq<Container>, script: seq<Command>, c: Container, fault: Fault)
    requires fault.Stops? || fault.CommitLost? || Known(Outcome(accepted, script), c.id)
    ensures Outcome(accepted, script + [AcceptCommand(c, fault)]) == Outcome(accepted, script)
  {
    assert (script + [AcceptCommand(c, fault)])[..|script|] == script;
  }

  /** Whatever happens, the database agrees with the sequence; after an error the index is opened again. */
  method RunScript(store: Store, script: seq<Command>)
    requires store.Consistent() && |store.accepted| + |script| < U64
    modifies store
    ensures store.Consistent() && store.accepted == Outcome(old(store.accepted), script)
  {
    var index := new Index(store);
    for i := 0 to |script|
      invariant index.Valid() && index.baseDB == store && fresh(index)
      invariant store.accepted == Outcome(old(store.accepted), script[..i])
    {
      assert script[..i + 1][..i] == script[..i];
      OutcomeBounded(old(store.accepted), script[..i]);
      var ok := false;
      if script[i].AcceptCommand? {
        var c := script[i].container;
        ok := index.Accept(c.id, c.bytes, c.timestamp, script[i].fault);
      }
      if !ok {
        index := new Index(store);
      }
    }
    assert script[..|script|] == script;
  }
}
