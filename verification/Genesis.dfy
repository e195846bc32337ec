/** Genesis allocations: configuration, supply and the division of the staked funds among the initial stakers. */
module Genesis {
  import opened Numbers
  import opened Sealing

  type Address = nat  // a 20-byte address, read as a number

  datatype LockedAmount = LockedAmount(amount: Uint64, locktime: Uint64)

  datatype Allocation = Allocation(
    ethAddr: Address, avaxAddr: Address, initialAmount: Uint64, unlockSchedule: seq<LockedAmount>)

  /** Addition and subtraction that wrap around. */
  function Add64(a: Uint64, b: Uint64): Uint64 {
    if a + b < U64 then a + b else a + b - U64
  }

  function Sub64(a: Uint64, b: Uint64): Uint64 {
    if b <= a then a - b else a - b + U64
  }

  // ---------------------------------------------------------------- amounts

  ghost function Locked(schedule: seq<LockedAmount>): nat {
    if schedule == [] then 0 else Locked(schedule[..|schedule| - 1]) + schedule[|schedule| - 1].amount
  }

  ghost function TotalLocked(allocations: seq<Allocation>): nat {
    if allocations == [] then 0
    else TotalLocked(allocations[..|allocations| - 1]) + Locked(allocations[|allocations| - 1].unlockSchedule)
  }

  // ---------------------------------------------------------------- units

  /** On whose account, and until when, one unit of the currency is locked. */
  datatype Owner = Owner(ethAddr: Address, avaxAddr: Address, locktime: Uint64)

  ghost function Repeat(o: Owner, amount: nat): seq<Owner> {
    seq(amount, _ => o)
  }

  /** The locked units of one allocation, one by one and in order. */
  ghost function ScheduleUnits(eth: Address, avax: Address, schedule: seq<LockedAmount>): seq<Owner> {
    if schedule == [] then []
    else
      var last := schedule[|schedule| - 1];
      ScheduleUnits(eth, avax, schedule[..|schedule| - 1]) + Repeat(Owner(eth, avax, last.locktime), last.amount)
  }

  ghost function AllocationUnits(a: Allocation): seq<Owner> {
    ScheduleUnits(a.ethAddr, a.avaxAddr, a.unlockSchedule)
  }

  ghost function Units(allocations: seq<Allocation>): seq<Owner> {
    if allocations == [] then []
    else Units(allocations[..|allocations| - 1]) + AllocationUnits(allocations[|allocations| - 1])
  }

  /** How much a schedule locks until `locktime`. */
  ghost function ScheduledFor(schedule: seq<LockedAmount>, locktime: Uint64): nat {
    if schedule == [] then 0
    else
      var last := schedule[|schedule| - 1];
      ScheduledFor(schedule[..|schedule| - 1], locktime) + if last.locktime == locktime then last.amount else 0
  }

  /** How much is locked on this account until this time. */
  ghost function AmountFor(allocations: seq<Allocation>, o: Owner): nat {
    if allocations == [] then 0
    else
      var last := allocations[|allocations| - 1];
      AmountFor(allocations[..|allocations| - 1], o) +
      if last.ethAddr == o.ethAddr && last.avaxAddr == o.avaxAddr then ScheduledFor(last.unlockSchedule, o.locktime) else 0
  }

  ghost function AllAmountsFor(groups: seq<seq<Allocation>>, o: Owner): nat {
    if groups == [] then 0 else AllAmountsFor(groups[..|groups| - 1], o) + AmountFor(groups[|groups| - 1], o)
  }

  lemma {:induction false} RepeatCount(o: Owner, amount: nat, q: Owner)
    ensures multiset(Repeat(o, amount))[q] == if q == o then amount else 0
  {
    if amount > 0 {
      RepeatCount(o, amount - 1, q);
      assert Repeat(o, amount) == Repeat(o, amount - 1) + [o];
    }
  }

  lemma {:induction false} ScheduleUnitsCount(eth: Address, avax: Address, schedule: seq<LockedAmount>, o: Owner)
    ensures multiset(ScheduleUnits(eth, avax, schedule))[o] ==
            if eth == o.ethAddr && avax == o.avaxAddr then ScheduledFor(schedule, o.locktime) else 0
  {
    if schedule != [] {
      var last := schedule[|schedule| - 1];
      ScheduleUnitsCount(eth, avax, schedule[..|schedule| - 1], o);
      RepeatCount(Owner(eth, avax, last.locktime), last.amount, o);
    }
  }

  /** An owner has as many units as is locked on its account. */
  lemma {:induction false} UnitsCount(allocations: seq<Allocation>, o: Owner)
    ensures multiset(Units(allocations))[o] == AmountFor(allocations, o)
  {
    if allocations != [] {
      var last := allocations[|allocations| - 1];
      UnitsCount(allocations[..|allocations| - 1], o);
      ScheduleUnitsCount(last.ethAddr, last.avaxAddr, last.unlockSchedule, o);
    }
  }

  lemma {:induction false} AllUnitsCount(groups: seq<seq<Allocation>>, o: Owner)
    ensures multiset(AllUnits(groups))[o] == AllAmountsFor(groups, o)
  {
    if groups != [] {
      AllUnitsCount(groups[..|groups| - 1], o);
      UnitsCount(groups[|groups| - 1], o);
    }
  }

  lemma {:induction false} ScheduleUnitsLength(eth: Address, avax: Address, schedule: seq<LockedAmount>)
    ensures |ScheduleUnits(eth, avax, schedule)| == Locked(schedule)
  {
    if schedule != [] { ScheduleUnitsLength(eth, avax, schedule[..|schedule| - 1]); }
  }

  lemma {:induction false} UnitsLength(allocations: seq<Allocation>)
    ensures |Units(allocations)| == TotalLocked(allocations)
  {
    if allocations != [] {
      var last := allocations[|allocations| - 1];
      UnitsLength(allocations[..|allocations| - 1]);
      ScheduleUnitsLength(last.ethAddr, last.avaxAddr, last.unlockSchedule);
    }
  }

  lemma ScheduleAppend(eth: Address, avax: Address, schedule: seq<LockedAmount>, u: LockedAmount)
    ensures ScheduleUnits(eth, avax, schedule + [u]) ==
            ScheduleUnits(eth, avax, schedule) + Repeat(Owner(eth, avax, u.locktime), u.amount)
    ensures Locked(schedule + [u]) == Locked(schedule) + u.amount
  {
    assert (schedule + [u])[..|schedule|] == schedule;
  }

  lemma UnitsAppend(allocations: seq<Allocation>, a: Allocation)
    ensures Units(allocations + [a]) == Units(allocations) + AllocationUnits(a)
    ensures TotalLocked(allocations + [a]) == TotalLocked(allocations) + Locked(a.unlockSchedule)
  {
    assert (allocations + [a])[..|allocations|] == allocations;
  }

  lemma {:induction false} LockedMonotone(schedule: seq<LockedAmount>, i: nat)
    requires i <= |schedule|
    ensures Locked(schedule[..i]) <= Locked(schedule)
    decreases |schedule| - i
  {
    if i < |schedule| {
      assert schedule[..i + 1][..i] == schedule[..i];
      LockedMonotone(schedule, i + 1);
    } else {
      assert schedule[..i] == schedule;
    }
  }

  lemma {:induction false} TotalMonotone(allocations: seq<Allocation>, i: nat)
    requires i <= |allocations|
    ensures TotalLocked(allocations[..i]) <= TotalLocked(allocations)
    decreases |allocations| - i
  {
    if i < |allocations| {
      assert allocations[..i + 1][..i] == allocations[..i];
      TotalMonotone(allocations, i + 1);
    } else {
      assert allocations[..i] == allocations;
    }
  }

  // ---------------------------------------------------------------- splitting

  ghost function AllUnits(groups: seq<seq<Allocation>>): seq<Owner> {
    if groups == [] then [] else AllUnits(groups[..|groups| - 1]) + Units(groups[|groups| - 1])
  }

  ghost predicate AllOfWeight(groups: seq<seq<Allocation>>, weight: nat) {
    forall i :: 0 <= i < |groups| ==> |Units(groups[i])| == weight
  }

  lemma CloseGroup(groups: seq<seq<Allocation>>, g: seq<Allocation>, weight: nat)
    requires AllOfWeight(groups, weight)
    ensures AllUnits(groups + [g]) == AllUnits(groups) + Units(g)
    ensures |Units(g)| == weight ==> AllOfWeight(groups + [g], weight)
  {
    assert (groups + [g])[..|groups|] == groups;
  }

  lemma {:induction false} WeightOfAll(groups: seq<seq<Allocation>>, weight: nat)
    requires AllOfWeight(groups, weight)
    ensures |AllUnits(groups)| == |groups| * weight
  {
    if groups != [] {
      WeightOfAll(groups[..|groups| - 1], weight);
      assert |AllUnits(groups)| == |AllUnits(groups[..|groups| - 1])| + weight;
      OneMore(|groups| - 1, weight);
    }
  }

  lemma OneMore(n: nat, weight: nat)
    ensures (n + 1) * weight == n * weight + weight
  {
  }

  lemma AddModulo(sum: nat, a: Uint64)
    ensures Add64(sum % U64, a) == (sum + a) % U64
  {
    var q, r := sum / U64, sum % U64;
    assert sum + a == q * U64 + (r + a);
    if r + a < U64 {
      ModuloUnique(sum + a, q, r + a);
    } else {
      ModuloUnique(sum + a, q + 1, r + a - U64);
    }
  }

  lemma ModuloUnique(x: nat, q: nat, r: nat)
    requires x == q * U64 + r && r < U64
    ensures x % U64 == r
  {
  }

  /** The sum of all locked amounts, modulo 2^64. */
  method SumLocked(allocations: seq<Allocation>) returns (total: Uint64)
    ensures total == TotalLocked(allocations) % U64
  {
    total := 0;
    for i := 0 to |allocations|
      invariant total == TotalLocked(allocations[..i]) % U64
    {
      var schedule := allocations[i].unlockSchedule;
      for j := 0 to |schedule|
        invariant total == (TotalLocked(allocations[..i]) + Locked(schedule[..j])) % U64
      {
        assert schedule[..j + 1][..j] == schedule[..j];
        AddModulo(TotalLocked(allocations[..i]) + Locked(schedule[..j]), schedule[j].amount);
        total := Add64(total, schedule[j].amount);
      }
      assert schedule[..|schedule|] == schedule;
      assert allocations[..i + 1][..i] == allocations[..i];
    }
    assert allocations[..|allocations|] == allocations;
  }

  /** What has been handed out so far: the closed groups, the open group, and the part of the current allocation
      that goes to the open group. Nothing wraps around as long as the total fits. */
  ghost predicate HandedOutNow(closed: seq<seq<Allocation>>, open: seq<Allocation>, current: Allocation,
                            openAmount: nat, weight: nat, units: seq<Owner>) {
    && AllOfWeight(closed, weight)
    && AllUnits(closed) + (Units(open) + AllocationUnits(current)) == units
    && openAmount == |Units(open) + AllocationUnits(current)|
  }

  ghost predicate HandedOut(closed: seq<seq<Allocation>>, open: seq<Allocation>, current: Allocation,
                            openAmount: nat, weight: nat, units: seq<Owner>) {
    forall k {:trigger Opened(k)} :: Opened(k) ==> HandedOutNow(closed, open, current, openAmount, weight, units)
  }

  lemma HandOutNothing(current: Allocation, weight: nat)
    requires current.unlockSchedule == []
    ensures HandedOut([], [], current, 0, weight, [])
  {
  }

  lemma OpenAmountFits(closed: seq<seq<Allocation>>, open: seq<Allocation>, current: Allocation,
                       openAmount: nat, weight: nat, units: seq<Owner>)
    requires HandedOut(closed, open, current, openAmount, weight, units)
    ensures openAmount <= |units|
  {
    assert Opened(0);
  }

  lemma HandOutPiece(closed: seq<seq<Allocation>>, open: seq<Allocation>, current: Allocation,
                     openAmount: nat, weight: nat, units: seq<Owner>, piece: LockedAmount)
    requires HandedOut(closed, open, current, openAmount, weight, units)
    ensures var owner := Owner(current.ethAddr, current.avaxAddr, piece.locktime);
            HandedOut(closed, open, current.(unlockSchedule := current.unlockSchedule + [piece]),
                      openAmount + piece.amount, weight, units + Repeat(owner, piece.amount))
  {
    assert Opened(0);
    ScheduleAppend(current.ethAddr, current.avaxAddr, current.unlockSchedule, piece);
  }

  lemma HandOutGroup(closed: seq<seq<Allocation>>, open: seq<Allocation>, current: Allocation,
                     openAmount: nat, weight: nat, units: seq<Owner>)
    requires HandedOut(closed, open, current, openAmount, weight, units) && openAmount == weight
    ensures HandedOut(closed + [open + [current]], [], current.(unlockSchedule := []), 0, weight, units)
  {
    assert Opened(0);
    UnitsAppend(open, current);
    CloseGroup(closed, open + [current], weight);
  }

  lemma HandOutAllocation(closed: seq<seq<Allocation>>, open: seq<Allocation>, current: Allocation, next: Allocation,
                          openAmount: nat, weight: nat, units: seq<Owner>)
    requires HandedOut(closed, open, current, openAmount, weight, units) && next.unlockSchedule == []
    ensures HandedOut(closed, if |current.unlockSchedule| > 0 then open + [current] else open, next,
                      openAmount, weight, units)
  {
    assert Opened(0);
    UnitsAppend(open, current);
  }

  lemma RepeatAdd(units: seq<Owner>, o: Owner, a: nat, b: nat)
    ensures units + Repeat(o, a) + Repeat(o, b) == units + Repeat(o, a + b)
  {
  }

  /** The state of the division: closed groups, open group and its amount, and the piece of an allocation in hand. */
  datatype Division = Division(
    closed: seq<seq<Allocation>>, open: seq<Allocation>, openAmount: Uint64, current: Allocation)

  /** The division has handed out exactly `units`, and overfills the open group only if it is the last one. */
  ghost predicate Exact(d: Division, units: seq<Owner>, weight: nat, numSplits: nat) {
    && HandedOut(d.closed, d.open, d.current, d.openAmount, weight, units)
    && (|d.closed| < numSplits - 1 ==> d.openAmount <= weight)
    && (d.closed != [] ==> units != [])
    && AllSpent(d)
  }

  /** Initial amounts go to the X-chain, so the pieces have none left. */
  ghost predicate Spent(allocations: seq<Allocation>) {
    forall i :: 0 <= i < |allocations| ==> allocations[i].initialAmount == 0
  }

  ghost predicate AllSpent(d: Division) {
    d.current.initialAmount == 0 && Spent(d.open) && forall i :: 0 <= i < |d.closed| ==> Spent(d.closed[i])
  }

  /** In the middle of handing out `total` units to `owner`, of which `amount` are left. */
  ghost predicate Filling(d: Division, units: seq<Owner>, owner: Owner, total: nat, amount: nat, weight: nat, numSplits: nat) {
    && amount <= total && |units| + total < U64
    && owner.ethAddr == d.current.ethAddr && owner.avaxAddr == d.current.avaxAddr
    && HandedOut(d.closed, d.open, d.current, d.openAmount, weight, units + Repeat(owner, total - amount))
    && (|d.closed| < numSplits - 1 ==> d.openAmount <= weight)
    && AllSpent(d) && (d.closed == [] || units != [] || total > 0)
  }

  function WithPiece(a: Allocation, piece: LockedAmount): Allocation {
    a.(unlockSchedule := a.unlockSchedule + [piece])
  }

  /** The piece fills the open group, which is closed. */
  function CloseWith(d: Division, piece: LockedAmount): Division {
    Division(d.closed + [d.open + [WithPiece(d.current, piece)]], [], 0, d.current.(unlockSchedule := []))
  }

  /** The piece goes to the open group. */
  function GoOnWith(d: Division, piece: LockedAmount): Division {
    d.(current := WithPiece(d.current, piece), openAmount := Add64(d.openAmount, piece.amount))
  }

  /** While handing out, no sum wraps around. */
  lemma FillFits(d: Division, units: seq<Owner>, owner: Owner, total: nat, amount: Uint64, weight: nat, numSplits: nat)
    requires Filling(d, units, owner, total, amount, weight, numSplits)
    ensures d.openAmount + amount < U64
  {
    var handed := units + Repeat(owner, total - amount);
    assert |handed| == |units| + total - amount;
    OpenAmountFits(d.closed, d.open, d.current, d.openAmount, weight, handed);
  }

  /** Filling the open group to its weight hands out the piece's units. */
  lemma CloseHandsOut(d: Division, handed: seq<Owner>, piece: LockedAmount, weight: nat)
    requires HandedOut(d.closed, d.open, d.current, d.openAmount, weight, handed)
    requires d.openAmount + piece.amount == weight
    ensures var d', owner := CloseWith(d, piece), Owner(d.current.ethAddr, d.current.avaxAddr, piece.locktime);
            HandedOut(d'.closed, d'.open, d'.current, 0, weight, handed + Repeat(owner, piece.amount))
  {
    var owner := Owner(d.current.ethAddr, d.current.avaxAddr, piece.locktime);
    HandOutPiece(d.closed, d.open, d.current, d.openAmount, weight, handed, piece);
    HandOutGroup(d.closed, d.open, WithPiece(d.current, piece), weight, weight, handed + Repeat(owner, piece.amount));
  }

  lemma CloseSpends(d: Division, piece: LockedAmount)
    requires AllSpent(d)
    ensures AllSpent(CloseWith(d, piece))
  {
  }

  lemma FillAmounts(openAmount: Uint64, amount: Uint64, weight: Uint64)
    requires openAmount + amount < U64 && openAmount <= weight && Add64(openAmount, amount) > weight
    ensures var toAdd := weight - openAmount;
            Sub64(weight, openAmount) == toAdd <= amount && Sub64(amount, toAdd) == amount - toAdd
  {
  }

  lemma FillGroup(d: Division, units: seq<Owner>, owner: Owner, total: nat, amount: Uint64, weight: Uint64, numSplits: nat)
    requires Filling(d, units, owner, total, amount, weight, numSplits)
    requires |d.closed| < numSplits - 1 && Add64(d.openAmount, amount) > weight
    ensures var toAdd := Sub64(weight, d.openAmount);
            Filling(CloseWith(d, LockedAmount(toAdd, owner.locktime)), units, owner, total, Sub64(amount, toAdd), weight,
                    numSplits)
  {
    FillFits(d, units, owner, total, amount, weight, numSplits);
    FillAmounts(d.openAmount, amount, weight);
    var toAdd := weight - d.openAmount;
    var piece := LockedAmount(toAdd, owner.locktime);
    CloseHandsOut(d, units + Repeat(owner, total - amount), piece, weight);
    CloseSpends(d, piece);
    RepeatAdd(units, owner, total - amount, toAdd);
  }

  lemma FillRest(d: Division, units: seq<Owner>, owner: Owner, total: nat, amount: Uint64, weight: nat, numSplits: nat)
    requires Filling(d, units, owner, total, amount, weight, numSplits)
    requires Add64(d.openAmount, amount) <= weight || |d.closed| >= numSplits - 1
    ensures amount == 0 ==> Exact(d, units + Repeat(owner, total), weight, numSplits)
    ensures Exact(GoOnWith(d, LockedAmount(amount, owner.locktime)), units + Repeat(owner, total), weight, numSplits)
  {
    FillFits(d, units, owner, total, amount, weight, numSplits);
    var handed := units + Repeat(owner, total - amount);
    HandOutPiece(d.closed, d.open, d.current, d.openAmount, weight, handed, LockedAmount(amount, owner.locktime));
    RepeatAdd(units, owner, total - amount, amount);
  }

  lemma FillStart(d: Division, units: seq<Owner>, owner: Owner, total: nat, weight: nat, numSplits: nat)
    requires Exact(d, units, weight, numSplits) && |units| + total < U64
    requires owner.ethAddr == d.current.ethAddr && owner.avaxAddr == d.current.avaxAddr
    ensures Filling(d, units, owner, total, total, weight, numSplits)
  {
    assert units + Repeat(owner, 0) == units;
  }

  /** Hands out one locked amount, closing groups as they fill up. */
  method SplitUnlock(d0: Division, unlock0: LockedAmount, weight: Uint64, numSplits: nat, ghost units: seq<Owner>)
    returns (d: Division)
    requires |d0.closed| < numSplits
    ensures |d.closed| < numSplits
    ensures d.current.ethAddr == d0.current.ethAddr && d.current.avaxAddr == d0.current.avaxAddr
    ensures Exact(d0, units, weight, numSplits) && |units| + unlock0.amount < U64 ==>
              var owner := Owner(d0.current.ethAddr, d0.current.avaxAddr, unlock0.locktime);
              Exact(d, units + Repeat(owner, unlock0.amount), weight, numSplits)
  {
    ghost var exact := Exact(d0, units, weight, numSplits) && |units| + unlock0.amount < U64;
    ghost var owner := Owner(d0.current.ethAddr, d0.current.avaxAddr, unlock0.locktime);
    d := d0;
    var amount: Uint64 := unlock0.amount;
    if exact {
      FillStart(d, units, owner, amount, weight, numSplits);
    }
    while Add64(d.openAmount, amount) > weight && |d.closed| < numSplits - 1
      invariant |d.closed| < numSplits
      invariant d.current.ethAddr == d0.current.ethAddr && d.current.avaxAddr == d0.current.avaxAddr
      invariant exact ==> Filling(d, units, owner, unlock0.amount, amount, weight, numSplits)
      decreases numSplits - |d.closed|
    {
      if exact {
        FillGroup(d, units, owner, unlock0.amount, amount, weight, numSplits);
      }
      var amountToAdd := Sub64(weight, d.openAmount);
      d := CloseWith(d, LockedAmount(amountToAdd, unlock0.locktime));
      amount := Sub64(amount, amountToAdd);
    }
    if exact {
      FillRest(d, units, owner, unlock0.amount, amount, weight, numSplits);
    }
    if amount == 0 {
      return;
    }
    d := GoOnWith(d, LockedAmount(amount, unlock0.locktime));
  }

  function Blank(a: Allocation): Allocation {
    Allocation(a.ethAddr, a.avaxAddr, 0, [])
  }

  lemma SchedulePrefix(a: Allocation, j: nat)
    requires j < |a.unlockSchedule|
    ensures |ScheduleUnits(a.ethAddr, a.avaxAddr, a.unlockSchedule[..j])| + a.unlockSchedule[j].amount
              <= |AllocationUnits(a)|
    ensures ScheduleUnits(a.ethAddr, a.avaxAddr, a.unlockSchedule[..j + 1]) ==
            ScheduleUnits(a.ethAddr, a.avaxAddr, a.unlockSchedule[..j])
              + Repeat(Owner(a.ethAddr, a.avaxAddr, a.unlockSchedule[j].locktime), a.unlockSchedule[j].amount)
  {
    ScheduleUnitsLength(a.ethAddr, a.avaxAddr, a.unlockSchedule);
    ScheduleUnitsLength(a.ethAddr, a.avaxAddr, a.unlockSchedule[..j]);
    LockedMonotone(a.unlockSchedule, j + 1);
    assert a.unlockSchedule[..j + 1] == a.unlockSchedule[..j] + [a.unlockSchedule[j]];
    ScheduleAppend(a.ethAddr, a.avaxAddr, a.unlockSchedule[..j], a.unlockSchedule[j]);
  }

  /** Hands out one allocation. */
  method SplitAllocation(d0: Division, a: Allocation, weight: Uint64, numSplits: nat, ghost before: seq<Owner>)
    returns (d: Division)
    requires |d0.closed| < numSplits && d0.current.unlockSchedule == []
    ensures |d.closed| < numSplits && d.current.unlockSchedule == []
    ensures Exact(d0, before, weight, numSplits) && |before + AllocationUnits(a)| < U64 ==>
              Exact(d, before + AllocationUnits(a), weight, numSplits)
  {
    ghost var exact := Exact(d0, before, weight, numSplits) && |before + AllocationUnits(a)| < U64;
    if exact {
      HandOutAllocation(d0.closed, d0.open, d0.current, Blank(a), d0.openAmount, weight, before);
    }
    d := d0.(current := Blank(a));
    for j := 0 to |a.unlockSchedule|
      invariant |d.closed| < numSplits
      invariant d.current.ethAddr == a.ethAddr && d.current.avaxAddr == a.avaxAddr
      invariant exact ==>
                  Exact(d, before + ScheduleUnits(a.ethAddr, a.avaxAddr, a.unlockSchedule[..j]), weight, numSplits)
    {
      ghost var units := before + ScheduleUnits(a.ethAddr, a.avaxAddr, a.unlockSchedule[..j]);
      SchedulePrefix(a, j);
      d := SplitUnlock(d, a.unlockSchedule[j], weight, numSplits, units);
      assert before + ScheduleUnits(a.ethAddr, a.avaxAddr, a.unlockSchedule[..j + 1]) == units
        + Repeat(Owner(a.ethAddr, a.avaxAddr, a.unlockSchedule[j].locktime), a.unlockSchedule[j].amount);
    }
    assert a.unlockSchedule[..|a.unlockSchedule|] == a.unlockSchedule;
    if exact {
      HandOutAllocation(d.closed, d.open, d.current, Blank(a), d.openAmount, weight, before + AllocationUnits(a));
    }
    d := d.(open := if |d.current.unlockSchedule| > 0 then d.open + [d.current] else d.open, current := Blank(a));
  }

  function Share(total: nat, numSplits: nat): nat
    requires numSplits > 0
  {
    total / numSplits
  }

  lemma ShareBound(total: Uint64, numSplits: nat)
    requires numSplits > 0
    ensures Share(total, numSplits) <= total
  {
  }

  /** What the groups are, for a total that fits 64 bits: they give out exactly the units of the input, in order,
      and all but the last give out floor(total / numSplits) of them. */
  ghost predicate Divided(allocations: seq<Allocation>, numSplits: nat, groups: seq<seq<Allocation>>)
    requires numSplits > 0
  {
    && |groups| == (if TotalLocked(allocations) > 0 then numSplits else 1)
    && AllUnits(groups) == Units(allocations)
    && AllOfWeight(groups[..|groups| - 1], TotalLocked(allocations) / numSplits)
    && forall i :: 0 <= i < |groups| ==> Spent(groups[i])
  }

  /** The exact shares, and what is left for the last group. */
  lemma SharesExact(allocations: seq<Allocation>, numSplits: nat, groups: seq<seq<Allocation>>, i: nat)
    requires numSplits > 0 && TotalLocked(allocations) > 0 && Divided(allocations, numSplits, groups) && i < numSplits
    ensures var total := TotalLocked(allocations);
            TotalLocked(groups[i]) == if i < numSplits - 1 then total / numSplits
                                      else total - (numSplits - 1) * (total / numSplits)
  {
    SharesOf(allocations, TotalLocked(allocations) / numSplits, groups, i);
  }

  lemma SharesOf(allocations: seq<Allocation>, weight: nat, groups: seq<seq<Allocation>>, i: nat)
    requires i < |groups| && AllUnits(groups) == Units(allocations) && AllOfWeight(groups[..|groups| - 1], weight)
    ensures TotalLocked(groups[i]) == if i < |groups| - 1 then weight else TotalLocked(allocations) - (|groups| - 1) * weight
  {
    var full := groups[..|groups| - 1];
    UnitsLength(groups[i]);
    UnitsLength(allocations);
    if i < |groups| - 1 {
      assert full[i] == groups[i];
    } else {
      WeightOfAll(full, weight);
    }
  }

  lemma UnitsPrefix(allocations: seq<Allocation>, i: nat)
    requires i < |allocations|
    ensures Units(allocations[..i + 1]) == Units(allocations[..i]) + AllocationUnits(allocations[i])
    ensures |Units(allocations[..i + 1])| <= TotalLocked(allocations)
  {
    assert allocations[..i + 1] == allocations[..i] + [allocations[i]];
    UnitsAppend(allocations[..i], allocations[i]);
    UnitsLength(allocations[..i + 1]);
    TotalMonotone(allocations, i + 1);
  }

  /** For every owner, the amounts of all groups add up to the amounts of the input. */
  lemma AmountsConserved(allocations: seq<Allocation>, numSplits: nat, groups: seq<seq<Allocation>>, o: Owner)
    requires numSplits > 0 && Divided(allocations, numSplits, groups)
    ensures AllAmountsFor(groups, o) == AmountFor(allocations, o)
  {
    AllUnitsCount(groups, o);
    UnitsCount(allocations, o);
  }

  method SplitAllocations(allocations: seq<Allocation>, numSplits: nat) returns (groups: seq<seq<Allocation>>)
    ensures numSplits == 0 ==> groups == []
    ensures numSplits > 0 && TotalLocked(allocations) < U64 ==> Divided(allocations, numSplits, groups)
  {
    if numSplits == 0 {
      return [];
    }
    var totalAmount := SumLocked(allocations);
    ShareBound(totalAmount, numSplits);
    var nodeWeight: Uint64 := Share(totalAmount, numSplits);
    ghost var exact := TotalLocked(allocations) < U64;
    var d := Division([], [], 0, Allocation(0, 0, 0, []));
    HandOutNothing(d.current, nodeWeight);
    for i := 0 to |allocations|
      invariant |d.closed| < numSplits && d.current.unlockSchedule == []
      invariant exact ==> Exact(d, Units(allocations[..i]), nodeWeight, numSplits)
    {
      UnitsPrefix(allocations, i);
      d := SplitAllocation(d, allocations[i], nodeWeight, numSplits, Units(allocations[..i]));
    }
    assert allocations[..|allocations|] == allocations;
    groups := d.closed + [d.open];
    if exact {
      DivisionDone(d, allocations, nodeWeight, numSplits);
    }
  }

  lemma DivisionDone(d: Division, allocations: seq<Allocation>, weight: nat, numSplits: nat)
    requires 0 < numSplits && |d.closed| < numSplits && d.current.unlockSchedule == []
    requires weight == Share(TotalLocked(allocations), numSplits)
    requires Exact(d, Units(allocations), weight, numSplits)
    ensures Divided(allocations, numSplits, d.closed + [d.open])
  {
    assert Opened(0);
    CloseGroup(d.closed, d.open, weight);
    UnitsLength(allocations);
    WeightOfAll(d.closed, weight);
    var total, groups := TotalLocked(allocations), d.closed + [d.open];
    assert groups[..|groups| - 1] == d.closed;
    assert total == |d.closed| * weight + d.openAmount;
    if |d.closed| < numSplits - 1 {
      TooFewGroups(total, numSplits, |d.closed|, weight, d.openAmount);
    }
  }

  /** Fewer groups than asked for, none above its share, can only be giving out nothing. */
  lemma TooFewGroups(total: nat, numSplits: nat, closed: nat, weight: nat, openAmount: nat)
    requires closed + 1 < numSplits && weight == Share(total, numSplits)
    requires total == closed * weight + openAmount && openAmount <= weight
    ensures total == 0
  {
    var left := numSplits - closed - 1;
    ShareFits(total, numSplits);
    Distribute(closed, left, weight);
    AtLeastOnce(left, weight);
  }

  lemma ShareFits(total: nat, numSplits: nat)
    requires numSplits > 0
    ensures numSplits * Share(total, numSplits) <= total
  {
    assert total == numSplits * (total / numSplits) + total % numSplits;
  }

  lemma Distribute(closed: nat, left: nat, weight: nat)
    ensures (closed + 1 + left) * weight == closed * weight + weight + left * weight
  {
  }

  lemma AtLeastOnce(times: nat, weight: nat)
    requires times > 0
    ensures times * weight >= weight
  {
  }
}
