/** From a configuration to the genesis state: where every unit of the supply ends up. */
module GenesisState {
  import opened Collections
  import opened Ids
  import opened Numbers
  import opened Genesis

  const SongbirdID := 5
  const CostonID := 7
  const LocalID := 12345

  datatype Staker = Staker(nodeID: NodeID, rewardAddress: Address)

  datatype Config = Config(
    networkID: nat,
    allocations: seq<Allocation>,
    initialStakedFunds: seq<Address>,
    initialStakers: seq<Staker>)

  datatype Holder = Holder(amount: Uint64, address: Address)

  /** An amount on the P-chain; the message is the ETH address it was claimed with. */
  datatype Output = Output(locktime: Uint64, amount: Uint64, address: Address, message: Address)

  datatype Validator = Validator(nodeID: NodeID, rewardAddress: Address, staked: seq<Output>)

  // ---------------------------------------------------------------- supply

  predicate FixedSupply(networkID: nat) {
    networkID == SongbirdID || networkID == CostonID || networkID == LocalID
  }

  ghost function TotalInitial(allocations: seq<Allocation>): nat {
    if allocations == [] then 0
    else TotalInitial(allocations[..|allocations| - 1]) + allocations[|allocations| - 1].initialAmount
  }

  ghost function Supply(allocations: seq<Allocation>): nat {
    TotalInitial(allocations) + TotalLocked(allocations)
  }

  lemma {:induction false} SupplyMonotone(allocations: seq<Allocation>, i: nat)
    requires i <= |allocations|
    ensures Supply(allocations[..i]) <= Supply(allocations)
    decreases |allocations| - i
  {
    if i < |allocations| {
      assert allocations[..i + 1][..i] == allocations[..i];
      SupplyMonotone(allocations, i + 1);
    } else {
      assert allocations[..i] == allocations;
    }
  }

  function CheckedAdd(a: Uint64, b: Uint64): Option<Uint64> {
    if a > U64 - 1 - b then None else Some(a + b)
  }

  /** The whole supply, or nothing if it does not fit 64 bits. */
  method InitialSupply(config: Config) returns (r: Option<Uint64>)
    ensures config.networkID in {SongbirdID, CostonID, LocalID} ==> r == Some(1)
    ensures config.networkID !in {SongbirdID, CostonID, LocalID} ==>
              r == if Supply(config.allocations) < U64 then Some(Supply(config.allocations)) else None
  {
    if FixedSupply(config.networkID) {
      return Some(1);
    }
    var allocations := config.allocations;
    var initialSupply: Uint64 := 0;
    for i := 0 to |allocations|
      invariant initialSupply == Supply(allocations[..i])
    {
      var a := allocations[i];
      assert allocations[..i + 1][..i] == allocations[..i];
      SupplyMonotone(allocations, i + 1);
      var sum := CheckedAdd(initialSupply, a.initialAmount);
      if sum.None? {
        return None;
      }
      var newInitialSupply := sum.value;
      for j := 0 to |a.unlockSchedule|
        invariant newInitialSupply == Supply(allocations[..i]) + a.initialAmount + Locked(a.unlockSchedule[..j])
      {
        assert a.unlockSchedule[..j + 1][..j] == a.unlockSchedule[..j];
        LockedMonotone(a.unlockSchedule, j + 1);
        sum := CheckedAdd(newInitialSupply, a.unlockSchedule[j].amount);
        if sum.None? {
          return None;
        }
        newInitialSupply := sum.value;
      }
      assert a.unlockSchedule[..|a.unlockSchedule|] == a.unlockSchedule;
      initialSupply := newInitialSupply;
    }
    assert allocations[..|allocations|] == allocations;
    return Some(initialSupply);
  }

  // ---------------------------------------------------------------- outputs

  ghost function HolderTotal(holders: seq<Holder>): nat {
    if holders == [] then 0 else HolderTotal(holders[..|holders| - 1]) + holders[|holders| - 1].amount
  }

  ghost function OutputTotal(outputs: seq<Output>): nat {
    if outputs == [] then 0 else OutputTotal(outputs[..|outputs| - 1]) + outputs[|outputs| - 1].amount
  }

  ghost function OutputUnits(outputs: seq<Output>): seq<Owner> {
    if outputs == [] then []
    else
      var o := outputs[|outputs| - 1];
      OutputUnits(outputs[..|outputs| - 1]) + Repeat(Owner(o.message, o.address, o.locktime), o.amount)
  }

  lemma {:induction false} OutputUnitsLength(outputs: seq<Output>)
    ensures |OutputUnits(outputs)| == OutputTotal(outputs)
  {
    if outputs != [] { OutputUnitsLength(outputs[..|outputs| - 1]); }
  }

  lemma OutputAppend(outputs: seq<Output>, o: Output)
    ensures OutputUnits(outputs + [o]) == OutputUnits(outputs) + Repeat(Owner(o.message, o.address, o.locktime), o.amount)
  {
    assert (outputs + [o])[..|outputs|] == outputs;
  }

  ghost function StakedOnly(allocations: seq<Allocation>, funds: set<Address>, staked: bool): seq<Allocation> {
    if allocations == [] then []
    else
      var rest, last := StakedOnly(allocations[..|allocations| - 1], funds, staked), allocations[|allocations| - 1];
      if (last.avaxAddr in funds) == staked then rest + [last] else rest
  }

  /** The staked allocations and the others make up all of them. */
  lemma {:induction false} StakedOnlyMeaning(allocations: seq<Allocation>, funds: set<Address>)
    ensures forall a :: a in StakedOnly(allocations, funds, true) ==> a.avaxAddr in funds
    ensures forall a :: a in StakedOnly(allocations, funds, false) ==> a.avaxAddr !in funds
    ensures multiset(StakedOnly(allocations, funds, true)) + multiset(StakedOnly(allocations, funds, false))
              == multiset(allocations)
  {
    if allocations != [] {
      var front, last := allocations[..|allocations| - 1], allocations[|allocations| - 1];
      StakedOnlyMeaning(front, funds);
      assert allocations == front + [last];
    }
  }

  lemma {:induction false} StakedOrNot(allocations: seq<Allocation>, funds: set<Address>)
    ensures TotalLocked(StakedOnly(allocations, funds, true)) + TotalLocked(StakedOnly(allocations, funds, false))
              == TotalLocked(allocations)
  {
    if allocations != [] {
      var prefix, last := allocations[..|allocations| - 1], allocations[|allocations| - 1];
      StakedOrNot(prefix, funds);
      UnitsAppend(StakedOnly(prefix, funds, true), last);
      UnitsAppend(StakedOnly(prefix, funds, false), last);
    }
  }

  /** One holder for every allocation with a positive initial amount. */
  ghost function HoldersOf(allocations: seq<Allocation>): seq<Holder> {
    if allocations == [] then []
    else
      var rest, last := HoldersOf(allocations[..|allocations| - 1]), allocations[|allocations| - 1];
      if last.initialAmount > 0 then rest + [Holder(last.initialAmount, last.avaxAddr)] else rest
  }

  /** So many allocations give rise to this holder. */
  ghost function Givers(allocations: seq<Allocation>, h: Holder): set<nat> {
    set i: nat | i < |allocations| && allocations[i].initialAmount == h.amount && allocations[i].avaxAddr == h.address
  }

  lemma {:induction false} HoldersCount(allocations: seq<Allocation>, h: Holder)
    ensures multiset(HoldersOf(allocations))[h] == if h.amount > 0 then |Givers(allocations, h)| else 0
  {
    if allocations != [] {
      var k := |allocations| - 1;
      var front, last := allocations[..k], allocations[k];
      HoldersCount(front, h);
      assert Givers(allocations, h) ==
        Givers(front, h) + if last.initialAmount == h.amount && last.avaxAddr == h.address then {k} else {};
    }
  }

  /** The order of allocations by initial amount and then by address. */
  predicate Before(h: Holder, g: Holder) {
    h.amount < g.amount || (h.amount == g.amount && h.address < g.address)
  }

  lemma HolderTotalAppend(holders: seq<Holder>, h: Holder)
    ensures HolderTotal(holders + [h]) == HolderTotal(holders) + h.amount
  {
    assert (holders + [h])[..|holders|] == holders;
  }

  lemma {:induction false} InsertTotal(holders: seq<Holder>, h: Holder)
    ensures HolderTotal(Insert(holders, h, Before)) == HolderTotal(holders) + h.amount
  {
    if holders == [] || !Before(h, holders[|holders| - 1]) {
      HolderTotalAppend(holders, h);
    } else {
      var front, last := holders[..|holders| - 1], holders[|holders| - 1];
      InsertTotal(front, h);
      HolderTotalAppend(Insert(front, h, Before), last);
    }
  }

  /** Sorting does not change the total. */
  lemma {:induction false} SortTotal(holders: seq<Holder>)
    ensures HolderTotal(Sort(holders, Before)) == HolderTotal(holders)
  {
    if holders != [] {
      SortTotal(holders[..|holders| - 1]);
      InsertTotal(Sort(holders[..|holders| - 1], Before), holders[|holders| - 1]);
    }
  }

  lemma {:induction false} HoldersTotal(allocations: seq<Allocation>)
    ensures HolderTotal(HoldersOf(allocations)) == TotalInitial(allocations)
  {
    if allocations != [] {
      var front, last := allocations[..|allocations| - 1], allocations[|allocations| - 1];
      HoldersTotal(front);
      if last.initialAmount > 0 {
        HolderTotalAppend(HoldersOf(front), Holder(last.initialAmount, last.avaxAddr));
      }
    }
  }

  ghost predicate Sorted(holders: seq<Holder>) {
    forall i, j :: 0 <= i < j < |holders| ==>
      || holders[i].amount < holders[j].amount
      || (holders[i].amount == holders[j].amount && holders[i].address <= holders[j].address)
  }

  method BuildHolders(allocations: seq<Allocation>) returns (holders: seq<Holder>)
    ensures Sorted(holders)
    ensures forall h :: multiset(holders)[h] == if h.amount > 0 then |Givers(allocations, h)| else 0
    ensures HolderTotal(holders) == TotalInitial(allocations)
  {
    holders := [];
    for i := 0 to |allocations|
      invariant holders == HoldersOf(allocations[..i])
    {
      assert allocations[..i + 1][..i] == allocations[..i];
      if allocations[i].initialAmount > 0 {
        holders := holders + [Holder(allocations[i].initialAmount, allocations[i].avaxAddr)];
      }
    }
    assert allocations[..|allocations|] == allocations;
    HoldersTotal(allocations);
    forall h ensures multiset(holders)[h] == if h.amount > 0 then |Givers(allocations, h)| else 0 {
      HoldersCount(allocations, h);
    }
    SortSorts(holders, Before);
    SortPermutes(holders, Before);
    SortTotal(holders);
    holders := Sort(holders, Before);
  }

  /** The outputs of one allocation, with or without those that are empty. */
  method AppendOutputs(outputs0: seq<Output>, a: Allocation, keepEmpty: bool) returns (outputs: seq<Output>)
    ensures OutputUnits(outputs) == OutputUnits(outputs0) + AllocationUnits(a)
    ensures !keepEmpty && (forall i :: 0 <= i < |outputs0| ==> outputs0[i].amount > 0) ==>
              forall i :: 0 <= i < |outputs| ==> outputs[i].amount > 0
  {
    outputs := outputs0;
    for j := 0 to |a.unlockSchedule|
      invariant OutputUnits(outputs) ==
                OutputUnits(outputs0) + ScheduleUnits(a.ethAddr, a.avaxAddr, a.unlockSchedule[..j])
      invariant !keepEmpty && (forall i :: 0 <= i < |outputs0| ==> outputs0[i].amount > 0) ==>
                  forall i :: 0 <= i < |outputs| ==> outputs[i].amount > 0
    {
      var unlock := a.unlockSchedule[j];
      SchedulePrefix(a, j);
      if keepEmpty || unlock.amount > 0 {
        var output := Output(unlock.locktime, unlock.amount, a.avaxAddr, a.ethAddr);
        OutputAppend(outputs, output);
        outputs := outputs + [output];
      }
    }
    assert a.unlockSchedule[..|a.unlockSchedule|] == a.unlockSchedule;
  }

  method BuildPlatform(allocations: seq<Allocation>, funds: set<Address>)
    returns (skipped: seq<Allocation>, outputs: seq<Output>)
    ensures skipped == StakedOnly(allocations, funds, true)
    ensures OutputUnits(outputs) == Units(StakedOnly(allocations, funds, false))
    ensures forall i :: 0 <= i < |outputs| ==> outputs[i].amount > 0
  {
    skipped, outputs := [], [];
    for i := 0 to |allocations|
      invariant skipped == StakedOnly(allocations[..i], funds, true)
      invariant OutputUnits(outputs) == Units(StakedOnly(allocations[..i], funds, false))
      invariant forall k :: 0 <= k < |outputs| ==> outputs[k].amount > 0
    {
      assert allocations[..i + 1][..i] == allocations[..i];
      if allocations[i].avaxAddr in funds {
        skipped := skipped + [allocations[i]];
      } else {
        UnitsAppend(StakedOnly(allocations[..i], funds, false), allocations[i]);
        outputs := AppendOutputs(outputs, allocations[i], false);
      }
    }
    assert allocations[..|allocations|] == allocations;
  }

  method BuildStake(group: seq<Allocation>) returns (outputs: seq<Output>)
    ensures OutputUnits(outputs) == Units(group)
  {
    outputs := [];
    for i := 0 to |group|
      invariant OutputUnits(outputs) == Units(group[..i])
    {
      assert group[..i + 1] == group[..i] + [group[i]];
      UnitsAppend(group[..i], group[i]);
      outputs := AppendOutputs(outputs, group[i], true);
    }
    assert group[..|group|] == group;
  }

  ghost function StakeUnits(validators: seq<Validator>): seq<Owner> {
    if validators == [] then []
    else StakeUnits(validators[..|validators| - 1]) + OutputUnits(validators[|validators| - 1].staked)
  }

  lemma StakeAppend(validators: seq<Validator>, v: Validator, groups: seq<seq<Allocation>>, i: nat)
    requires i < |groups| && StakeUnits(validators) == AllUnits(groups[..i]) && OutputUnits(v.staked) == Units(groups[i])
    ensures StakeUnits(validators + [v]) == AllUnits(groups[..i + 1])
  {
    assert (validators + [v])[..|validators|] == validators;
    assert groups[..i + 1][..i] == groups[..i];
  }

  /** The i-th staker stakes the i-th group; without an i-th group the access is out of range. */
  method BuildValidators(stakers: seq<Staker>, groups: seq<seq<Allocation>>) returns (r: Option<seq<Validator>>)
    ensures r.None? <==> |stakers| > |groups|
    ensures r.Some? ==>
              && |r.value| == |stakers|
              && Appointed(stakers, r.value)
              && (forall i :: 0 <= i < |stakers| ==> OutputUnits(r.value[i].staked) == Units(groups[i]))
              && StakeUnits(r.value) == AllUnits(groups[..|stakers|])
  {
    var validators: seq<Validator> := [];
    for i := 0 to |stakers|
      invariant i <= |groups| && |validators| == i
      invariant forall k :: 0 <= k < i ==>
                  && validators[k].nodeID == stakers[k].nodeID && validators[k].rewardAddress == stakers[k].rewardAddress
                  && OutputUnits(validators[k].staked) == Units(groups[k])
      invariant StakeUnits(validators) == AllUnits(groups[..i])
    {
      if i >= |groups| {
        return None;
      }
      var staked := BuildStake(groups[i]);
      var v := Validator(stakers[i].nodeID, stakers[i].rewardAddress, staked);
      StakeAppend(validators, v, groups, i);
      validators := validators + [v];
    }
    return Some(validators);
  }

  // ---------------------------------------------------------------- the whole state

  datatype Outcome =
    | Built(holders: seq<Holder>, outputs: seq<Output>, validators: seq<Validator>, supply: Uint64)
    | SupplyOverflow
    | OutOfRange

  ghost function StakedFunds(config: Config): seq<Allocation> {
    StakedOnly(config.allocations, Elements(config.initialStakedFunds), true)
  }

  ghost function FreeFunds(config: Config): seq<Allocation> {
    StakedOnly(config.allocations, Elements(config.initialStakedFunds), false)
  }

  /** Every staker is a validator, with its own reward address. */
  ghost predicate Appointed(stakers: seq<Staker>, validators: seq<Validator>) {
    && |validators| == |stakers|
    && forall i :: 0 <= i < |stakers| ==>
         validators[i].nodeID == stakers[i].nodeID && validators[i].rewardAddress == stakers[i].rewardAddress
  }

  /** The stakes are the staked units in order, and every validator but the last has the same share of them. */
  ghost predicate Shared(staked: seq<Allocation>, validators: seq<Validator>) {
    && (|validators| > 0 ==> StakeUnits(validators) == Units(staked))
    && forall i :: 0 <= i < |validators| - 1 ==>
         OutputTotal(validators[i].staked) == TotalLocked(staked) / |validators|
  }

  lemma DividedShared(staked: seq<Allocation>, groups: seq<seq<Allocation>>, validators: seq<Validator>)
    requires 0 < |validators| <= |groups| && Divided(staked, |validators|, groups)
    requires StakeUnits(validators) == AllUnits(groups[..|validators|])
    requires forall i :: 0 <= i < |validators| ==> OutputUnits(validators[i].staked) == Units(groups[i])
    ensures Shared(staked, validators)
  {
    assert groups[..|groups|] == groups;
    forall i | 0 <= i < |validators| - 1
      ensures OutputTotal(validators[i].staked) == TotalLocked(staked) / |validators|
    {
      OutputUnitsLength(validators[i].staked);
      UnitsLength(groups[i]);
      SharesExact(staked, |validators|, groups, i);
    }
  }

  /** Holders, outputs and stakes make up the supply exactly when there is a staker for the staked funds. */
  lemma Conservation(config: Config, holders: seq<Holder>, outputs: seq<Output>, validators: seq<Validator>)
    requires HolderTotal(holders) == TotalInitial(config.allocations)
    requires OutputUnits(outputs) == Units(FreeFunds(config)) && Shared(StakedFunds(config), validators)
    ensures HolderTotal(holders) + OutputTotal(outputs) + |StakeUnits(validators)| == Supply(config.allocations) <==>
            |validators| > 0 || TotalLocked(StakedFunds(config)) == 0
  {
    OutputUnitsLength(outputs);
    UnitsLength(FreeFunds(config));
    UnitsLength(StakedFunds(config));
    StakedOrNot(config.allocations, Elements(config.initialStakedFunds));
  }

  // ---------------------------------------------------------------- who gets what

  /** How much the outputs pay to this account, to be unlocked at this time. */
  ghost function PaidTo(outputs: seq<Output>, o: Owner): nat {
    if outputs == [] then 0
    else
      var last := outputs[|outputs| - 1];
      PaidTo(outputs[..|outputs| - 1], o) +
      if last.message == o.ethAddr && last.address == o.avaxAddr && last.locktime == o.locktime then last.amount else 0
  }

  ghost function StakedFor(validators: seq<Validator>, o: Owner): nat {
    if validators == [] then 0
    else StakedFor(validators[..|validators| - 1], o) + PaidTo(validators[|validators| - 1].staked, o)
  }

  lemma {:induction false} OutputCount(outputs: seq<Output>, o: Owner)
    ensures multiset(OutputUnits(outputs))[o] == PaidTo(outputs, o)
  {
    if outputs != [] {
      var last := outputs[|outputs| - 1];
      OutputCount(outputs[..|outputs| - 1], o);
      RepeatCount(Owner(last.message, last.address, last.locktime), last.amount, o);
    }
  }

  lemma {:induction false} StakeCount(validators: seq<Validator>, o: Owner)
    ensures multiset(StakeUnits(validators))[o] == StakedFor(validators, o)
  {
    if validators != [] {
      StakeCount(validators[..|validators| - 1], o);
      OutputCount(validators[|validators| - 1].staked, o);
    }
  }

  lemma {:induction false} AmountStakedOrNot(allocations: seq<Allocation>, funds: set<Address>, o: Owner)
    ensures AmountFor(StakedOnly(allocations, funds, true), o) == if o.avaxAddr in funds then AmountFor(allocations, o) else 0
    ensures AmountFor(StakedOnly(allocations, funds, false), o) == if o.avaxAddr in funds then 0 else AmountFor(allocations, o)
  {
    if allocations != [] {
      var front, last := allocations[..|allocations| - 1], allocations[|allocations| - 1];
      AmountStakedOrNot(front, funds, o);
      var staked := last.avaxAddr in funds;
      var rest := StakedOnly(front, funds, staked);
      assert (rest + [last])[..|rest|] == rest;
    }
  }

  /** For every account and time: what is locked goes to outputs if its address is not staked, and else to stakes. */
  lemma AccountsConserved(config: Config, outputs: seq<Output>, validators: seq<Validator>, o: Owner)
    requires OutputUnits(outputs) == Units(FreeFunds(config))
    requires |validators| > 0 && Shared(StakedFunds(config), validators)
    ensures PaidTo(outputs, o) == if o.avaxAddr in config.initialStakedFunds then 0 else AmountFor(config.allocations, o)
    ensures StakedFor(validators, o) == if o.avaxAddr in config.initialStakedFunds then AmountFor(config.allocations, o) else 0
  {
    OutputCount(outputs, o);
    StakeCount(validators, o);
    UnitsCount(FreeFunds(config), o);
    UnitsCount(StakedFunds(config), o);
    AmountStakedOrNot(config.allocations, Elements(config.initialStakedFunds), o);
  }

  /** The staked part: fails exactly when several stakers would have to share nothing. */
  method BuildStakers(stakers: seq<Staker>, staked: seq<Allocation>) returns (r: Option<seq<Validator>>)
    ensures r.Some? ==> Appointed(stakers, r.value)
    ensures TotalLocked(staked) < U64 ==> (r.None? <==> |stakers| > 1 && TotalLocked(staked) == 0)
    ensures TotalLocked(staked) < U64 && r.Some? ==> Shared(staked, r.value)
  {
    var groups := SplitAllocations(staked, |stakers|);
    r := BuildValidators(stakers, groups);
    if TotalLocked(staked) < U64 && r.Some? && |stakers| > 0 {
      DividedShared(staked, groups, r.value);
    }
  }

  /** Building fails exactly when the supply is not fixed and overflows, or several stakers would have to share nothing;
      otherwise X-chain holders, P-chain outputs and stakes together make up all allocated funds, provided that there is
      a staker for the staked ones. On networks with fixed supply, what is said of the stakes needs a staked total that
      fits 64 bits. */
  method FromConfig(config: Config) returns (r: Outcome)
    ensures r.SupplyOverflow? <==> !FixedSupply(config.networkID) && Supply(config.allocations) >= U64
    ensures !FixedSupply(config.networkID) && !r.SupplyOverflow? ==> TotalLocked(StakedFunds(config)) < U64
    ensures TotalLocked(StakedFunds(config)) < U64 && !r.SupplyOverflow? ==>
              (r.OutOfRange? <==> |config.initialStakers| > 1 && TotalLocked(StakedFunds(config)) == 0)
    ensures r.Built? ==>
              && r.supply == (if FixedSupply(config.networkID) then 1 else Supply(config.allocations))
              && Sorted(r.holders)
              && (forall h :: multiset(r.holders)[h] == if h.amount > 0 then |Givers(config.allocations, h)| else 0)
              && OutputUnits(r.outputs) == Units(FreeFunds(config))
              && Appointed(config.initialStakers, r.validators)
    ensures r.Built? && TotalLocked(StakedFunds(config)) < U64 ==>
              && Shared(StakedFunds(config), r.validators)
              && (HolderTotal(r.holders) + OutputTotal(r.outputs) + |StakeUnits(r.validators)|
                    == Supply(config.allocations) <==>
                  |config.initialStakers| > 0 || TotalLocked(StakedFunds(config)) == 0)
    ensures r.Built? && TotalLocked(StakedFunds(config)) < U64 && |config.initialStakers| > 0 ==>
              forall o ::
                && PaidTo(r.outputs, o) == (if o.avaxAddr in config.initialStakedFunds then 0
                                            else AmountFor(config.allocations, o))
                && StakedFor(r.validators, o) == (if o.avaxAddr in config.initialStakedFunds
                                                  then AmountFor(config.allocations, o) else 0)
  {
    var holders := BuildHolders(config.allocations);
    var supply := InitialSupply(config);
    if supply.None? {
      return SupplyOverflow;
    }
    var funds := set a | a in config.initialStakedFunds;
    assert funds == Elements(config.initialStakedFunds);
    StakedOrNot(config.allocations, funds);
    var skipped, outputs := BuildPlatform(config.allocations, funds);
    var validators := BuildStakers(config.initialStakers, skipped);
    if validators.None? {
      return OutOfRange;
    }
    if TotalLocked(skipped) < U64 {
      Conservation(config, holders, outputs, validators.value);
      if |config.initialStakers| > 0 {
        forall o
          ensures PaidTo(outputs, o) == if o.avaxAddr in config.initialStakedFunds then 0
                                        else AmountFor(config.allocations, o)
          ensures StakedFor(validators.value, o) == if o.avaxAddr in config.initialStakedFunds
                                                    then AmountFor(config.allocations, o) else 0
        {
          AccountsConserved(config, outputs, validators.value, o);
        }
      }
    }
    return Built(holders, outputs, validators.value, supply.value);
  }

  // ---------------------------------------------------------------- validation

  datatype Problem = NoStakedFunds | DuplicateStakedFunds | NothingToStake

  ghost predicate HasAllocation(allocations: seq<Allocation>, addr: Address) {
    exists i :: 0 <= i < |allocations| && allocations[i].avaxAddr == addr
  }

  method ValidateInitialStakedFunds(config: Config) returns (r: Option<Problem>)
    ensures r.None? <==>
            && config.initialStakedFunds != [] && Distinct(config.initialStakedFunds)
            && forall i :: 0 <= i < |config.initialStakedFunds| ==>
                 HasAllocation(config.allocations, config.initialStakedFunds[i])
    ensures r == Some(NoStakedFunds) <==> config.initialStakedFunds == []
    ensures r == Some(DuplicateStakedFunds) ==> !Distinct(config.initialStakedFunds)
  {
    var funds := config.initialStakedFunds;
    if |funds| == 0 {
      return Some(NoStakedFunds);
    }
    var allocationSet := set i | 0 <= i < |config.allocations| :: config.allocations[i].avaxAddr;
    var fundSet: set<Address> := {};
    for i := 0 to |funds|
      invariant fundSet == Elements(funds[..i]) && Distinct(funds[..i])
      invariant forall k :: 0 <= k < i ==> HasAllocation(config.allocations, funds[k])
    {
      assert forall k :: 0 <= k < i ==> funds[..i][k] == funds[k];
      if funds[i] in fundSet {
        return Some(DuplicateStakedFunds);
      }
      fundSet := fundSet + {funds[i]};
      assert funds[..i + 1] == funds[..i] + [funds[i]];
      if funds[i] !in allocationSet {
        return Some(NothingToStake);
      }
    }
    assert funds[..|funds|] == funds;
    return None;
  }

  /** Counts the locked amounts of all allocations, not only of the staked ones. */
  method ValidateAllocationsLockedAmount(config: Config) returns (ok: bool)
    ensures ok <==> TotalLocked(config.allocations) % U64 >= |config.initialStakers|
  {
    var totalLocked := SumLocked(config.allocations);
    return totalLocked >= |config.initialStakers|;
  }

  /** What validateConfig asks of amounts, stakers and staked funds. */
  ghost predicate Accepted(config: Config) {
    && (FixedSupply(config.networkID) || 0 < Supply(config.allocations) < U64)
    && config.initialStakers != []
    && config.initialStakedFunds != [] && Distinct(config.initialStakedFunds)
    && (forall i :: 0 <= i < |config.initialStakedFunds| ==>
          HasAllocation(config.allocations, config.initialStakedFunds[i]))
    && TotalLocked(config.allocations) % U64 >= |config.initialStakers|
  }

  /** The part of the validation that concerns amounts, stakers and staked funds. */
  method ValidateConfig(config: Config) returns (ok: bool)
    ensures ok <==> Accepted(config)
  {
    var initialSupply := InitialSupply(config);
    if initialSupply.None? || initialSupply.value == 0 {
      return false;
    }
    if |config.initialStakers| == 0 {
      return false;
    }
    var problem := ValidateInitialStakedFunds(config);
    if problem.Some? {
      return false;
    }
    ok := ValidateAllocationsLockedAmount(config);
  }

  /** The totals of two allocations, of which only the first is staked. */
  lemma TotalsOfTwo(a1: Allocation, a2: Allocation, funds: set<Address>)
    requires a1.avaxAddr in funds && a2.avaxAddr !in funds
    ensures TotalInitial([a1, a2]) == a1.initialAmount + a2.initialAmount
    ensures TotalLocked([a1, a2]) == Locked(a1.unlockSchedule) + Locked(a2.unlockSchedule)
    ensures TotalLocked(StakedOnly([a1, a2], funds, true)) == Locked(a1.unlockSchedule)
  {
    assert [a1, a2][..1] == [a1] && [a1][..0] == [];
    assert TotalInitial([a1]) == a1.initialAmount && TotalLocked([a1]) == Locked(a1.unlockSchedule);
    assert StakedOnly([a1], funds, true) == [a1];
  }

  /** Two stakers and a staked address without locked funds: accepted, and yet building runs out of range. */
  lemma AcceptedMayBeOutOfRange(s1: Staker, s2: Staker)
    ensures var config := Config(1, [Allocation(1, 1, 5, []), Allocation(2, 2, 0, [LockedAmount(10, 0)])], [1], [s1, s2]);
            && Accepted(config) && !FixedSupply(config.networkID) && Supply(config.allocations) < U64
            && |config.initialStakers| > 1 && TotalLocked(StakedFunds(config)) == 0
  {
    var a1, a2 := Allocation(1, 1, 5, []), Allocation(2, 2, 0, [LockedAmount(10, 0)]);
    var config := Config(1, [a1, a2], [1], [s1, s2]);
    TotalsOfTwo(a1, a2, Elements([1]));
    assert Locked([LockedAmount(10, 0)]) == 10 && Locked([]) == 0;
    assert config.allocations[0].avaxAddr == config.initialStakedFunds[0];
    assert HasAllocation(config.allocations, config.initialStakedFunds[0]);
  }

  /** Staked funds without any staker: nobody stakes them and nobody else gets them. Validation refuses such a
      configuration, so only building without it gets here. */
  lemma UnclaimedStake()
    ensures var config := Config(1, [Allocation(1, 1, 0, [LockedAmount(10, 0)]), Allocation(2, 2, 5, [])], [1], []);
            && !FixedSupply(config.networkID) && Supply(config.allocations) == 15 < U64
            && |config.initialStakers| == 0 && TotalLocked(StakedFunds(config)) == 10 && !Accepted(config)
  {
    TotalsOfTwo(Allocation(1, 1, 0, [LockedAmount(10, 0)]), Allocation(2, 2, 5, []), Elements([1]));
    assert Locked([LockedAmount(10, 0)]) == 10 && Locked([]) == 0;
  }
}
