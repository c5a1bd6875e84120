/** Validators, suspensions and the slashing economy. */
module Slashing {
  import opened Accounts
  import opened Arithmetic

  datatype Validator = Validator(address: Address, stake: int)

  // ----- suspension records

  datatype Scope = ScopeNone | ScopePropose | ScopeVote | ScopeAll

  datatype Runtime = Runtime(suspendedUntil: int, scope: Scope)

  type Status = map<Address, Runtime>

  predicate IsSuspended(status: Status, a: Address, need: Scope, now: int) {
    && a in status
    && now < status[a].suspendedUntil
    && (status[a].scope == ScopeAll || (need in {ScopePropose, ScopeVote} && status[a].scope == need))
  }

  /** A record in force that covers proposing. */
  predicate MayNotPropose(status: Status, a: Address, now: int) {
    a in status && now < status[a].suspendedUntil && status[a].scope in {ScopePropose, ScopeAll}
  }

  /** A record in force that covers voting. */
  predicate MayNotVote(status: Status, a: Address, now: int) {
    a in status && now < status[a].suspendedUntil && status[a].scope in {ScopeVote, ScopeAll}
  }

  /** What the ledger's test says of a duty is what the fields of the record say. */
  lemma SuspendedIff(status: Status, a: Address, now: int)
    ensures IsSuspended(status, a, ScopePropose, now) <==>
      a in status && now < status[a].suspendedUntil && status[a].scope in {ScopePropose, ScopeAll}
    ensures IsSuspended(status, a, ScopeVote, now) || IsSuspended(status, a, ScopeAll, now) <==>
      a in status && now < status[a].suspendedUntil && status[a].scope in {ScopeVote, ScopeAll}
    ensures IsSuspended(status, a, ScopeAll, now) <==>
      a in status && now < status[a].suspendedUntil && status[a].scope == ScopeAll
  {
  }

  /** The new record replaces the old one, even when the old one was stricter. */
  function Suspend(status: Status, a: Address, scope: Scope, seconds: int, now: int): Status {
    status[a := Runtime(now + seconds, scope)]
  }

  // ----- where the money is

  datatype Economy = Economy(balances: Table, validators: seq<Validator>, treasury: int, burned: int)

  function StakeSum(validators: seq<Validator>): int {
    if validators == [] then 0 else validators[0].stake + StakeSum(validators[1..])
  }

  ghost function Worth(e: Economy): int {
    Total(e.balances) + StakeSum(e.validators) + e.treasury + e.burned
  }

  ghost predicate NonNegativeStakes(validators: seq<Validator>) {
    forall i | 0 <= i < |validators| :: validators[i].stake >= 0
  }

  // ----- cutting the stake

  /** The index of the first entry with the address, or the length of the list. */
  function Find(validators: seq<Validator>, a: Address): (i: nat)
    ensures i <= |validators|
    ensures i < |validators| ==> validators[i].address == a
    ensures forall j | 0 <= j < i :: validators[j].address != a
  {
    if validators == [] || validators[0].address == a then 0 else 1 + Find(validators[1..], a)
  }

  /** What is really taken: no more than the stake, nothing from a stranger. */
  function CutOf(validators: seq<Validator>, a: Address, amount: int): int {
    var i := Find(validators, a);
    if amount <= 0 || i == |validators| then 0
    else if validators[i].stake < amount then validators[i].stake
    else amount
  }

  function WithCut(validators: seq<Validator>, a: Address, amount: int): seq<Validator> {
    var i := Find(validators, a);
    if amount <= 0 || i == |validators| then validators
    else validators[i := validators[i].(stake := validators[i].stake - CutOf(validators, a, amount))]
  }

  lemma {:induction false} StakeSumAfter(validators: seq<Validator>, i: nat, v: Validator)
    requires i < |validators|
    ensures StakeSum(validators[i := v]) == StakeSum(validators) - validators[i].stake + v.stake
  {
    if i == 0 {
      assert validators[i := v][1..] == validators[1..];
    } else {
      StakeSumAfter(validators[1..], i - 1, v);
      assert validators[i := v][1..] == validators[1..][i - 1 := v];
    }
  }

  /** What is cut leaves the stakes, keeps every stake non-negative, and moves no one
      in the list. */
  lemma CutLeavesStakes(validators: seq<Validator>, a: Address, amount: int)
    ensures StakeSum(WithCut(validators, a, amount)) == StakeSum(validators) - CutOf(validators, a, amount)
    ensures NonNegativeStakes(validators) ==>
      NonNegativeStakes(WithCut(validators, a, amount)) && CutOf(validators, a, amount) >= 0
    ensures |WithCut(validators, a, amount)| == |validators|
    ensures forall i | 0 <= i < |validators| :: WithCut(validators, a, amount)[i].address == validators[i].address
  {
    var i := Find(validators, a);
    if amount > 0 && i < |validators| {
      StakeSumAfter(validators, i, validators[i].(stake := validators[i].stake - CutOf(validators, a, amount)));
    }
  }

  // ----- distributing what was cut

  /** How a slashed total is divided; the rest goes to the honest validators. */
  datatype Parts = Parts(burn: int, treasury: int, whistle: int)

  /** Any division that gives away no more than there is. */
  predicate Fair(total: int, parts: Parts) {
    0 <= parts.burn && 0 <= parts.treasury && 0 <= parts.whistle && parts.burn + parts.treasury + parts.whistle <= total
  }

  function HonestPot(total: int, parts: Parts): int {
    total - parts.burn - parts.treasury - parts.whistle
  }

  /** 70/15/10 percent, each rounded down. */
  function PolicyParts(total: int): Parts {
    Parts(total * 70 / 100, total * 15 / 100, total * 10 / 100)
  }

  /** The honest pot is its twentieth, rounded up, and at most two more. */
  lemma PolicyPot(total: int)
    requires total >= 0
    ensures Fair(total, PolicyParts(total))
    ensures total <= 20 * HonestPot(total, PolicyParts(total)) < total + 60
  {
  }

  function OthersStake(validators: seq<Validator>, offender: Address): int {
    if validators == [] then 0
    else (if validators[0].address == offender then 0 else validators[0].stake) + OthersStake(validators[1..], offender)
  }

  /** How many others hold a positive stake. */
  function OthersCount(validators: seq<Validator>, offender: Address): nat {
    if validators == [] then 0
    else
      (if validators[0].address != offender && validators[0].stake > 0 then 1 else 0)
      + OthersCount(validators[1..], offender)
  }

  /** The share of one entry of the list. */
  function Share(v: Validator, offender: Address, pot: int, stakes: int): int
    requires stakes > 0
  {
    if v.address == offender then 0 else pot * v.stake / stakes
  }

  /** The loop that pays out the shares. */
  function PayShares(balances: Table, validators: seq<Validator>, offender: Address, pot: int, stakes: int): Table
    requires stakes > 0
    decreases |validators|
  {
    if validators == [] then balances
    else
      var share := Share(validators[0], offender, pot, stakes);
      PayShares(if share > 0 then Credit(balances, validators[0].address, share) else balances,
        validators[1..], offender, pot, stakes)
  }

  function Shares(validators: seq<Validator>, offender: Address, pot: int, stakes: int): int
    requires stakes > 0
  {
    if validators == [] then 0
    else Share(validators[0], offender, pot, stakes) + Shares(validators[1..], offender, pot, stakes)
  }

  /** What rounding down keeps from everyone. */
  function DustOf(validators: seq<Validator>, offender: Address, pot: int): int {
    var stakes := OthersStake(validators, offender);
    if pot > 0 && stakes > 0 then pot - Shares(validators, offender, pot, stakes) else 0
  }

  function PayWhistle(e: Economy, whistle: int, reporter: Address): Economy {
    if reporter.text != "" && whistle > 0 then e.(balances := Credit(e.balances, reporter, whistle))
    else e.(treasury := e.treasury + whistle)
  }

  function PayHonest(e: Economy, pot: int, offender: Address): Economy {
    var stakes := OthersStake(e.validators, offender);
    if pot <= 0 then e
    else if stakes > 0 then e.(balances := PayShares(e.balances, e.validators, offender, pot, stakes))
    else e.(treasury := e.treasury + pot)
  }

  function Distribute(e: Economy, total: int, parts: Parts, reporter: Address, offender: Address): Economy {
    if total <= 0 then e
    else
      var sunk := e.(burned := e.burned + parts.burn, treasury := e.treasury + parts.treasury);
      PayHonest(PayWhistle(sunk, parts.whistle, reporter), HonestPot(total, parts), offender)
  }

  lemma {:induction false} PaySharesTotal(balances: Table, validators: seq<Validator>, offender: Address, pot: int,
      stakes: int)
    requires stakes > 0 && pot > 0 && NonNegativeStakes(validators)
    ensures Total(PayShares(balances, validators, offender, pot, stakes))
         == Total(balances) + Shares(validators, offender, pot, stakes)
    decreases |validators|
  {
    if validators != [] {
      var share := Share(validators[0], offender, pot, stakes);
      ShareBounds(validators[0], offender, pot, stakes);
      TotalCredit(balances, validators[0].address, share);
      PaySharesTotal(if share > 0 then Credit(balances, validators[0].address, share) else balances,
        validators[1..], offender, pot, stakes);
    }
  }

  /** A share is the exact proportion, less a remainder smaller than the divisor. */
  lemma ShareBounds(v: Validator, offender: Address, pot: int, stakes: int)
    requires stakes > 0 && pot > 0 && v.stake >= 0
    ensures Share(v, offender, pot, stakes) >= 0
    ensures v.address != offender ==>
      0 <= pot * v.stake - stakes * Share(v, offender, pot, stakes) <= stakes - 1
    ensures v.stake == 0 ==> Share(v, offender, pot, stakes) == 0
  {
    assert pot * v.stake >= 0;
    if v.stake == 0 {
      assert pot * v.stake == 0;
    }
  }

  /** Adding one entry's remainder to the remainders of the rest. */
  lemma AddRemainder(pot: int, stake: int, others: int, stakes: int, share: int, shares: int, count: nat)
    ensures pot * (stake + others) - stakes * (share + shares)
      == (pot * stake - stakes * share) + (pot * others - stakes * shares)
    ensures (1 + count) * (stakes - 1) == (stakes - 1) + count * (stakes - 1)
    ensures stake == 0 ==> pot * stake == 0
  {
  }

  /** Summed over the list, the remainders are less than one divisor per positive stake. */
  lemma {:induction false} SharesBounds(validators: seq<Validator>, offender: Address, pot: int, stakes: int)
    requires stakes > 0 && pot > 0 && NonNegativeStakes(validators)
    ensures 0 <= pot * OthersStake(validators, offender) - stakes * Shares(validators, offender, pot, stakes)
              <= OthersCount(validators, offender) * (stakes - 1)
  {
    if validators != [] {
      var v := validators[0];
      SharesBounds(validators[1..], offender, pot, stakes);
      if v.address != offender {
        ShareBounds(v, offender, pot, stakes);
        AddRemainder(pot, v.stake, OthersStake(validators[1..], offender), stakes, Share(v, offender, pot, stakes),
          Shares(validators[1..], offender, pot, stakes), OthersCount(validators[1..], offender));
      }
    }
  }

  lemma DustBetween(dust: int, count: nat, stakes: int)
    requires stakes > 0 && 0 <= stakes * dust <= count * (stakes - 1)
    ensures 0 <= dust && (dust < count || dust == 0)
  {
    assert count * (stakes - 1) == stakes * count - count;
    if dust < 0 {
      MulMonotone(stakes, dust, -1);
    } else if dust >= count > 0 {
      MulMonotone(stakes, count, dust);
    }
  }

  /** Dust is at most one unit less than the number of others with a positive stake,
      and none when there are no such others. */
  lemma DustBound(validators: seq<Validator>, offender: Address, pot: int)
    requires NonNegativeStakes(validators)
    ensures 0 <= DustOf(validators, offender, pot)
    ensures DustOf(validators, offender, pot) <=
      if OthersCount(validators, offender) == 0 then 0 else OthersCount(validators, offender) - 1
  {
    var stakes := OthersStake(validators, offender);
    if pot > 0 && stakes > 0 {
      SharesBounds(validators, offender, pot, stakes);
      assert stakes * (pot - Shares(validators, offender, pot, stakes))
          == pot * stakes - stakes * Shares(validators, offender, pot, stakes);
      DustBetween(pot - Shares(validators, offender, pot, stakes), OthersCount(validators, offender), stakes);
    }
  }

  /** Distribution brings back everything that was cut, except the dust, for any
      fair division. */
  lemma DistributeWorth(e: Economy, total: int, parts: Parts, reporter: Address, offender: Address)
    requires NonNegativeStakes(e.validators) && total > 0 && Fair(total, parts)
    ensures Worth(Distribute(e, total, parts, reporter, offender))
         == Worth(e) + total - DustOf(e.validators, offender, HonestPot(total, parts))
  {
    var sunk := e.(burned := e.burned + parts.burn, treasury := e.treasury + parts.treasury);
    TotalCredit(sunk.balances, reporter, parts.whistle);
    var whistled := PayWhistle(sunk, parts.whistle, reporter);
    var pot, stakes := HonestPot(total, parts), OthersStake(e.validators, offender);
    if pot > 0 && stakes > 0 {
      PaySharesTotal(whistled.balances, e.validators, offender, pot, stakes);
    }
  }

  // ----- the slashing executor

  datatype Kind = Downtime | Safety

  datatype Params = Params(amount: int, percent: real, kind: Kind, correlationMul: real, scope: Scope, suspendFor: int)

  const DAY := 24 * 60 * 60

  function SafetyPolicy(amount: int, correlationMul: real): Params {
    Params(amount, 0.0, Safety, if correlationMul > 0.0 then correlationMul else 1.0, ScopeAll, DAY)
  }

  const DOWNTIME_POLICY := Params(0, 0.0001, Downtime, 1.0, ScopePropose, 5 * 60)

  /** A part of the stake, rounded down. */
  function PercentOf(stake: int, percent: real): int {
    (stake as real * percent).Floor
  }

  /** The amount before correlation: absolute, or a percentage of the stake of at least one. */
  function BaseAmount(validators: seq<Validator>, offender: Address, params: Params): int {
    var i := Find(validators, offender);
    if params.amount <= 0 && params.percent > 0.0 && i < |validators| then
      var part := PercentOf(validators[i].stake, params.percent);
      if part <= 0 && validators[i].stake > 0 then 1 else part
    else params.amount
  }

  /** The amount asked for: the base, times the correlation multiplier if there is one. */
  function AskedAmount(validators: seq<Validator>, offender: Address, params: Params): int {
    var base := BaseAmount(validators, offender, params);
    if params.correlationMul > 0.0 && params.correlationMul != 1.0
    then (base as real * params.correlationMul).Floor
    else base
  }

  /** What a slash takes. */
  function Taken(e: Economy, offender: Address, params: Params): int {
    CutOf(e.validators, offender, AskedAmount(e.validators, offender, params))
  }

  function SlashEconomy(e: Economy, offender: Address, params: Params, reporter: Address): Economy {
    var asked := AskedAmount(e.validators, offender, params);
    var taken := Taken(e, offender, params);
    var cut := e.(validators := WithCut(e.validators, offender, asked));
    if asked <= 0 then e
    else if taken <= 0 then cut
    else if params.kind.Downtime? then cut.(burned := cut.burned + taken)
    else Distribute(cut, taken, PolicyParts(taken), reporter, offender)
  }

  function SlashStatus(e: Economy, status: Status, offender: Address, params: Params, now: int): Status {
    if Taken(e, offender, params) > 0 && params.suspendFor > 0 && params.scope != ScopeNone
    then Suspend(status, offender, params.scope, params.suspendFor, now)
    else status
  }

  /** The dust one slash leaves behind. */
  function SlashDust(e: Economy, offender: Address, params: Params): int {
    var taken := Taken(e, offender, params);
    if taken > 0 && params.kind.Safety?
    then DustOf(WithCut(e.validators, offender, AskedAmount(e.validators, offender, params)), offender,
      HonestPot(taken, PolicyParts(taken)))
    else 0
  }

  lemma {:induction false} CountKeptByCut(validators: seq<Validator>, i: nat, v: Validator, offender: Address)
    requires i < |validators| && validators[i].address == offender == v.address
    ensures OthersCount(validators[i := v], offender) == OthersCount(validators, offender)
  {
    if i == 0 {
      assert validators[i := v][1..] == validators[1..];
    } else {
      CountKeptByCut(validators[1..], i - 1, v, offender);
      assert validators[i := v][1..] == validators[1..][i - 1 := v];
    }
  }

  /** One slash conserves stakes, balances, treasury and burned supply together, up to
      a dust of at most k-1 for k others with positive stakes. */
  lemma SlashConserves(e: Economy, offender: Address, params: Params, reporter: Address)
    requires NonNegativeStakes(e.validators)
    ensures Worth(SlashEconomy(e, offender, params, reporter)) == Worth(e) - SlashDust(e, offender, params)
    ensures var k := OthersCount(e.validators, offender);
      0 <= SlashDust(e, offender, params) <= if k == 0 then 0 else k - 1
    ensures NonNegativeStakes(SlashEconomy(e, offender, params, reporter).validators)
  {
    var asked, taken := AskedAmount(e.validators, offender, params), Taken(e, offender, params);
    CutLeavesStakes(e.validators, offender, asked);
    var cut := e.(validators := WithCut(e.validators, offender, asked));
    var i := Find(e.validators, offender);
    if taken > 0 {
      CountKeptByCut(e.validators, i, cut.validators[i], offender);
      PolicyPot(taken);
      if params.kind.Safety? {
        DistributeWorth(cut, taken, PolicyParts(taken), reporter, offender);
        DustBound(cut.validators, offender, HonestPot(taken, PolicyParts(taken)));
      }
    }
  }

  /** Slashing only ever credits balances. */
  lemma SlashCreditsOnly(e: Economy, offender: Address, params: Params, reporter: Address)
    requires NonNegativeStakes(e.validators)
    ensures forall a: Address :: At(e.balances, a) <= At(SlashEconomy(e, offender, params, reporter).balances, a)
  {
    var asked, taken := AskedAmount(e.validators, offender, params), Taken(e, offender, params);
    CutLeavesStakes(e.validators, offender, asked);
    if taken > 0 && params.kind.Safety? {
      var cut := e.(validators := WithCut(e.validators, offender, asked));
      var parts := PolicyParts(taken);
      PolicyPot(taken);
      var sunk := cut.(burned := cut.burned + parts.burn, treasury := cut.treasury + parts.treasury);
      var whistled := PayWhistle(sunk, parts.whistle, reporter);
      var stakes := OthersStake(cut.validators, offender);
      if HonestPot(taken, parts) > 0 && stakes > 0 {
        PaySharesCreditsOnly(whistled.balances, cut.validators, offender, HonestPot(taken, parts), stakes);
      }
    }
  }

  lemma {:induction false} PaySharesCreditsOnly(balances: Table, validators: seq<Validator>, offender: Address,
      pot: int, stakes: int)
    requires stakes > 0
    ensures forall a: Address :: At(balances, a) <= At(PayShares(balances, validators, offender, pot, stakes), a)
    decreases |validators|
  {
    if validators != [] {
      var share := Share(validators[0], offender, pot, stakes);
      var next := if share > 0 then Credit(balances, validators[0].address, share) else balances;
      PaySharesCreditsOnly(next, validators[1..], offender, pot, stakes);
      forall a: Address ensures At(balances, a) <= At(PayShares(balances, validators, offender, pot, stakes), a) {
        assert At(balances, a) <= At(next, a);
      }
    }
  }

  /** Slashing a validator with a positive stake by a positive amount strictly lowers
      the total stake. */
  lemma SlashLowersStake(e: Economy, offender: Address, params: Params, reporter: Address)
    requires NonNegativeStakes(e.validators)
    ensures StakeSum(SlashEconomy(e, offender, params, reporter).validators)
         == StakeSum(e.validators) - Taken(e, offender, params)
    ensures var i := Find(e.validators, offender);
      (Taken(e, offender, params) > 0) ==
      (AskedAmount(e.validators, offender, params) > 0 && i < |e.validators| && e.validators[i].stake > 0)
  {
    CutLeavesStakes(e.validators, offender, AskedAmount(e.validators, offender, params));
  }

  /** One side of a joint penalty; an absent validator or a zero amount is skipped. */
  function ClusterPart(e: Economy, a: Address, amount: int, reporter: Address): Economy {
    if amount > 0 && a.text != "" then SlashEconomy(e, a, SafetyPolicy(amount, 1.0), reporter) else e
  }

  /** A joint penalty of 40 percent for the main validator, the rest for its partner,
      the partner first. */
  function SlashClusterEconomy(e: Economy, main: Address, sub: Address, total: int, reporter: Address): Economy {
    var mainAmount := total * 40 / 100;
    if total <= 0 then e
    else ClusterPart(ClusterPart(e, sub, total - mainAmount, reporter), main, mainAmount, reporter)
  }

  function ClusterPartStatus(e: Economy, status: Status, a: Address, amount: int, now: int): Status {
    if amount > 0 && a.text != "" then SlashStatus(e, status, a, SafetyPolicy(amount, 1.0), now) else status
  }

  /** The suspensions of a joint penalty, the partner first. */
  function PartsStatus(e: Economy, status: Status, main: Address, mainAmount: int, sub: Address, subAmount: int,
      reporter: Address, now: int): Status {
    ClusterPartStatus(ClusterPart(e, sub, subAmount, reporter), ClusterPartStatus(e, status, sub, subAmount, now),
      main, mainAmount, now)
  }

  /** A joint penalty loses no more than the dust of its two slashes. */
  lemma ClusterConserves(e: Economy, main: Address, sub: Address, total: int, reporter: Address)
    requires NonNegativeStakes(e.validators)
    ensures var lost := Worth(e) - Worth(SlashClusterEconomy(e, main, sub, total, reporter));
      0 <= lost <= 2 * |e.validators|
  {
    var mainAmount := total * 40 / 100;
    PartLoses(e, sub, total - mainAmount, reporter);
    PartLoses(ClusterPart(e, sub, total - mainAmount, reporter), main, mainAmount, reporter);
  }

  lemma PartLoses(e: Economy, a: Address, amount: int, reporter: Address)
    requires NonNegativeStakes(e.validators)
    ensures var after := ClusterPart(e, a, amount, reporter);
      && 0 <= Worth(e) - Worth(after) <= |e.validators|
      && NonNegativeStakes(after.validators) && |after.validators| == |e.validators|
  {
    SlashLoses(e, a, SafetyPolicy(amount, 1.0), reporter);
  }

  lemma SlashLoses(e: Economy, offender: Address, params: Params, reporter: Address)
    requires NonNegativeStakes(e.validators)
    ensures var after := SlashEconomy(e, offender, params, reporter);
      && 0 <= Worth(e) - Worth(after) <= |e.validators|
      && NonNegativeStakes(after.validators) && |after.validators| == |e.validators|
  {
    SlashConserves(e, offender, params, reporter);
    CountAtMost(e.validators, offender);
    SlashKeepsList(e, offender, params, reporter);
  }

  /** Slashing changes stakes only: the list of addresses stays as it is. */
  lemma SlashKeepsList(e: Economy, offender: Address, params: Params, reporter: Address)
    ensures var after := SlashEconomy(e, offender, params, reporter).validators;
      |after| == |e.validators| && forall i | 0 <= i < |after| :: after[i].address == e.validators[i].address
  {
    var asked, taken := AskedAmount(e.validators, offender, params), Taken(e, offender, params);
    CutLeavesStakes(e.validators, offender, asked);
    DistributeKeepsValidators(e.(validators := WithCut(e.validators, offender, asked)), taken, PolicyParts(taken),
      reporter, offender);
  }

  lemma DistributeKeepsValidators(e: Economy, total: int, parts: Parts, reporter: Address, offender: Address)
    ensures Distribute(e, total, parts, reporter, offender).validators == e.validators
  {
  }

  lemma {:induction false} CountAtMost(validators: seq<Validator>, offender: Address)
    ensures OthersCount(validators, offender) <= |validators|
  {
    if validators != [] {
      CountAtMost(validators[1..], offender);
    }
  }
}
