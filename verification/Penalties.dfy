/** What a slash does to whom: stake, suspension and every account, one by one. */
module Penalties {
  import opened Accounts
  import opened Arithmetic
  import opened Slashing

  // ----- the stake

  /** The stake that remains: nothing is taken from nobody, and no more than there is. */
  function Remaining(stake: int, asked: int): int {
    if asked <= 0 then stake else if stake < asked then 0 else stake - asked
  }

  /** A slash cuts the offender's first entry by what is asked, down to nothing, and leaves
      every other entry as it is. */
  lemma SlashCutsOffenderOnly(e: Economy, offender: Address, params: Params, reporter: Address, j: nat)
    requires j < |e.validators|
    ensures var after := SlashEconomy(e, offender, params, reporter).validators;
      && |after| == |e.validators| && after[j].address == e.validators[j].address
      && after[j].stake == (if j == Find(e.validators, offender)
           then Remaining(e.validators[j].stake, AskedAmount(e.validators, offender, params))
             else e.validators[j].stake)
  {
    var cut := e.(validators := WithCut(e.validators, offender, AskedAmount(e.validators, offender, params)));
    var taken := Taken(e, offender, params);
    DistributeKeepsValidators(cut, taken, PolicyParts(taken), reporter, offender);
  }

  /** The multiplier counts when it is positive and not one: it multiplies, rounding down. */
  lemma AskedOfBase(validators: seq<Validator>, offender: Address, params: Params)
    ensures var base, asked := BaseAmount(validators, offender, params), AskedAmount(validators, offender, params);
      if params.correlationMul <= 0.0 || params.correlationMul == 1.0 then asked == base
      else asked as real <= base as real * params.correlationMul < asked as real + 1.0
  {
  }

  /** The base is an absolute amount if there is one; else a percentage of the stake, rounded
      down but at least one. */
  lemma BaseOfParams(validators: seq<Validator>, offender: Address, params: Params)
    requires Find(validators, offender) < |validators| && validators[Find(validators, offender)].stake > 0
    ensures var stake, base := validators[Find(validators, offender)].stake, BaseAmount(validators, offender, params);
      && (params.amount > 0 || params.percent <= 0.0 ==> base == params.amount)
      && (params.amount <= 0 && params.percent > 0.0 ==> IsPercent(stake, params.percent, base))
  {
    var stake := validators[Find(validators, offender)].stake;
    if params.amount <= 0 && params.percent > 0.0 {
      PercentRounded(stake, params.percent, BaseAmount(validators, offender, params));
    }
  }

  /** The part of the stake, rounded down but at least one. */
  ghost predicate IsPercent(stake: int, percent: real, n: int) {
    var part := stake as real * percent;
    if part < 1.0 then n == 1 else n as real <= part < n as real + 1.0
  }

  lemma PercentRounded(stake: int, percent: real, n: int)
    requires stake > 0 && percent > 0.0
    requires n == if PercentOf(stake, percent) <= 0 then 1 else PercentOf(stake, percent)
    ensures IsPercent(stake, percent, n)
  {
    MulPositive(stake as real, percent);
    FloorOrOne(stake as real * percent, n);
  }

  /** A ten-thousandth, rounded down. */
  lemma TenThousandth(stake: int)
    requires stake >= 0
    ensures PercentOf(stake, 0.0001) == stake / 10000
  {
    var q, r := stake / 10000, stake % 10000;
    assert stake == 10000 * q + r;
    assert stake as real * 0.0001 == q as real + r as real / 10000.0;
  }

  /** A downtime slash takes a ten-thousandth of the stake, rounded down but at least one
      token, and nothing where there is no stake. */
  lemma DowntimeTakes(e: Economy, offender: Address)
    requires Find(e.validators, offender) < |e.validators|
    ensures var i := Find(e.validators, offender);
      var stake := e.validators[i].stake;
      SlashEconomy(e, offender, DOWNTIME_POLICY, Address("")).validators[i].stake
      == stake - (if stake <= 0 then 0 else if stake < 10000 then 1 else stake / 10000)
  {
    var i := Find(e.validators, offender);
    var stake := e.validators[i].stake;
    SlashCutsOffenderOnly(e, offender, DOWNTIME_POLICY, Address(""), i);
    if stake >= 0 {
      TenThousandth(stake);
    } else {
      assert stake as real * 0.0001 < 0.0;
    }
  }

  // ----- the suspension

  /** Whether a slash takes anything: something is asked of a listed, positive stake. */
  predicate TakesSomething(e: Economy, offender: Address, params: Params) {
    var i := Find(e.validators, offender);
    AskedAmount(e.validators, offender, params) > 0 && i < |e.validators| && e.validators[i].stake > 0
  }

  lemma TakenIff(e: Economy, offender: Address, params: Params)
    ensures Taken(e, offender, params) > 0 <==> TakesSomething(e, offender, params)
  {
  }

  /** The records of everyone but this one are the same. */
  ghost predicate SameRecordsBut(before: Status, after: Status, offender: Address) {
    forall a | a != offender :: (a in after <==> a in before) && (a in before ==> after[a] == before[a])
  }

  /** A slash that takes something and asks for a suspension leaves the offender with that
      suspension, whatever record there was before, and nobody else's record changes; any
      other slash changes no record. */
  lemma SlashSuspends(e: Economy, status: Status, offender: Address, params: Params, now: int)
    ensures var after := SlashStatus(e, status, offender, params, now);
      if TakesSomething(e, offender, params) && params.suspendFor > 0 && params.scope != ScopeNone
      then offender in after && after[offender] == Runtime(now + params.suspendFor, params.scope)
           && SameRecordsBut(status, after, offender)
      else after == status
  {
    TakenIff(e, offender, params);
  }

  /** After a downtime slash its target may not propose for five minutes, may vote, and may
      propose again from then on. */
  lemma DowntimeBarsFromProposing(e: Economy, status: Status, offender: Address, now: int, later: int)
    requires Find(e.validators, offender) < |e.validators|
    requires e.validators[Find(e.validators, offender)].stake > 0
    ensures var after := SlashStatus(e, status, offender, DOWNTIME_POLICY, now);
      && (IsSuspended(after, offender, ScopePropose, later) <==> later < now + 300)
      && !IsSuspended(after, offender, ScopeVote, later) && !IsSuspended(after, offender, ScopeAll, later)
  {
    TenThousandth(e.validators[Find(e.validators, offender)].stake);
    SlashSuspends(e, status, offender, DOWNTIME_POLICY, now);
  }

  /** After a safety slash the offender may neither vote nor propose for a day, and may do
      both from then on. */
  lemma SafetyBarsForADay(e: Economy, status: Status, offender: Address, amount: int, now: int, later: int)
    requires amount > 0 && Find(e.validators, offender) < |e.validators|
    requires e.validators[Find(e.validators, offender)].stake > 0
    ensures var after := SlashStatus(e, status, offender, SafetyPolicy(amount, 1.0), now);
      && (IsSuspended(after, offender, ScopePropose, later) <==> later < now + 86400)
      && (IsSuspended(after, offender, ScopeVote, later) <==> later < now + 86400)
      && (IsSuspended(after, offender, ScopeAll, later) <==> later < now + 86400)
      && SameRecordsBut(status, after, offender)
  {
    SlashSuspends(e, status, offender, SafetyPolicy(amount, 1.0), now);
  }

  // ----- the accounts

  /** What the entries of one address are due of a pot, by stake, each rounded down. */
  function Due(validators: seq<Validator>, a: Address, pot: int, others: int): int
    requires others > 0
  {
    if validators == [] then 0
    else
      (if validators[0].address == a && pot * validators[0].stake / others > 0
       then pot * validators[0].stake / others else 0)
      + Due(validators[1..], a, pot, others)
  }

  lemma {:induction false} PaySharesAt(balances: Table, validators: seq<Validator>, offender: Address, pot: int,
      stakes: int, a: Address)
    requires stakes > 0
    ensures At(PayShares(balances, validators, offender, pot, stakes), a)
         == At(balances, a) + (if a == offender then 0 else Due(validators, a, pot, stakes))
    decreases |validators|
  {
    if validators != [] {
      var share := Share(validators[0], offender, pot, stakes);
      PaySharesAt(if share > 0 then Credit(balances, validators[0].address, share) else balances,
        validators[1..], offender, pot, stakes, a);
    }
  }

  /** Cutting the offender's stake changes neither what the others hold nor what is due to them. */
  lemma {:induction false} OthersKeptByCut(validators: seq<Validator>, i: nat, v: Validator, offender: Address)
    requires i < |validators| && validators[i].address == offender == v.address
    ensures OthersStake(validators[i := v], offender) == OthersStake(validators, offender)
  {
    if i == 0 {
      assert validators[i := v][1..] == validators[1..];
    } else {
      OthersKeptByCut(validators[1..], i - 1, v, offender);
      assert validators[i := v][1..] == validators[1..][i - 1 := v];
    }
  }

  lemma {:induction false} DueKeptByCut(validators: seq<Validator>, i: nat, v: Validator, a: Address, pot: int,
      others: int)
    requires i < |validators| && validators[i].address == v.address != a && others > 0
    ensures Due(validators[i := v], a, pot, others) == Due(validators, a, pot, others)
  {
    if i == 0 {
      assert validators[i := v][1..] == validators[1..];
    } else {
      DueKeptByCut(validators[1..], i - 1, v, a, pot, others);
      assert validators[i := v][1..] == validators[1..][i - 1 := v];
    }
  }

  /** How much a slash takes from the stakes. */
  function StakeLost(e: Economy, offender: Address, params: Params, reporter: Address): int {
    StakeSum(e.validators) - StakeSum(SlashEconomy(e, offender, params, reporter).validators)
  }

  lemma StakeLostIsTaken(e: Economy, offender: Address, params: Params, reporter: Address)
    ensures Taken(e, offender, params) > 0 ==> StakeLost(e, offender, params, reporter) == Taken(e, offender, params)
    ensures Taken(e, offender, params) <= 0 ==> StakeLost(e, offender, params, reporter) <= 0
  {
    var asked, taken := AskedAmount(e.validators, offender, params), Taken(e, offender, params);
    CutLeavesStakes(e.validators, offender, asked);
    DistributeKeepsValidators(e.(validators := WithCut(e.validators, offender, asked)), taken, PolicyParts(taken),
      reporter, offender);
  }

  /** What the division of a slashed amount pays to one account: the whistle part if it is
      the reporter's, and the pot by stake if it is not the offender's. */
  function PaidOf(validators: seq<Validator>, whistle: int, pot: int, offender: Address, reporter: Address,
      a: Address): int {
    var others := OthersStake(validators, offender);
    (if a == reporter && a.text != "" then whistle else 0)
    + (if a == offender || others <= 0 || pot <= 0 then 0 else Due(validators, a, pot, others))
  }

  /** What a safety slash of t pays to one account: a tenth to the reporter, and what the
      other parts leave to the others by stake. */
  function SlashPays(validators: seq<Validator>, t: int, offender: Address, reporter: Address, a: Address): int {
    PaidOf(validators, t * 10 / 100, t - t * 70 / 100 - t * 15 / 100 - t * 10 / 100, offender, reporter, a)
  }

  /** A safety slash of t, place by place: 70 percent are burned; the treasury gets 15, the
      reporter's 10 if there is no reporter, and the pot if the others hold no stake; each
      account gets what it is paid, and nothing else. */
  lemma SafetySlashPays(e: Economy, offender: Address, params: Params, reporter: Address, a: Address)
    requires params.kind.Safety? && StakeLost(e, offender, params, reporter) > 0
    ensures var t, after := StakeLost(e, offender, params, reporter), SlashEconomy(e, offender, params, reporter);
      var pot, others := t - t * 70 / 100 - t * 15 / 100 - t * 10 / 100, OthersStake(e.validators, offender);
      && after.burned == e.burned + t * 70 / 100
      && after.treasury == e.treasury + t * 15 / 100 + (if reporter.text == "" then t * 10 / 100 else 0)
           + (if others <= 0 then pot else 0)
      && At(after.balances, a) == At(e.balances, a) + SlashPays(e.validators, t, offender, reporter, a)
  {
    StakeLostIsTaken(e, offender, params, reporter);
    var t := Taken(e, offender, params);
    var cut := e.(validators := WithCut(e.validators, offender, AskedAmount(e.validators, offender, params)));
    var parts := PolicyParts(t);
    PolicyPot(t);
    PaidKeptByCut(e, offender, params, parts.whistle, HonestPot(t, parts), reporter, a);
    DistributePays(cut, t, parts, reporter, offender, a);
  }

  lemma PaidKeptByCut(e: Economy, offender: Address, params: Params, whistle: int, pot: int, reporter: Address,
      a: Address)
    requires Taken(e, offender, params) > 0
    ensures var cut := WithCut(e.validators, offender, AskedAmount(e.validators, offender, params));
      && OthersStake(cut, offender) == OthersStake(e.validators, offender)
      && PaidOf(cut, whistle, pot, offender, reporter, a) == PaidOf(e.validators, whistle, pot, offender, reporter, a)
  {
    var i := Find(e.validators, offender);
    var cut := WithCut(e.validators, offender, AskedAmount(e.validators, offender, params));
    OthersKeptByCut(e.validators, i, cut[i], offender);
    var others := OthersStake(e.validators, offender);
    if a != offender && others > 0 {
      DueKeptByCut(e.validators, i, cut[i], a, pot, others);
    }
  }

  lemma DistributePays(e: Economy, t: int, parts: Parts, reporter: Address, offender: Address, a: Address)
    requires t > 0 && Fair(t, parts)
    ensures var after := Distribute(e, t, parts, reporter, offender);
      var pot, others := HonestPot(t, parts), OthersStake(e.validators, offender);
      && after.burned == e.burned + parts.burn
      && after.treasury == e.treasury + parts.treasury + (if reporter.text == "" then parts.whistle else 0)
           + (if others <= 0 then pot else 0)
      && At(after.balances, a) == At(e.balances, a) + PaidOf(e.validators, parts.whistle, pot, offender, reporter, a)
  {
    var sunk := e.(burned := e.burned + parts.burn, treasury := e.treasury + parts.treasury);
    var whistled := PayWhistle(sunk, parts.whistle, reporter);
    WhistlePays(sunk, parts.whistle, reporter, a);
    HonestPays(whistled, HonestPot(t, parts), offender, a);
  }

  lemma WhistlePays(e: Economy, whistle: int, reporter: Address, a: Address)
    requires whistle >= 0
    ensures var after := PayWhistle(e, whistle, reporter);
      && after.burned == e.burned && after.validators == e.validators
      && after.treasury == e.treasury + (if reporter.text == "" then whistle else 0)
      && At(after.balances, a) == At(e.balances, a) + (if a == reporter && a.text != "" then whistle else 0)
  {
  }

  lemma HonestPays(e: Economy, pot: int, offender: Address, a: Address)
    requires pot >= 0
    ensures var after, others := PayHonest(e, pot, offender), OthersStake(e.validators, offender);
      && after.burned == e.burned
      && after.treasury == e.treasury + (if others <= 0 then pot else 0)
      && At(after.balances, a) == At(e.balances, a)
           + (if a == offender || others <= 0 || pot <= 0 then 0 else Due(e.validators, a, pot, others))
  {
    var others := OthersStake(e.validators, offender);
    if others > 0 && pot > 0 {
      PaySharesAt(e.balances, e.validators, offender, pot, others, a);
    }
  }

  /** A downtime slash burns all it takes and pays nobody. */
  lemma DowntimeSlashBurnsAll(e: Economy, offender: Address, params: Params, reporter: Address)
    requires params.kind.Downtime? && StakeLost(e, offender, params, reporter) > 0
    ensures var after := SlashEconomy(e, offender, params, reporter);
      && after.burned == e.burned + StakeLost(e, offender, params, reporter)
      && after.treasury == e.treasury && after.balances == e.balances
  {
    StakeLostIsTaken(e, offender, params, reporter);
  }

  /** A slash that lowers no stake moves no money. */
  lemma NothingTakenNothingMoved(e: Economy, offender: Address, params: Params, reporter: Address)
    requires StakeLost(e, offender, params, reporter) <= 0
    ensures var after := SlashEconomy(e, offender, params, reporter);
      after.burned == e.burned && after.treasury == e.treasury && after.balances == e.balances
  {
    StakeLostIsTaken(e, offender, params, reporter);
  }

  // ----- the joint penalty

  lemma {:induction false} FindInSameList(v: seq<Validator>, w: seq<Validator>, a: Address)
    requires |v| == |w| && forall j | 0 <= j < |v| :: v[j].address == w[j].address
    ensures Find(v, a) == Find(w, a)
  {
    if v != [] {
      FindInSameList(v[1..], w[1..], a);
    }
  }

  lemma PartCuts(e: Economy, a: Address, amount: int, reporter: Address, j: nat)
    requires j < |e.validators|
    ensures var after := ClusterPart(e, a, amount, reporter).validators;
      && |after| == |e.validators| && after[j].address == e.validators[j].address
      && after[j].stake == (if j == Find(e.validators, a) && a.text != ""
           then Remaining(e.validators[j].stake, amount) else e.validators[j].stake)
  {
    SlashCutsOffenderOnly(e, a, SafetyPolicy(amount, 1.0), reporter, j);
  }

  lemma PartKeepsPlaces(e: Economy, a: Address, amount: int, reporter: Address, other: Address)
    ensures var after := ClusterPart(e, a, amount, reporter).validators;
      |after| == |e.validators| && Find(after, other) == Find(e.validators, other)
  {
    SlashKeepsList(e, a, SafetyPolicy(amount, 1.0), reporter);
    FindInSameList(e.validators, ClusterPart(e, a, amount, reporter).validators, other);
  }

  /** The stake that a cut of the partner leaves at this place. */
  function LeftBySub(validators: seq<Validator>, sub: Address, cut: int, j: nat): int
    requires j < |validators|
  {
    if j == Find(validators, sub) && sub.text != "" then Remaining(validators[j].stake, cut) else validators[j].stake
  }

  lemma PartsCut(e: Economy, main: Address, mainAmount: int, sub: Address, subAmount: int, reporter: Address, j: nat)
    requires j < |e.validators|
    ensures var after := ClusterPart(ClusterPart(e, sub, subAmount, reporter), main, mainAmount, reporter).validators;
      var left := LeftBySub(e.validators, sub, subAmount, j);
      && |after| == |e.validators| && after[j].address == e.validators[j].address
      && after[j].stake == (if j == Find(e.validators, main) && main.text != ""
        then Remaining(left, mainAmount) else left)
  {
    PartKeepsPlaces(e, sub, subAmount, reporter, main);
    PartCuts(e, sub, subAmount, reporter, j);
    PartCuts(ClusterPart(e, sub, subAmount, reporter), main, mainAmount, reporter, j);
  }

  /** A joint penalty of a total takes 40 percent, rounded down, from the main validator and
      the rest from its partner, from each down to nothing; every other stake stays. */
  lemma ClusterCuts(e: Economy, main: Address, sub: Address, total: int, mainAmount: int, reporter: Address, j: nat)
    requires j < |e.validators| && total > 0 && mainAmount == total * 40 / 100
    ensures var after := SlashClusterEconomy(e, main, sub, total, reporter).validators;
      var left := LeftBySub(e.validators, sub, total - mainAmount, j);
      && |after| == |e.validators| && after[j].address == e.validators[j].address
      && after[j].stake ==
           (if j == Find(e.validators, main) && main.text != "" then Remaining(left, mainAmount) else left)
  {
    PartsCut(e, main, mainAmount, sub, total - mainAmount, reporter, j);
  }

  /** One side of a joint penalty is suspended from everything for a day if it has a stake. */
  lemma PartSuspends(e: Economy, status: Status, a: Address, amount: int, now: int)
    ensures var after := ClusterPartStatus(e, status, a, amount, now);
      var i := Find(e.validators, a);
      if amount > 0 && a.text != "" && i < |e.validators| && e.validators[i].stake > 0
      then a in after && after[a] == Runtime(now + 86400, ScopeAll) && SameRecordsBut(status, after, a)
      else after == status
  {
    SlashSuspends(e, status, a, SafetyPolicy(amount, 1.0), now);
  }

  /** The partner is hit if it has a stake; the main validator if its part is not zero and
      the partner's side leaves it a stake. */
  predicate SubIsHit(e: Economy, sub: Address, subAmount: int) {
    var i := Find(e.validators, sub);
    subAmount > 0 && sub.text != "" && i < |e.validators| && e.validators[i].stake > 0
  }

  predicate MainIsHit(e: Economy, main: Address, mainAmount: int, sub: Address, subAmount: int) {
    var i := Find(e.validators, main);
    mainAmount > 0 && main.text != "" && i < |e.validators| && LeftBySub(e.validators, sub, subAmount, i) > 0
  }

  predicate IsHit(e: Economy, main: Address, mainAmount: int, sub: Address, subAmount: int, a: Address) {
    (a == sub && SubIsHit(e, sub, subAmount)) || (a == main && MainIsHit(e, main, mainAmount, sub, subAmount))
  }

  /** Whoever is hit is suspended from everything for a day; every other record stays. */
  predicate SuspendedIfHit(before: Status, after: Status, a: Address, hit: bool, now: int) {
    if hit then a in after && after[a] == Runtime(now + 86400, ScopeAll)
    else (a in after <==> a in before) && (a in before ==> after[a] == before[a])
  }

  /** Of a joint penalty exactly those who are hit are suspended. */
  lemma PartsSuspend(e: Economy, status: Status, main: Address, mainAmount: int, sub: Address, subAmount: int,
      reporter: Address, now: int, a: Address)
    ensures SuspendedIfHit(status, PartsStatus(e, status, main, mainAmount, sub, subAmount, reporter, now), a,
      IsHit(e, main, mainAmount, sub, subAmount, a), now)
  {
    var e1 := ClusterPart(e, sub, subAmount, reporter);
    PartSuspends(e, status, sub, subAmount, now);
    PartSuspends(e1, ClusterPartStatus(e, status, sub, subAmount, now), main, mainAmount, now);
    MainLeft(e, main, sub, subAmount, reporter);
  }

  lemma MainLeft(e: Economy, main: Address, sub: Address, subAmount: int, reporter: Address)
    ensures var e1 := ClusterPart(e, sub, subAmount, reporter);
      var i := Find(e.validators, main);
      && |e1.validators| == |e.validators| && Find(e1.validators, main) == i
      && (i < |e.validators| ==> e1.validators[i].stake == LeftBySub(e.validators, sub, subAmount, i))
  {
    PartKeepsPlaces(e, sub, subAmount, reporter, main);
    if Find(e.validators, main) < |e.validators| {
      PartCuts(e, sub, subAmount, reporter, Find(e.validators, main));
    }
  }
}
