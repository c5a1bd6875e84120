/** What single steps of the protocol do to whom, and every account's balance as the sum of
    what happened to it. */
module Ledger {
  import opened Accounts
  import opened Transactions
  import opened Batch
  import opened Slashing
  import opened Penalties
  import opened Election
  import opened Protocol
  import opened Rounds

  // ----- the proposer

  /** The step that chooses a proposer: someone is chosen exactly when there are validators and
      the one whom stakes and records determine has a wallet here, and then it is that one. */
  lemma ChooseElects(env: Env, s: State, id: nat, seed: nat, v: Validator)
    requires Enabled(env, s, Choose(id, seed))
    requires NonNegativeStakes(s.economy.validators) && StakeSum(s.economy.validators) > 0
    requires IsProposer(s.economy.validators, s.status, seed % StakeSum(s.economy.validators), s.clock, v)
    ensures var n := Apply(env, s, Choose(id, seed));
      id in n.calls && n.calls[id] == (if v.address in env.wallets then Chosen(v.address) else Leaving)
  {
    SelectedIffProposer(s.economy.validators, s.status, seed, s.clock, v);
    assert s.economy.validators != [];
  }

  /** And so of a whole call: it decides on that one, by the vote, exactly when nothing stops it
      before. */
  lemma DecideElects(env: Env, s: State, seed: nat, v: Validator)
    requires NonNegativeStakes(s.economy.validators) && StakeSum(s.economy.validators) > 0
    requires IsProposer(s.economy.validators, s.status, seed % StakeSum(s.economy.validators), s.clock, v)
    ensures Decide(env, s, seed) ==
      if s.committing || s.mempool == [] || v.address !in env.wallets then Idle
      else if 3 * YesVotes(s.economy.validators, s.status, s.clock) > 2 * |s.economy.validators|
        then Approval(v.address)
      else Rejected(v.address)
  {
    SelectedIffProposer(s.economy.validators, s.status, seed, s.clock, v);
    assert s.economy.validators != [];
  }

  /** The proposer a round has, once it has one. */
  predicate HasProposer(p: Phase) {
    p.Chosen? || p.Approved? || p.Refused? || p.HasSnap()
  }

  ghost predicate ProposersHaveWallets(env: Env, s: State) {
    forall id | id in s.calls && HasProposer(s.calls[id]) :: s.calls[id].proposer in env.wallets
  }

  lemma ChooseKeepsWallets(env: Env, s: State, id: nat, seed: nat)
    requires ProposersHaveWallets(env, s) && Enabled(env, s, Choose(id, seed))
    ensures ProposersHaveWallets(env, Apply(env, s, Choose(id, seed)))
  {
    var n := Apply(env, s, Choose(id, seed));
  }

  /** Only the choice gives a call its proposer. */
  lemma ProposerInherits(env: Env, s: State, step: Step, id: nat)
    requires Enabled(env, s, step) && !step.Choose?
    ensures var n := Apply(env, s, step);
      id in n.calls && HasProposer(n.calls[id]) ==>
        id in s.calls && HasProposer(s.calls[id]) && s.calls[id].proposer == n.calls[id].proposer
  {
    var n := Apply(env, s, step);
  }

  lemma StepKeepsWallets(env: Env, s: State, step: Step)
    requires ProposersHaveWallets(env, s) && Enabled(env, s, step)
    ensures ProposersHaveWallets(env, Apply(env, s, step))
  {
    if step.Choose? {
      ChooseKeepsWallets(env, s, step.id, step.seed);
    } else {
      forall id | id in Apply(env, s, step).calls && HasProposer(Apply(env, s, step).calls[id])
        ensures Apply(env, s, step).calls[id].proposer in env.wallets
      {
        ProposerInherits(env, s, step, id);
      }
    }
  }

  lemma {:induction false} RunKeepsWallets(env: Env, s: State, steps: seq<Step>, t: State)
    requires ProposersHaveWallets(env, s) && Reaches(env, s, steps, t)
    ensures ProposersHaveWallets(env, t)
    decreases |steps|
  {
    if steps != [] {
      StepKeepsWallets(env, s, steps[0]);
      RunKeepsWallets(env, Apply(env, s, steps[0]), steps[1..], t);
    }
  }

  /** In every run nobody proposes whose wallet the node does not hold. */
  lemma EveryProposerHasWallet(env: Env, t: State, id: nat)
    requires Reachable(env, t) && id in t.calls && HasProposer(t.calls[id])
    ensures t.calls[id].proposer in env.wallets
  {
    var s, steps :| Init(env, s) && Reaches(env, s, steps, t);
    RunKeepsWallets(env, s, steps, t);
  }

  // ----- the penalty of a failed round

  /** A refused proposer with a stake loses up to ten of it and may neither vote nor propose
      at any reading of the clock before a day has passed, and may do both from then on;
      nobody else's record changes. */
  lemma PunishBarsForADay(env: Env, s: State, id: nat, later: int)
    requires Enabled(env, s, Punish(id))
    requires var i := Find(s.economy.validators, s.calls[id].proposer);
      i < |s.economy.validators| && s.economy.validators[i].stake > 0
    ensures var n, p := Apply(env, s, Punish(id)), s.calls[id].proposer;
      var i := Find(s.economy.validators, p);
      && (MayNotPropose(n.status, p, later) <==> later < s.clock + 86400)
      && (MayNotVote(n.status, p, later) <==> later < s.clock + 86400)
      && SameRecordsBut(s.status, n.status, p)
      && |n.economy.validators| == |s.economy.validators|
      && n.economy.validators[i].stake == Remaining(s.economy.validators[i].stake, 10)
  {
    var p := s.calls[id].proposer;
    var i := Find(s.economy.validators, p);
    SafetyBarsForADay(s.economy, s.status, p, 10, s.clock, later);
    SlashCutsOffenderOnly(s.economy, p, PENALTY, Address(""), i);
    SuspendedIff(SlashStatus(s.economy, s.status, p, PENALTY, s.clock), p, later);
  }

  // ----- every account

  /** What a slash pays to one account. */
  function SlashChange(e: Economy, offender: Address, params: Params, reporter: Address, a: Address): int {
    var t := StakeLost(e, offender, params, reporter);
    if t > 0 && params.kind.Safety? then SlashPays(e.validators, t, offender, reporter, a) else 0
  }

  lemma SlashChanges(e: Economy, offender: Address, params: Params, reporter: Address, a: Address)
    ensures At(SlashEconomy(e, offender, params, reporter).balances, a)
         == At(e.balances, a) + SlashChange(e, offender, params, reporter, a)
  {
    if StakeLost(e, offender, params, reporter) <= 0 {
      NothingTakenNothingMoved(e, offender, params, reporter);
    } else if params.kind.Safety? {
      SafetySlashPays(e, offender, params, reporter, a);
    } else {
      DowntimeSlashBurnsAll(e, offender, params, reporter);
    }
  }

  /** What a step does to one account: a batch debits cost and credits amounts, an airdrop
      credits its receiver, a reward the proposer with the fees and five, a safety slash its
      reporter and the others; nothing else moves a balance. */
  function Change(s: State, step: Step, a: Address): int {
    match step
    case Execute(_, final) => Delta(final, a)
    case Airdrop(to, amount) => if to == a then amount else 0
    case Reward(id) =>
      if id in s.calls && s.calls[id].Chained? && s.calls[id].proposer == a then Fees(s.calls[id].final) + 5 else 0
    case SlashOutside(offender, params, reporter) => SlashChange(s.economy, offender, params, reporter, a)
    case Punish(id) =>
      if id in s.calls && s.calls[id].Refused? then SlashChange(s.economy, s.calls[id].proposer, PENALTY, Address(""),
        a)
      else 0
    case _ => 0
  }

  lemma OtherStepKeepsBalances(env: Env, s: State, step: Step)
    requires Enabled(env, s, step)
    requires !step.Execute? && !step.Airdrop? && !step.Reward? && !step.SlashOutside? && !step.Punish?
    ensures Apply(env, s, step).economy.balances == s.economy.balances
  {
    var n := Apply(env, s, step);
  }

  lemma StepChanges(env: Env, s: State, step: Step, a: Address)
    requires Enabled(env, s, step)
    ensures At(Apply(env, s, step).economy.balances, a) == At(s.economy.balances, a) + Change(s, step, a)
  {
    match step
    case Execute(id, final) => CommitAllBalances(s.Books(), final, a);
    case Airdrop(to, amount) =>
    case Reward(id) =>
    case SlashOutside(offender, params, reporter) => SlashChanges(s.economy, offender, params, reporter, a);
    case Punish(id) => SlashChanges(s.economy, s.calls[id].proposer, PENALTY, Address(""), a);
    case _ => OtherStepKeepsBalances(env, s, step);
  }

  /** What a run does to one account. */
  ghost function Changes(env: Env, s: State, steps: seq<Step>, a: Address): int
    decreases |steps|
  {
    if steps == [] || !Enabled(env, s, steps[0]) then 0
    else Change(s, steps[0], a) + Changes(env, Apply(env, s, steps[0]), steps[1..], a)
  }

  /** Every account at every moment of every run: its balance is what it started with and what
      the steps did to it - payments made and received, fees, airdrops, rewards, and shares
      of slashes. */
  lemma {:induction false} BalanceIsSumOfChanges(env: Env, s: State, steps: seq<Step>, t: State, a: Address)
    requires Reaches(env, s, steps, t)
    ensures At(t.economy.balances, a) == At(s.economy.balances, a) + Changes(env, s, steps, a)
    decreases |steps|
  {
    if steps != [] {
      StepChanges(env, s, steps[0], a);
      BalanceIsSumOfChanges(env, Apply(env, s, steps[0]), steps[1..], t, a);
    }
  }

  /** One undisturbed approved call, account by account: what the batch pays and receives, and
      fees and reward for the proposer alone. */
  lemma BatchPaysProposer(env: Env, s: State, proposer: Address, final: seq<Transaction>, c: Choices, a: Address)
    ensures At(AfterBatch(env, s, proposer, final, c).economy.balances, a)
         == At(s.economy.balances, a) + Delta(final, a) + (if a == proposer then Fees(final) + 5 else 0)
  {
    CommitAllBalances(s.Books(), final, a);
  }
}
