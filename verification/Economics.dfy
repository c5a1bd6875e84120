/** Money over whole runs: what is conserved, what stays non-negative, and that every
    commit is an execution one transaction at a time. */
module Economics {
  import opened Accounts
  import opened Transactions
  import opened Batch
  import opened Pending
  import opened Slashing
  import opened Protocol
  import opened NonceSafety

  // ----- conservation

  /** Fees debited by a commit and not yet credited to the proposer. */
  function FeesDue(s: State): int {
    if Round(s).Executed? || Round(s).Chained? then Fees(Round(s).final) else 0
  }

  /** Blocks on the chain, genesis aside, whose reward has been paid. */
  function BlocksPaid(s: State): int {
    (if s.chain == [] then 0 else |s.chain| - 1) - (if Round(s).Chained? then 1 else 0)
  }

  /** Everything there is, less everything that was added, plus everything that was lost. */
  ghost function Base(s: State): int {
    Worth(s.economy) + FeesDue(s) + s.dust - s.airdropped - 5 * BlocksPaid(s)
  }

  ghost predicate StakesInv(s: State) {
    Mutex(s) && NonNegativeStakes(s.economy.validators)
  }

  lemma ExecuteKeepsBase(env: Env, s: State, id: nat, final: seq<Transaction>)
    requires Mutex(s) && Enabled(env, s, Execute(id, final))
    ensures Base(Apply(env, s, Execute(id, final))) == Base(s)
  {
    CommitAllTotal(s.Books(), final);
  }

  lemma CreditKeepsBase(s: State, a: Address, n: int)
    ensures Worth(Credited(s, a, n).economy) == Worth(s.economy) + n
  {
    TotalCredit(s.economy.balances, a, n);
  }

  lemma SlashedKeepsBase(s: State, offender: Address, params: Params, reporter: Address)
    requires NonNegativeStakes(s.economy.validators)
    ensures var n := Slashed(s, offender, params, reporter);
      Worth(n.economy) + n.dust == Worth(s.economy) + s.dust && NonNegativeStakes(n.economy.validators)
  {
    SlashConserves(s.economy, offender, params, reporter);
  }

  /** The steps that move no money. */
  predicate Quiet(step: Step) {
    !step.Execute? && !step.Airdrop? && !step.Reward? && !step.SlashOutside? && !step.Punish?
  }

  lemma QuietStepKeepsEconomy(env: Env, s: State, step: Step)
    requires Enabled(env, s, step) && Quiet(step)
    ensures var n := Apply(env, s, step);
      n.economy == s.economy && n.dust == s.dust && n.airdropped == s.airdropped
  {
    var n := Apply(env, s, step);
  }

  lemma QuietStepKeepsFeesDue(env: Env, s: State, step: Step)
    requires Mutex(s) && Enabled(env, s, step) && Quiet(step)
    ensures FeesDue(Apply(env, s, step)) == FeesDue(s)
  {
    var n := Apply(env, s, step);
  }

  lemma QuietStepKeepsBlocksPaid(env: Env, s: State, step: Step)
    requires Mutex(s) && Enabled(env, s, step) && Quiet(step)
    ensures BlocksPaid(Apply(env, s, step)) == BlocksPaid(s)
  {
    var n := Apply(env, s, step);
  }

  lemma QuietStepKeepsBase(env: Env, s: State, step: Step)
    requires Mutex(s) && Enabled(env, s, step) && Quiet(step)
    ensures Base(Apply(env, s, step)) == Base(s) && Apply(env, s, step).economy == s.economy
  {
    QuietStepKeepsEconomy(env, s, step);
    QuietStepKeepsFeesDue(env, s, step);
    QuietStepKeepsBlocksPaid(env, s, step);
  }

  lemma StepKeepsBase(env: Env, s: State, step: Step)
    requires StakesInv(s) && Enabled(env, s, step)
    ensures StakesInv(Apply(env, s, step)) && Base(Apply(env, s, step)) == Base(s)
  {
    StepKeepsMutex(env, s, step);
    if Quiet(step) {
      QuietStepKeepsBase(env, s, step);
    } else if step.SlashOutside? || step.Punish? {
      SlashStepKeepsBase(env, s, step);
    } else {
      PaymentKeepsBase(env, s, step);
    }
  }

  lemma SlashStepKeepsBase(env: Env, s: State, step: Step)
    requires StakesInv(s) && Enabled(env, s, step) && (step.SlashOutside? || step.Punish?)
    ensures NonNegativeStakes(Apply(env, s, step).economy.validators) && Base(Apply(env, s, step)) == Base(s)
  {
    match step
    case SlashOutside(offender, params, reporter) => SlashedKeepsBase(s, offender, params, reporter);
    case Punish(id) => SlashedKeepsBase(s, s.calls[id].proposer, PENALTY, Address(""));
  }

  lemma PaymentKeepsBase(env: Env, s: State, step: Step)
    requires StakesInv(s) && Enabled(env, s, step) && (step.Execute? || step.Airdrop? || step.Reward?)
    ensures NonNegativeStakes(Apply(env, s, step).economy.validators) && Base(Apply(env, s, step)) == Base(s)
  {
    match step
    case Execute(id, final) => ExecuteKeepsBase(env, s, id, final);
    case Airdrop(to, amount) => CreditKeepsBase(s, to, amount);
    case Reward(id) => CreditKeepsBase(s, s.calls[id].proposer, Fees(s.calls[id].final) + 5);
  }

  lemma {:induction false} RunKeepsBase(env: Env, s: State, steps: seq<Step>, t: State)
    requires StakesInv(s) && Reaches(env, s, steps, t)
    ensures StakesInv(t) && Base(t) == Base(s)
    decreases |steps|
  {
    if steps != [] {
      StepKeepsBase(env, s, steps[0]);
      RunKeepsBase(env, Apply(env, s, steps[0]), steps[1..], t);
    }
  }

  /** Conservation over every run: balances, stakes, treasury and burned supply, with the
      fees on their way to a proposer, are what there was at the start plus the airdrops
      plus 5 for every block that was rewarded, less the dust of the slashes. */
  lemma MoneyConserved(env: Env, s: State, steps: seq<Step>, t: State)
    requires Init(env, s) && Reaches(env, s, steps, t)
    ensures Worth(t.economy) + FeesDue(t) == Worth(s.economy) + t.airdropped + 5 * BlocksPaid(t) - t.dust
    ensures !t.committing ==>
      Worth(t.economy) == Worth(s.economy) + t.airdropped + 5 * (if t.chain == [] then 0 else |t.chain| - 1) - t.dust
  {
    RunKeepsBase(env, s, steps, t);
  }

  /** How many slashes a run makes. */
  function SlashCount(steps: seq<Step>): nat {
    if steps == [] then 0 else (if steps[0].SlashOutside? || steps[0].Punish? then 1 else 0) + SlashCount(steps[1..])
  }

  lemma StepDust(env: Env, s: State, step: Step)
    requires NonNegativeStakes(s.economy.validators) && Enabled(env, s, step)
    ensures var n := Apply(env, s, step);
      && NonNegativeStakes(n.economy.validators) && |n.economy.validators| == |s.economy.validators|
      && 0 <= n.dust - s.dust <= if step.SlashOutside? || step.Punish? then |s.economy.validators| else 0
  {
    match step
    case SlashOutside(offender, params, reporter) => SlashedDust(s, offender, params, reporter);
    case Punish(id) => SlashedDust(s, s.calls[id].proposer, PENALTY, Address(""));
    case _ =>
  }

  lemma SlashedDust(s: State, offender: Address, params: Params, reporter: Address)
    requires NonNegativeStakes(s.economy.validators)
    ensures var n := Slashed(s, offender, params, reporter);
      && NonNegativeStakes(n.economy.validators) && |n.economy.validators| == |s.economy.validators|
      && 0 <= n.dust - s.dust <= |s.economy.validators|
  {
    SlashConserves(s.economy, offender, params, reporter);
    SlashLoses(s.economy, offender, params, reporter);
  }

  /** Over a whole run, rounding loses at most one unit per slash and validator. */
  lemma {:induction false} DustOverRun(env: Env, s: State, steps: seq<Step>, t: State)
    requires NonNegativeStakes(s.economy.validators) && Reaches(env, s, steps, t)
    ensures |t.economy.validators| == |s.economy.validators|
    ensures 0 <= t.dust - s.dust <= SlashCount(steps) * |s.economy.validators|
    decreases |steps|
  {
    if steps != [] {
      StepDust(env, s, steps[0]);
      DustOverRun(env, Apply(env, s, steps[0]), steps[1..], t);
      OneMoreSlash(SlashCount(steps[1..]), |s.economy.validators|);
    }
  }

  lemma OneMoreSlash(count: nat, n: nat)
    ensures (1 + count) * n == n + count * n
  {
  }

  // ----- solvency and sequential refinement

  ghost predicate NonNegativeTx(t: Transaction) {
    t.amount >= 0 && t.fee >= 0
  }

  /** Inputs without negative amounts; the node itself does not check this. */
  predicate Clean(step: Step) {
    match step
    case Submit(_, tx) => tx.amount >= 0 && tx.fee >= 0
    case Airdrop(_, amount) => amount >= 0
    case _ => true
  }

  ghost predicate AllClean(steps: seq<Step>) {
    forall i | 0 <= i < |steps| :: Clean(steps[i])
  }

  ghost predicate InputsClean(s: State) {
    && (forall t | t in s.mempool :: NonNegativeTx(t))
    && (forall id | id in s.admissions :: NonNegativeTx(s.admissions[id].tx))
    && (Round(s).HasSnap() ==> forall t | t in Round(s).snap :: NonNegativeTx(t))
    && (Round(s).HasFinal() ==> forall t | t in Round(s).final :: NonNegativeTx(t))
  }

  /** Since the balance snapshot, balances have only grown. */
  ghost predicate SnapshotBelow(s: State) {
    Round(s).Ready? ==> AtMost(Round(s).balances, s.economy.balances)
  }

  ghost predicate CleanInv(s: State) {
    && Mutex(s) && NoncesFrozen(s)
    && NonNegativeStakes(s.economy.validators)
    && InputsClean(s) && SnapshotBelow(s) && Solvent(s.economy.balances)
  }

  lemma ExecuteRefinesSequential(env: Env, s: State, id: nat, final: seq<Transaction>)
    requires CleanInv(s) && Enabled(env, s, Execute(id, final))
    ensures ExecuteAll(env.verify, s.Books(), final) == Some(CommitAll(s.Books(), final))
    ensures SolventThroughout(s.Books(), final)
    ensures forall t | t in final :: NonNegativeTx(t)
  {
    var r := s.calls[id];
    OutcomeMembers(env.verify, r.snap, r.nonces, r.balances, final);
    assert NonNegativeAmounts(r.snap);
    ParallelRefinesSequential(env.verify, r.snap, Book(r.balances, r.nonces), s.Books(), final);
  }

  lemma {:induction false} SolventAtEnd(book: Book, txs: seq<Transaction>)
    requires SolventThroughout(book, txs)
    ensures Solvent(CommitAll(book, txs).balances)
    decreases |txs|
  {
    if txs != [] {
      SolventAtEnd(Commit(book, txs[0]), txs[1..]);
    }
  }

  lemma {:induction false} FeesNonNegative(txs: seq<Transaction>)
    requires forall t | t in txs :: NonNegativeTx(t)
    ensures Fees(txs) >= 0
  {
    if txs != [] {
      assert txs[0] in txs;
      FeesNonNegative(txs[1..]);
    }
  }

  lemma CreditKeepsSolvent(m: Table, a: Address, n: int)
    requires n >= 0
    ensures AtMost(m, Credit(m, a, n))
    ensures Solvent(m) ==> Solvent(Credit(m, a, n))
  {
  }

  lemma AtMostKeepsSolvent(low: Table, high: Table)
    requires Solvent(low) && AtMost(low, high)
    ensures Solvent(high)
  {
    forall a | a in high ensures high[a] >= 0 {
      assert At(low, a) <= At(high, a);
    }
  }

  lemma SlashedKeepsSolvent(s: State, offender: Address, params: Params, reporter: Address)
    requires NonNegativeStakes(s.economy.validators) && Solvent(s.economy.balances)
    ensures AtMost(s.economy.balances, Slashed(s, offender, params, reporter).economy.balances)
    ensures Solvent(Slashed(s, offender, params, reporter).economy.balances)
    ensures NonNegativeStakes(Slashed(s, offender, params, reporter).economy.validators)
  {
    SlashConserves(s.economy, offender, params, reporter);
    SlashCreditsOnly(s.economy, offender, params, reporter);
    AtMostKeepsSolvent(s.economy.balances, Slashed(s, offender, params, reporter).economy.balances);
  }

  /** Outside the commit itself, balances only grow. */
  lemma StepOnlyCredits(env: Env, s: State, step: Step)
    requires CleanInv(s) && Enabled(env, s, step) && Clean(step) && !step.Execute?
    ensures var n := Apply(env, s, step);
      && AtMost(s.economy.balances, n.economy.balances) && Solvent(n.economy.balances)
      && NonNegativeStakes(n.economy.validators)
  {
    match step
    case Airdrop(to, amount) => CreditKeepsSolvent(s.economy.balances, to, amount);
    case Reward(id) =>
      FeesNonNegative(s.calls[id].final);
      CreditKeepsSolvent(s.economy.balances, s.calls[id].proposer, Fees(s.calls[id].final) + 5);
    case SlashOutside(offender, params, reporter) => SlashedKeepsSolvent(s, offender, params, reporter);
    case Punish(id) => SlashedKeepsSolvent(s, s.calls[id].proposer, PENALTY, Address(""));
    case _ => QuietStepKeepsEconomy(env, s, step);
  }

  lemma StepKeepsSolvent(env: Env, s: State, step: Step)
    requires CleanInv(s) && Enabled(env, s, step) && Clean(step)
    ensures Solvent(Apply(env, s, step).economy.balances) && NonNegativeStakes(Apply(env, s, step).economy.validators)
  {
    if step.Execute? {
      ExecuteRefinesSequential(env, s, step.id, step.final);
      SolventAtEnd(s.Books(), step.final);
    } else {
      StepOnlyCredits(env, s, step);
    }
  }

  lemma PurgeKeepsClean(env: Env, s: State, id: nat)
    requires Mutex(s) && InputsClean(s) && Enabled(env, s, Purge(id))
    ensures InputsClean(Apply(env, s, Purge(id)))
  {
    var n := Apply(env, s, Purge(id));
    forall t | t in n.mempool ensures NonNegativeTx(t) {
      KeptMembers(Committed(env.hash, s.calls[id].final), s.mempool, t);
    }
  }

  lemma AdmissionsStayClean(env: Env, s: State, step: Step)
    requires InputsClean(s) && Enabled(env, s, step) && Clean(step)
    ensures var n := Apply(env, s, step);
      forall id | id in n.admissions :: NonNegativeTx(n.admissions[id].tx)
  {
    var n := Apply(env, s, step);
  }

  lemma OtherStepKeepsClean(env: Env, s: State, step: Step)
    requires Mutex(s) && InputsClean(s) && Enabled(env, s, step) && Clean(step) && !step.Execute? && !step.Purge?
    ensures InputsClean(Apply(env, s, step))
  {
    AdmissionsStayClean(env, s, step);
    MempoolGrows(env, s, step);
    RoundInherits(env, s, step);
  }

  lemma StepKeepsClean(env: Env, s: State, step: Step)
    requires CleanInv(s) && Enabled(env, s, step) && Clean(step)
    ensures InputsClean(Apply(env, s, step))
  {
    match step
    case Execute(id, final) => ExecuteRefinesSequential(env, s, id, final);
    case Purge(id) => PurgeKeepsClean(env, s, id);
    case _ => OtherStepKeepsClean(env, s, step);
  }

  lemma ReadyStays(env: Env, s: State, step: Step)
    requires Mutex(s) && Enabled(env, s, step) && Round(Apply(env, s, step)).Ready?
    ensures !step.Execute?
    ensures Round(s) == Round(Apply(env, s, step)) || Round(Apply(env, s, step)).balances == s.economy.balances
  {
    var n := Apply(env, s, step);
  }

  lemma StepKeepsSnapshotBelow(env: Env, s: State, step: Step)
    requires CleanInv(s) && Enabled(env, s, step) && Clean(step)
    ensures SnapshotBelow(Apply(env, s, step))
  {
    var n := Apply(env, s, step);
    if Round(n).Ready? {
      ReadyStays(env, s, step);
      StepOnlyCredits(env, s, step);
      AtMostTransitive(Round(n).balances, s.economy.balances, n.economy.balances);
    }
  }

  lemma AtMostTransitive(a: Table, b: Table, c: Table)
    requires AtMost(a, b) && AtMost(b, c)
    ensures AtMost(a, c)
  {
    forall s: Address ensures At(a, s) <= At(c, s) {
      assert At(a, s) <= At(b, s) <= At(c, s);
    }
  }

  lemma StepKeepsCleanInv(env: Env, s: State, step: Step)
    requires CleanInv(s) && Enabled(env, s, step) && Clean(step)
    ensures CleanInv(Apply(env, s, step))
  {
    StepKeepsMutex(env, s, step);
    StepKeepsFrozen(env, s, step);
    StepKeepsSolvent(env, s, step);
    StepKeepsClean(env, s, step);
    StepKeepsSnapshotBelow(env, s, step);
  }

  lemma {:induction false} CleanRunHasInv(env: Env, s: State, steps: seq<Step>, t: State)
    requires CleanInv(s) && Reaches(env, s, steps, t) && AllClean(steps)
    ensures CleanInv(t)
    decreases |steps|
  {
    if steps != [] {
      StepKeepsCleanInv(env, s, steps[0]);
      CleanRunHasInv(env, Apply(env, s, steps[0]), steps[1..], t);
    }
  }

  /** In every run without negative inputs, from non-negative balances: no balance is ever
      negative, and every commit - whatever credits landed since its snapshot - is an
      execution of its batch one transaction at a time, each finding the next nonce and
      enough balance at its turn, through states that are all solvent. */
  lemma EveryCommitIsSequential(env: Env, s: State, steps: seq<Step>, t: State, id: nat, final: seq<Transaction>)
    requires Init(env, s) && Solvent(s.economy.balances)
    requires Reaches(env, s, steps, t) && AllClean(steps)
    ensures Solvent(t.economy.balances)
    ensures Enabled(env, t, Execute(id, final)) ==>
      && ExecuteAll(env.verify, t.Books(), final) == Some(CommitAll(t.Books(), final))
      && SolventThroughout(t.Books(), final)
  {
    CleanRunHasInv(env, s, steps, t);
    if Enabled(env, t, Execute(id, final)) {
      ExecuteRefinesSequential(env, t, id, final);
    }
  }
}
