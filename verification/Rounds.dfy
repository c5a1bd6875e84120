/** What one undisturbed commit call does as a whole, and that this is a run of the
    protocol's small steps. */
module Rounds {
  import opened Accounts
  import opened Transactions
  import opened Batch
  import opened Chain
  import opened Pending
  import opened Election
  import opened Protocol

  /** What a call finds outside: the slot hash as a number and two clock readings. */
  datatype Choices = Choices(seed: nat, genesisTime: int, timestamp: int)

  /** The state with what a batch changes. */
  function WithBatch(s: State, balances: Table, nonces: Table, chain: seq<Block>, mempool: seq<Transaction>): State {
    s.(economy := s.economy.(balances := balances), nonces := nonces, chain := chain, mempool := mempool)
  }

  /** The state after a batch has been committed, chained, paid for and purged. */
  function AfterBatch(env: Env, s: State, proposer: Address, final: seq<Transaction>, c: Choices): State {
    var book := CommitAll(s.Books(), final);
    WithBatch(s, Credit(book.balances, proposer, Fees(final) + 5), book.nonces,
      Appended(env.hash, s.chain, final, c.genesisTime, c.timestamp), Kept(Committed(env.hash, final), s.mempool))
  }

  /** Why a call ends where it does. */
  datatype Verdict = Idle | Rejected(proposer: Address) | Approval(proposer: Address)

  function Decide(env: Env, s: State, seed: nat): Verdict {
    var v := SelectEligible(s.economy.validators, s.status, seed, s.clock);
    if s.committing || s.mempool == [] || s.economy.validators == [] || v.address !in env.wallets then Idle
    else if Accepted(s.economy.validators, s.status, s.clock) then Approval(v.address)
    else Rejected(v.address)
  }

  /** The effect of a call: nothing, a slashed proposer, or some outcome of the batch. */
  ghost predicate Effect(env: Env, s: State, c: Choices, t: State) {
    match Decide(env, s, c.seed)
    case Idle => t == s
    case Rejected(proposer) => t == Slashed(s, proposer, PENALTY, Address(""))
    case Approval(proposer) =>
      exists final ::
        && IsOutcome(env.verify, s.mempool, s.nonces, s.economy.balances, final)
        && t == AfterBatch(env, s, proposer, final, c)
  }

  lemma ApprovalEffect(env: Env, s: State, c: Choices, t: State, final: seq<Transaction>)
    requires Decide(env, s, c.seed).Approval?
    requires IsOutcome(env.verify, s.mempool, s.nonces, s.economy.balances, final)
    requires t == AfterBatch(env, s, Decide(env, s, c.seed).proposer, final, c)
    ensures Effect(env, s, c, t)
  {
  }

  /** The state after a batch, put together from its parts. */
  lemma PartsOfBatch(env: Env, s: State, proposer: Address, final: seq<Transaction>, c: Choices, t: State,
      balances: Table, nonces: Table, chain: seq<Block>, mempool: seq<Transaction>)
    requires t == WithBatch(s, balances, nonces, chain, mempool)
    requires balances == Credit(CommitAll(s.Books(), final).balances, proposer, Fees(final) + 5)
    requires nonces == CommitAll(s.Books(), final).nonces
    requires chain == Appended(env.hash, s.chain, final, c.genesisTime, c.timestamp)
    requires mempool == Kept(Committed(env.hash, final), s.mempool)
    ensures t == AfterBatch(env, s, proposer, final, c)
  {
    assert AfterBatch(env, s, proposer, final, c) == WithBatch(s, balances, nonces, chain, mempool);
  }

  // ----- a call as a run

  /** A step of call 0, after its entry, under these choices. */
  predicate OwnStep(step: Step, c: Choices) {
    match step
    case Guard(id) => id == 0
    case CheckSize(id) => id == 0
    case Choose(id, seed) => id == 0 && seed == c.seed
    case Vote(id) => id == 0
    case Punish(id) => id == 0
    case TakeSnapshot(id) => id == 0
    case SnapNonces(id) => id == 0
    case SnapBalances(id) => id == 0
    case Execute(id, _) => id == 0
    case AppendBlock(id, genesisTime, timestamp) => id == 0 && genesisTime == c.genesisTime && timestamp == c.timestamp
    case Reward(id) => id == 0
    case Purge(id) => id == 0
    case Leave(id) => id == 0
    case _ => false
  }

  ghost predicate OneCall(steps: seq<Step>, c: Choices) {
    steps != [] && steps[0] == Call(0) && forall i | 1 <= i < |steps| :: OwnStep(steps[i], c)
  }

  /** A run that enters call 0 and then takes only that call's steps. */
  ghost predicate CallRan(env: Env, s: State, t: State, c: Choices) {
    exists steps :: OneCall(steps, c) && Reaches(env, s, steps, t)
  }

  lemma {:induction false} ReachesOneMore(env: Env, s: State, steps: seq<Step>, t: State, step: Step)
    requires Reaches(env, s, steps, t) && Enabled(env, t, step)
    ensures Reaches(env, s, steps + [step], Apply(env, t, step))
    decreases |steps|
  {
    if steps == [] {
      assert Reaches(env, Apply(env, t, step), [], Apply(env, t, step));
      assert (steps + [step])[1..] == [];
    } else {
      ReachesOneMore(env, Apply(env, s, steps[0]), steps[1..], t, step);
      assert (steps + [step])[1..] == steps[1..] + [step];
    }
  }

  lemma ReachesOne(env: Env, s: State, step: Step)
    requires Enabled(env, s, step)
    ensures Reaches(env, s, [step], Apply(env, s, step))
  {
    assert Reaches(env, Apply(env, s, step), [step][1..], Apply(env, s, step));
  }

  lemma {:induction false} ReachesConcat(env: Env, s: State, a: seq<Step>, t: State, b: seq<Step>, u: State)
    requires Reaches(env, s, a, t) && Reaches(env, t, b, u)
    ensures Reaches(env, s, a + b, u)
    decreases |a|
  {
    if a == [] {
      assert a + b == b;
    } else {
      ReachesConcat(env, Apply(env, s, a[0]), a[1..], t, b, u);
      assert (a + b)[0] == a[0] && (a + b)[1..] == a[1..] + b;
    }
  }

  /** What a run reaches from a reachable state is reachable. */
  lemma ReachableOn(env: Env, s: State, steps: seq<Step>, t: State)
    requires Reachable(env, s) && Reaches(env, s, steps, t)
    ensures Reachable(env, t)
  {
    var s0, before :| Init(env, s0) && Reaches(env, s0, before, s);
    ReachesConcat(env, s0, before, s, steps, t);
  }

  lemma OwnStepRan(env: Env, s: State, t: State, c: Choices, step: Step)
    requires CallRan(env, s, t, c) && Enabled(env, t, step) && OwnStep(step, c)
    ensures CallRan(env, s, Apply(env, t, step), c)
  {
    var steps :| OneCall(steps, c) && Reaches(env, s, steps, t);
    ReachesOneMore(env, s, steps, t, step);
    assert OneCall(steps + [step], c);
  }

  /** Nobody at work. */
  predicate Quiet(s: State) {
    s.calls == map[] && s.holder == 0
  }

  function InPhase(s: State, phase: Phase): State {
    s.(committing := true, calls := map[0 := phase])
  }

  /** One step that moves the call from phase p to phase q and the rest from t to u. */
  lemma PhaseRan(env: Env, s: State, t: State, p: Phase, c: Choices, step: Step, u: State, q: Phase)
    requires CallRan(env, s, InPhase(t, p), c) && Enabled(env, InPhase(t, p), step) && OwnStep(step, c)
    requires Apply(env, InPhase(t, p), step) == InPhase(u, p).Move(0, q)
    ensures CallRan(env, s, InPhase(u, q), c)
  {
    OwnStepRan(env, s, InPhase(t, p), c, step);
    NextPhase(u, p, q);
  }

  lemma NextPhase(u: State, p: Phase, q: Phase)
    ensures InPhase(u, p).Move(0, q) == InPhase(u, q)
  {
    assert map[0 := p][0 := q] == map[0 := q];
  }

  lemma EntryRan(env: Env, s: State, c: Choices)
    requires Quiet(s)
    ensures CallRan(env, s, s.(calls := map[0 := Called]), c)
  {
    assert Reaches(env, s, [], s);
    ReachesOneMore(env, s, [], s, Call(0));
    assert [] + [Call(0)] == [Call(0)] && OneCall([Call(0)], c);
    assert Apply(env, s, Call(0)) == s.(calls := map[0 := Called]);
  }

  lemma LostGuardRan(env: Env, s: State, c: Choices)
    requires Quiet(s) && s.committing
    ensures CallRan(env, s, s, c)
  {
    EntryRan(env, s, c);
    var called := s.(calls := map[0 := Called]);
    OwnStepRan(env, s, called, c, Guard(0));
    assert called.calls - {0} == map[];
    assert Apply(env, called, Guard(0)) == s;
  }

  lemma WonGuardRan(env: Env, s: State, c: Choices)
    requires Quiet(s) && !s.committing
    ensures CallRan(env, s, InPhase(s, Won), c)
  {
    EntryRan(env, s, c);
    var called := s.(calls := map[0 := Called]);
    OwnStepRan(env, s, called, c, Guard(0));
    assert called.calls[0 := Won] == map[0 := Won];
    assert Apply(env, called, Guard(0)) == InPhase(s, Won);
  }

  lemma LeaveRan(env: Env, s: State, t: State, c: Choices)
    requires CallRan(env, s, InPhase(t, Leaving), c) && Quiet(t) && !t.committing
    ensures CallRan(env, s, t, c)
  {
    OwnStepRan(env, s, InPhase(t, Leaving), c, Leave(0));
    assert InPhase(t, Leaving).calls - {0} == map[];
    assert Apply(env, InPhase(t, Leaving), Leave(0)) == t;
  }

  lemma SizeRan(env: Env, s: State, c: Choices)
    requires Quiet(s) && !s.committing
    ensures CallRan(env, s, InPhase(s, if s.mempool == [] then Leaving else NonEmpty), c)
  {
    WonGuardRan(env, s, c);
    PhaseRan(env, s, s, Won, c, CheckSize(0), s, if s.mempool == [] then Leaving else NonEmpty);
  }

  lemma ChoiceRan(env: Env, s: State, c: Choices)
    requires Quiet(s) && !s.committing && s.mempool != []
    ensures var v := SelectEligible(s.economy.validators, s.status, c.seed, s.clock);
      CallRan(env, s, InPhase(s, if s.economy.validators == [] || v.address !in env.wallets
        then Leaving else Chosen(v.address)), c)
  {
    SizeRan(env, s, c);
    var v := SelectEligible(s.economy.validators, s.status, c.seed, s.clock);
    PhaseRan(env, s, s, NonEmpty, c, Choose(0, c.seed), s,
      if s.economy.validators == [] || v.address !in env.wallets then Leaving else Chosen(v.address));
  }

  lemma VoteRan(env: Env, s: State, c: Choices)
    requires Quiet(s) && !Decide(env, s, c.seed).Idle?
    ensures CallRan(env, s, InPhase(s,
      if Decide(env, s, c.seed).Approval? then Approved(Decide(env, s, c.seed).proposer)
        else Refused(Decide(env, s, c.seed).proposer)), c)
  {
    var v := SelectEligible(s.economy.validators, s.status, c.seed, s.clock);
    ChoiceRan(env, s, c);
    PhaseRan(env, s, s, Chosen(v.address), c, Vote(0), s,
      if Decide(env, s, c.seed).Approval? then Approved(v.address) else Refused(v.address));
  }

  lemma RejectedRan(env: Env, s: State, c: Choices)
    requires Quiet(s) && Decide(env, s, c.seed).Rejected?
    ensures CallRan(env, s, Slashed(s, Decide(env, s, c.seed).proposer, PENALTY, Address("")), c)
  {
    var proposer := Decide(env, s, c.seed).proposer;
    VoteRan(env, s, c);
    PhaseRan(env, s, s, Refused(proposer), c, Punish(0), Slashed(s, proposer, PENALTY, Address("")), Leaving);
    LeaveRan(env, s, Slashed(s, proposer, PENALTY, Address("")), c);
  }

  lemma SnapshotsRan(env: Env, s: State, c: Choices)
    requires Quiet(s) && Decide(env, s, c.seed).Approval?
    ensures CallRan(env, s, InPhase(s, Ready(Decide(env, s, c.seed).proposer, s.mempool, s.nonces,
      s.economy.balances)), c)
  {
    var proposer := Decide(env, s, c.seed).proposer;
    VoteRan(env, s, c);
    PhaseRan(env, s, s, Approved(proposer), c, TakeSnapshot(0), s, Snapped(proposer, s.mempool));
    PhaseRan(env, s, s, Snapped(proposer, s.mempool), c, SnapNonces(0), s, WithNonces(proposer, s.mempool, s.nonces));
    PhaseRan(env, s, s, WithNonces(proposer, s.mempool, s.nonces), c, SnapBalances(0),
      s, Ready(proposer, s.mempool, s.nonces, s.economy.balances));
  }

  /** The state with the batch committed and chained. */
  function AfterChain(env: Env, s: State, final: seq<Transaction>, c: Choices): State {
    s.WithBooks(CommitAll(s.Books(), final)).(chain := Appended(env.hash, s.chain, final, c.genesisTime, c.timestamp))
  }

  lemma ChainedRan(env: Env, s: State, c: Choices, final: seq<Transaction>)
    requires Quiet(s) && Decide(env, s, c.seed).Approval?
    requires IsOutcome(env.verify, s.mempool, s.nonces, s.economy.balances, final)
    ensures CallRan(env, s, InPhase(AfterChain(env, s, final, c),
      Chained(Decide(env, s, c.seed).proposer, s.mempool, final)), c)
  {
    var proposer := Decide(env, s, c.seed).proposer;
    SnapshotsRan(env, s, c);
    var t := s.WithBooks(CommitAll(s.Books(), final));
    PhaseRan(env, s, s, Ready(proposer, s.mempool, s.nonces, s.economy.balances), c, Execute(0, final),
      t, Executed(proposer, s.mempool, final));
    PhaseRan(env, s, t, Executed(proposer, s.mempool, final), c, AppendBlock(0, c.genesisTime, c.timestamp),
      AfterChain(env, s, final, c), Chained(proposer, s.mempool, final));
  }

  lemma PaidRan(env: Env, s: State, c: Choices, final: seq<Transaction>)
    requires Quiet(s) && Decide(env, s, c.seed).Approval?
    requires IsOutcome(env.verify, s.mempool, s.nonces, s.economy.balances, final)
    ensures var proposer := Decide(env, s, c.seed).proposer;
      CallRan(env, s, InPhase(Credited(AfterChain(env, s, final, c), proposer, Fees(final) + 5),
        Rewarded(proposer, s.mempool, final)), c)
  {
    var proposer := Decide(env, s, c.seed).proposer;
    ChainedRan(env, s, c, final);
    var t := AfterChain(env, s, final, c);
    PhaseRan(env, s, t, Chained(proposer, s.mempool, final), c, Reward(0),
      Credited(t, proposer, Fees(final) + 5), Rewarded(proposer, s.mempool, final));
  }

  lemma ApprovedRan(env: Env, s: State, c: Choices, final: seq<Transaction>)
    requires Quiet(s) && Decide(env, s, c.seed).Approval?
    requires IsOutcome(env.verify, s.mempool, s.nonces, s.economy.balances, final)
    ensures CallRan(env, s, AfterBatch(env, s, Decide(env, s, c.seed).proposer, final, c), c)
  {
    var proposer := Decide(env, s, c.seed).proposer;
    PaidRan(env, s, c, final);
    var paid := Credited(AfterChain(env, s, final, c), proposer, Fees(final) + 5);
    PhaseRan(env, s, paid, Rewarded(proposer, s.mempool, final), c, Purge(0), AfterBatch(env, s, proposer, final, c),
      Leaving);
    LeaveRan(env, s, AfterBatch(env, s, proposer, final, c), c);
  }

  /** A call that nobody interferes with has exactly the effect of a run of the protocol
      that enters the call and takes its steps to the end: what is proved of all runs
      holds of the code's own calls. */
  lemma EffectIsARun(env: Env, s: State, c: Choices, t: State)
    requires Quiet(s) && Effect(env, s, c, t)
    ensures CallRan(env, s, t, c)
  {
    match Decide(env, s, c.seed)
    case Rejected(_) => RejectedRan(env, s, c);
    case Approval(proposer) =>
      var final :| IsOutcome(env.verify, s.mempool, s.nonces, s.economy.balances, final)
        && t == AfterBatch(env, s, proposer, final, c);
      ApprovedRan(env, s, c, final);
    case Idle =>
      if s.committing {
        LostGuardRan(env, s, c);
      } else {
        if s.mempool == [] {
          SizeRan(env, s, c);
        } else {
          ChoiceRan(env, s, c);
        }
        LeaveRan(env, s, s, c);
      }
  }

  // ----- an admission as a run

  /** A run with one more step in front. */
  lemma StepBack(env: Env, s: State, step: Step, n: State, steps: seq<Step>, t: State)
    requires Enabled(env, s, step) && Apply(env, s, step) == n && Reaches(env, n, steps, t)
    ensures Reaches(env, s, [step] + steps, t)
  {
    assert ([step] + steps)[0] == step && ([step] + steps)[1..] == steps;
  }

  function Admitting(s: State, a: Admission): State {
    s.(admissions := map[0 := a])
  }

  function AfterAdmission(env: Env, s: State, tx: Transaction): State {
    if Executable(env.verify, s.Books(), tx) then s.(mempool := s.mempool + [tx]) else s
  }

  lemma AdmitRan(env: Env, s: State, tx: Transaction)
    requires s.admissions == map[]
    ensures Reaches(env, Admitting(s, BalanceSeen(tx, At(s.nonces, tx.from) + 1, At(s.economy.balances, tx.from))),
      [Admit(0)],
      AfterAdmission(env, s, tx))
  {
    var n := Admitting(s, BalanceSeen(tx, At(s.nonces, tx.from) + 1, At(s.economy.balances, tx.from)));
    var t := AfterAdmission(env, s, tx);
    assert n.admissions - {0} == map[];
    assert Apply(env, n, Admit(0)) == t;
    StepBack(env, n, Admit(0), t, [], t);
  }

  lemma BalanceRan(env: Env, s: State, tx: Transaction)
    requires s.admissions == map[]
    ensures Reaches(env, Admitting(s, NonceSeen(tx, At(s.nonces, tx.from) + 1)), [ReadBalance(0), Admit(0)],
      AfterAdmission(env, s, tx))
  {
    var a := NonceSeen(tx, At(s.nonces, tx.from) + 1);
    var b := BalanceSeen(tx, At(s.nonces, tx.from) + 1, At(s.economy.balances, tx.from));
    AdmitRan(env, s, tx);
    assert map[0 := a][0 := b] == map[0 := b];
    assert Apply(env, Admitting(s, a), ReadBalance(0)) == Admitting(s, b);
    StepBack(env, Admitting(s, a), ReadBalance(0), Admitting(s, b), [Admit(0)], AfterAdmission(env, s, tx));
    assert [ReadBalance(0)] + [Admit(0)] == [ReadBalance(0), Admit(0)];
  }

  lemma NonceRan(env: Env, s: State, tx: Transaction)
    requires s.admissions == map[]
    ensures Reaches(env, Admitting(s, Arrived(tx)), [ReadNonce(0), ReadBalance(0), Admit(0)],
      AfterAdmission(env, s, tx))
  {
    var a, b := Arrived(tx), NonceSeen(tx, At(s.nonces, tx.from) + 1);
    BalanceRan(env, s, tx);
    assert map[0 := a][0 := b] == map[0 := b];
    assert Apply(env, Admitting(s, a), ReadNonce(0)) == Admitting(s, b);
    StepBack(env, Admitting(s, a), ReadNonce(0), Admitting(s, b), [ReadBalance(0), Admit(0)],
      AfterAdmission(env, s, tx));
    assert [ReadNonce(0)] + [ReadBalance(0), Admit(0)] == [ReadNonce(0), ReadBalance(0), Admit(0)];
  }

  /** An admission that nobody interferes with adds the transaction exactly when it could
      be executed now, and is the protocol's admission from its arrival to its end. */
  lemma AdmissionIsARun(env: Env, s: State, tx: Transaction)
    requires s.admissions == map[]
    ensures Reaches(env, s, [Submit(0, tx), ReadNonce(0), ReadBalance(0), Admit(0)],
      if Executable(env.verify, s.Books(), tx) then s.(mempool := s.mempool + [tx]) else s)
  {
    NonceRan(env, s, tx);
    assert Apply(env, s, Submit(0, tx)) == Admitting(s, Arrived(tx));
    StepBack(env, s, Submit(0, tx), Admitting(s, Arrived(tx)), [ReadNonce(0), ReadBalance(0), Admit(0)],
      AfterAdmission(env, s, tx));
    assert [Submit(0, tx)] + [ReadNonce(0), ReadBalance(0), Admit(0)]
      == [Submit(0, tx), ReadNonce(0), ReadBalance(0), Admit(0)];
  }

  // ----- admission and round together

  /** One admission and one approved call put a transaction on the chain. */
  lemma LoneTransactionCommits(env: Env, s: State, x: Transaction, c: Choices) returns (t: State)
    requires Reachable(env, s) && Quiet(s) && s.admissions == map[] && s.mempool == []
    requires Executable(env.verify, s.Books(), x) && Decide(env, s.(mempool := [x]), c.seed).Approval?
    ensures Reachable(env, t) && t.chain == Appended(env.hash, s.chain, [x], c.genesisTime, c.timestamp)
  {
    var pending := s.(mempool := [x]);
    AdmissionIsARun(env, s, x);
    assert s.mempool + [x] == [x];
    ReachableOn(env, s, [Submit(0, x), ReadNonce(0), ReadBalance(0), Admit(0)], pending);
    SoleOutcome(env.verify, s.Books(), x);
    t := AfterBatch(env, pending, Decide(env, pending, c.seed).proposer, [x], c);
    ApprovedRan(env, pending, c, [x]);
    var round :| Reaches(env, pending, round, t);
    ReachableOn(env, pending, round, t);
  }
}
