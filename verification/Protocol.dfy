/** The node as one transition system: racy admissions, overlapping commit calls,
    airdrops, slashes and suspensions, interleaved lock region by lock region. A step
    carries every choice its transition makes, so a state and a step determine the
    next state. */
module Protocol {
  import opened Accounts
  import opened Transactions
  import opened Batch
  import opened Chain
  import opened Pending
  import opened Slashing
  import opened Election

  /** What the node is given: signature checking, the hash, and the wallets it holds. */
  datatype Env = Env(verify: Verifier, hash: HashFunction, wallets: set<Address>)

  /** An admission between its lock regions. */
  datatype Admission =
    | Arrived(tx: Transaction)
    | NonceSeen(tx: Transaction, expected: int)
    | BalanceSeen(tx: Transaction, expected: int, balance: int)

  /** Where a commit call stands. */
  datatype Phase =
    | Called
    | Won
    | NonEmpty
    | Chosen(proposer: Address)
    | Approved(proposer: Address)
    | Refused(proposer: Address)
    | Snapped(proposer: Address, snap: seq<Transaction>)
    | WithNonces(proposer: Address, snap: seq<Transaction>, nonces: Table)
    | Ready(proposer: Address, snap: seq<Transaction>, nonces: Table, balances: Table)
    | Executed(proposer: Address, snap: seq<Transaction>, final: seq<Transaction>)
    | Chained(proposer: Address, snap: seq<Transaction>, final: seq<Transaction>)
    | Rewarded(proposer: Address, snap: seq<Transaction>, final: seq<Transaction>)
    | Leaving
  {
    predicate HasSnap() {
      Snapped? || WithNonces? || Ready? || HasFinal()
    }

    predicate HasFinal() {
      Executed? || Chained? || Rewarded?
    }
  }

  /** `holder` is the call that last won the guard; `airdropped` and `dust` record what
      entered and what was lost. These three only observe. */
  datatype State = State(
    economy: Economy,
    nonces: Table,
    mempool: seq<Transaction>,
    chain: seq<Block>,
    status: Status,
    clock: int,
    committing: bool,
    holder: nat,
    calls: map<nat, Phase>,
    admissions: map<nat, Admission>,
    airdropped: int,
    dust: int)
  {
    function Books(): Book {
      Book(economy.balances, nonces)
    }

    function WithBooks(b: Book): State {
      this.(economy := economy.(balances := b.balances), nonces := b.nonces)
    }

    function Move(id: nat, phase: Phase): State {
      this.(calls := calls[id := phase])
    }
  }

  datatype Step =
    | Tick(seconds: nat)
    | Airdrop(to: Address, amount: int)
    | SlashOutside(offender: Address, params: Params, reporter: Address)
    | SuspendOutside(a: Address, scope: Scope, duration: int)
    | Submit(id: nat, tx: Transaction)
    | ReadNonce(id: nat)
    | ReadBalance(id: nat)
    | Admit(id: nat)
    | Call(id: nat)
    | Guard(id: nat)
    | CheckSize(id: nat)
    | Choose(id: nat, seed: nat)
    | Vote(id: nat)
    | Punish(id: nat)
    | TakeSnapshot(id: nat)
    | SnapNonces(id: nat)
    | SnapBalances(id: nat)
    | Execute(id: nat, final: seq<Transaction>)
    | AppendBlock(id: nat, genesisTime: int, timestamp: int)
    | Reward(id: nat)
    | Purge(id: nat)
    | Leave(id: nat)

  const PENALTY := SafetyPolicy(10, 1.0)

  ghost predicate Enabled(env: Env, s: State, step: Step) {
    match step
    case Tick(_) => true
    case Airdrop(_, _) => true
    case SlashOutside(_, _, _) => true
    case SuspendOutside(_, _, _) => true
    case Submit(id, _) => id !in s.admissions
    case ReadNonce(id) => id in s.admissions && s.admissions[id].Arrived?
    case ReadBalance(id) => id in s.admissions && s.admissions[id].NonceSeen?
    case Admit(id) => id in s.admissions && s.admissions[id].BalanceSeen?
    case Call(id) => id !in s.calls
    case Guard(id) => id in s.calls && s.calls[id].Called?
    case CheckSize(id) => id in s.calls && s.calls[id].Won?
    case Choose(id, _) => id in s.calls && s.calls[id].NonEmpty?
    case Vote(id) => id in s.calls && s.calls[id].Chosen?
    case Punish(id) => id in s.calls && s.calls[id].Refused?
    case TakeSnapshot(id) => id in s.calls && s.calls[id].Approved?
    case SnapNonces(id) => id in s.calls && s.calls[id].Snapped?
    case SnapBalances(id) => id in s.calls && s.calls[id].WithNonces?
    case Execute(id, final) =>
      && id in s.calls && s.calls[id].Ready?
      && IsOutcome(env.verify, s.calls[id].snap, s.calls[id].nonces, s.calls[id].balances, final)
    case AppendBlock(id, _, _) => id in s.calls && s.calls[id].Executed?
    case Reward(id) => id in s.calls && s.calls[id].Chained?
    case Purge(id) => id in s.calls && s.calls[id].Rewarded?
    case Leave(id) => id in s.calls && s.calls[id].Leaving?
  }

  function Slashed(s: State, offender: Address, params: Params, reporter: Address): State {
    s.(economy := SlashEconomy(s.economy, offender, params, reporter),
       status := SlashStatus(s.economy, s.status, offender, params, s.clock),
       dust := s.dust + SlashDust(s.economy, offender, params))
  }

  function Credited(s: State, a: Address, n: int): State {
    s.(economy := s.economy.(balances := Credit(s.economy.balances, a, n)))
  }

  ghost function Apply(env: Env, s: State, step: Step): State
    requires Enabled(env, s, step)
  {
    match step
    case Tick(seconds) => s.(clock := s.clock + seconds)
    case Airdrop(to, amount) => Credited(s, to, amount).(airdropped := s.airdropped + amount)
    case SlashOutside(offender, params, reporter) => Slashed(s, offender, params, reporter)
    case SuspendOutside(a, scope, duration) => s.(status := Suspend(s.status, a, scope, duration, s.clock))
    case Submit(id, tx) => s.(admissions := s.admissions[id := Arrived(tx)])
    case ReadNonce(id) =>
      var tx := s.admissions[id].tx;
      s.(admissions := s.admissions[id := NonceSeen(tx, At(s.nonces, tx.from) + 1)])
    case ReadBalance(id) =>
      var a := s.admissions[id];
      s.(admissions := s.admissions[id := BalanceSeen(a.tx, a.expected, At(s.economy.balances, a.tx.from))])
    case Admit(id) =>
      var a := s.admissions[id];
      var done := s.(admissions := s.admissions - {id});
      if a.tx.nonce != a.expected || a.balance < a.tx.Cost() || !env.verify(a.tx) then done
      else done.(mempool := s.mempool + [a.tx])
    case Call(id) => s.Move(id, Called)
    case Guard(id) =>
      if s.committing then s.(calls := s.calls - {id})
      else s.(committing := true, holder := id).Move(id, Won)
    case CheckSize(id) => s.Move(id, if s.mempool == [] then Leaving else NonEmpty)
    case Choose(id, seed) =>
      var v := SelectEligible(s.economy.validators, s.status, seed, s.clock);
      s.Move(id, if s.economy.validators == [] || v.address !in env.wallets then Leaving else Chosen(v.address))
    case Vote(id) =>
      var proposer := s.calls[id].proposer;
      s.Move(id, if Accepted(s.economy.validators, s.status, s.clock) then Approved(proposer) else Refused(proposer))
    case Punish(id) => Slashed(s, s.calls[id].proposer, PENALTY, Address("")).Move(id, Leaving)
    case TakeSnapshot(id) => s.Move(id, Snapped(s.calls[id].proposer, s.mempool))
    case SnapNonces(id) => s.Move(id, WithNonces(s.calls[id].proposer, s.calls[id].snap, s.nonces))
    case SnapBalances(id) =>
      s.Move(id, Ready(s.calls[id].proposer, s.calls[id].snap, s.calls[id].nonces, s.economy.balances))
    case Execute(id, final) =>
      s.WithBooks(CommitAll(s.Books(), final)).Move(id, Executed(s.calls[id].proposer, s.calls[id].snap, final))
    case AppendBlock(id, genesisTime, timestamp) =>
      s.(chain := Appended(env.hash, s.chain, s.calls[id].final, genesisTime, timestamp))
       .Move(id, Chained(s.calls[id].proposer, s.calls[id].snap, s.calls[id].final))
    case Reward(id) =>
      Credited(s, s.calls[id].proposer, Fees(s.calls[id].final) + 5)
       .Move(id, Rewarded(s.calls[id].proposer, s.calls[id].snap, s.calls[id].final))
    case Purge(id) => s.(mempool := Kept(Committed(env.hash, s.calls[id].final), s.mempool)).Move(id, Leaving)
    case Leave(id) => s.(committing := false, calls := s.calls - {id})
  }

  /** One state leads to another by a sequence of steps. */
  ghost predicate Reaches(env: Env, s: State, steps: seq<Step>, t: State)
    decreases |steps|
  {
    if steps == [] then s == t
    else Enabled(env, s, steps[0]) && Reaches(env, Apply(env, s, steps[0]), steps[1..], t)
  }

  /** Start: no spent nonces, nothing pending, at most a genesis block, nobody at work. */
  ghost predicate Init(env: Env, s: State) {
    && s.nonces == map[] && s.mempool == []
    && (s.chain == [] || exists time :: s.chain == [Genesis(env.hash, time)])
    && !s.committing && s.calls == map[] && s.admissions == map[]
    && s.airdropped == 0 && s.dust == 0
    && NonNegativeStakes(s.economy.validators)
  }

  /** Some run from a start arrives here. */
  ghost predicate Reachable(env: Env, t: State) {
    exists s, steps :: Init(env, s) && Reaches(env, s, steps, t)
  }

  // ----- the guard

  /** A call past the guard is the one that holds it. */
  ghost predicate Mutex(s: State) {
    && (forall id | id in s.calls && !s.calls[id].Called? :: s.committing && id == s.holder)
    && (s.committing ==> s.holder in s.calls && !s.calls[s.holder].Called?)
  }

  lemma StepKeepsMutex(env: Env, s: State, step: Step)
    requires Mutex(s) && Enabled(env, s, step)
    ensures Mutex(Apply(env, s, step))
  {
    var n := Apply(env, s, step);
  }

  /** The phase of the round in flight; `Called` when there is none. */
  function Round(s: State): Phase {
    if s.committing && s.holder in s.calls then s.calls[s.holder] else Called
  }

  /** What is committed to the state but not yet on the chain. */
  function InFlight(s: State): seq<Transaction> {
    if Round(s).Executed? then Round(s).final else []
  }

  /** Everything committed so far, in order. */
  function History(s: State): seq<Transaction> {
    ChainTxs(s.chain) + InFlight(s)
  }

  // ----- what single steps leave alone

  /** Only the removal step takes anything out of the mempool, only an admission adds to it. */
  lemma MempoolGrows(env: Env, s: State, step: Step)
    requires Enabled(env, s, step) && !step.Purge?
    ensures var n := Apply(env, s, step);
      n.mempool == s.mempool || (step.Admit? && n.mempool == s.mempool + [s.admissions[step.id].tx])
  {
    var n := Apply(env, s, step);
  }

  /** Where the snapshot and the batch of the round come from. */
  lemma RoundInherits(env: Env, s: State, step: Step)
    requires Mutex(s) && Enabled(env, s, step) && !step.Execute?
    ensures var p, q := Round(s), Round(Apply(env, s, step));
      && (q.HasSnap() && !q.HasFinal() ==> (p.HasSnap() && !p.HasFinal() && q.snap == p.snap) || q.snap == s.mempool)
      && (q.HasFinal() ==> p.HasFinal() && q.final == p.final && q.snap == p.snap)
  {
    var n := Apply(env, s, step);
  }
}
