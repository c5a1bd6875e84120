/** The chain that runs of the protocol build: rounds exclude each other, and the tip
    hash fixes everything before it. */
module ChainSafety {
  import opened Transactions
  import opened Merkle
  import opened Batch
  import opened Chain
  import opened Protocol
  import opened Rounds
  import opened NonceSafety

  /** Signature checking as Ed25519 does it: only signatures of 64 bytes, written as
      128 hexadecimal digits, can pass. */
  ghost predicate ChecksSignatureSize(verify: Verifier) {
    forall t: Transaction :: verify(t) ==> |t.signature| == 128
  }

  ghost predicate PlainChain(chain: seq<Block>) {
    forall i | 0 <= i < |chain| :: AllPlain(chain[i].transactions)
  }

  lemma ProperIsExecuted(env: Env, batch: seq<Transaction>)
    requires Proper(env, batch) && AllPlain(batch) && ChecksSignatureSize(env.verify)
    ensures ExecutedBatch(batch)
  {
    forall i, j | 0 <= i < j < |batch| ensures batch[i].from != batch[j].from {
      if batch[i].from == batch[j].from {
        var k, l := Position(batch, i, j);
      }
    }
    forall i | 0 <= i < |batch| ensures |batch[i].signature| == 128 {
      assert batch[i] in batch;
    }
  }

  /** Two runs, however they were scheduled, that arrive at the same tip hash have built
      the same chain - same length, same headers, same transactions up to the fields that
      are not hashed - unless the hash collides on a text one of them hashed. */
  lemma TipHashFixesRun(env: Env, t1: State, t2: State)
    requires ChecksSignatureSize(env.verify)
    requires Reachable(env, t1) && Reachable(env, t2)
    requires PlainChain(t1.chain) && PlainChain(t2.chain)
    requires NoCollision(env.hash, ChainTexts(env.hash, t1.chain) + ChainTexts(env.hash, t2.chain))
    requires SameTip(t1.chain, t2.chain)
    ensures SameChain(t1.chain, t2.chain)
  {
    RunIsExecuted(env, t1);
    RunIsExecuted(env, t2);
    TipHashFixesChain(env.hash, t1.chain, t2.chain);
  }

  /** In every run index, link, root and hash of every block are right, and the batches
      are what the executor makes. */
  lemma RunIsExecuted(env: Env, t: State)
    requires ChecksSignatureSize(env.verify)
    requires Reachable(env, t) && PlainChain(t.chain)
    ensures ValidChain(env.hash, t.chain) && ExecutedBatches(t.chain)
  {
    ReachableInv(env, t);
    forall i | 0 <= i < |t.chain| ensures ExecutedBatch(t.chain[i].transactions) {
      ProperIsExecuted(env, t.chain[i].transactions);
    }
  }

  /** Signature checking as the ledger does it: it sees the signed text, the signature
      and the public key, and nothing else. */
  ghost predicate ReadsTextOnly(verify: Verifier) {
    forall t: Transaction, u: Transaction {:trigger verify(t), verify(u)} ::
      TxText(t) == TxText(u) && t.signature == u.signature && t.pubKey == u.pubKey ==> verify(t) == verify(u)
  }

  function Funded(s: State, b: Transaction): State {
    s.(economy := s.economy.(balances := s.economy.balances[b.from := b.Cost()]))
  }

  lemma FundedIsReady(env: Env, s: State, a: Transaction, b: Transaction, seed: nat)
    requires Init(env, s) && env.verify(b) && b.nonce == 1
    requires Decide(env, s.(mempool := [a]), seed).Approval?
    ensures Init(env, Funded(s, b)) && Reachable(env, Funded(s, b))
    ensures Executable(env.verify, Funded(s, b).Books(), b)
    ensures Decide(env, Funded(s, b).(mempool := [b]), seed).Approval?
  {
    InitIsReachable(env, Funded(s, b));
  }

  lemma InitIsReachable(env: Env, s: State)
    requires Init(env, s)
    ensures Reachable(env, s)
  {
    assert Reaches(env, s, [], s);
  }

  /** Plain addresses are needed: any transfer whose addresses hold a separator has a
      double between other parties, and two runs that commit one each arrive at the same
      tip hash with different chains, whatever the hash. */
  lemma SeparatorHidesParties(env: Env, s: State, a: Transaction, c: Choices)
    returns (b: Transaction, t1: State, t2: State)
    requires Init(env, s) && Quiet(s) && ReadsTextOnly(env.verify)
    requires !PlainAddresses(a) && Executable(env.verify, s.Books(), a)
    requires Decide(env, s.(mempool := [a]), c.seed).Approval?
    ensures Reachable(env, t1) && Reachable(env, t2)
    ensures SameTip(t1.chain, t2.chain) && !SameChain(t1.chain, t2.chain)
    ensures ChainTexts(env.hash, t1.chain) == ChainTexts(env.hash, t2.chain)
  {
    b := TxTextAmbiguousWithBar(a);
    assert env.verify(a) == env.verify(b);
    InitIsReachable(env, s);
    FundedIsReady(env, s, a, b, c.seed);
    t1 := LoneTransactionCommits(env, s, a, c);
    t2 := LoneTransactionCommits(env, Funded(s, b), b, c);
    SameTextSameTip(env.hash, s.chain, a, b, c.genesisTime, c.timestamp);
  }

  // ----- rounds

  /** Overlapping commit calls: at most one is past the guard. */
  lemma OneRoundAtATime(env: Env, t: State, i: nat, j: nat)
    requires Reachable(env, t)
    requires i in t.calls && !t.calls[i].Called? && j in t.calls && !t.calls[j].Called?
    ensures i == j && t.committing
  {
    ReachableInv(env, t);
  }

  /** How far a round has come. */
  function Rank(p: Phase): nat {
    match p
    case Called => 0
    case Won => 1
    case NonEmpty => 2
    case Chosen(_) => 3
    case Approved(_) => 4
    case Refused(_) => 4
    case Snapped(_, _) => 5
    case WithNonces(_, _, _) => 6
    case Ready(_, _, _, _) => 7
    case Executed(_, _, _) => 8
    case Chained(_, _, _) => 9
    case Rewarded(_, _, _) => 10
    case Leaving => 11
  }

  /** The steps of a commit call past the guard. */
  predicate IsRoundStep(step: Step, id: nat) {
    match step
    case CheckSize(i) => i == id
    case Choose(i, _) => i == id
    case Vote(i) => i == id
    case Punish(i) => i == id
    case TakeSnapshot(i) => i == id
    case SnapNonces(i) => i == id
    case SnapBalances(i) => i == id
    case Execute(i, _) => i == id
    case AppendBlock(i, _, _) => i == id
    case Reward(i) => i == id
    case Purge(i) => i == id
    case Leave(i) => i == id
    case _ => false
  }

  /** A round is never stuck: from every phase past the guard some step of its own is possible. */
  lemma RoundCanStep(env: Env, s: State) returns (step: Step)
    requires Mutex(s) && s.committing
    ensures IsRoundStep(step, s.holder) && Enabled(env, s, step)
  {
    var id, p := s.holder, s.calls[s.holder];
    if p.Won? { step := CheckSize(id); }
    else if p.NonEmpty? { step := Choose(id, 0); }
    else if p.Chosen? { step := Vote(id); }
    else if p.Refused? { step := Punish(id); }
    else if p.Approved? { step := TakeSnapshot(id); }
    else if p.Snapped? { step := SnapNonces(id); }
    else if p.WithNonces? { step := SnapBalances(id); }
    else if p.Ready? {
      var final := OutcomeExists(env.verify, p.snap, p.nonces, p.balances);
      step := Execute(id, final);
    }
    else if p.Executed? { step := AppendBlock(id, 0, 0); }
    else if p.Chained? { step := Reward(id); }
    else if p.Rewarded? { step := Purge(id); }
    else { step := Leave(id); }
  }

  /** Before the leave, the holder keeps the guard. */
  lemma OwnStepHolds(env: Env, s: State, step: Step)
    requires Mutex(s) && s.committing && Enabled(env, s, step) && IsRoundStep(step, s.holder) && !step.Leave?
    ensures var n := Apply(env, s, step);
      n.committing && n.holder == s.holder && n.holder in n.calls
  {
    var n := Apply(env, s, step);
  }

  predicate IsEarly(step: Step) {
    step.CheckSize? || step.Choose? || step.Vote? || step.Punish? || step.TakeSnapshot?
  }

  lemma EarlyStepAdvances(env: Env, s: State, step: Step)
    requires Mutex(s) && s.committing && Enabled(env, s, step) && IsRoundStep(step, s.holder) && IsEarly(step)
    ensures Rank(Round(Apply(env, s, step))) > Rank(Round(s))
  {
    var n := Apply(env, s, step);
    OwnStepHolds(env, s, step);
  }

  lemma ExecuteAdvances(env: Env, s: State, step: Step)
    requires Mutex(s) && s.committing && Enabled(env, s, step) && step.Execute? && step.id == s.holder
    ensures Round(s).Ready? && Round(Apply(env, s, step)).Executed?
  {
    var n := Apply(env, s, step);
  }

  lemma AppendAdvances(env: Env, s: State, step: Step)
    requires Mutex(s) && s.committing && Enabled(env, s, step) && step.AppendBlock? && step.id == s.holder
    ensures Round(s).Executed? && Round(Apply(env, s, step)).Chained?
  {
    var n := Apply(env, s, step);
  }

  lemma RewardAdvances(env: Env, s: State, step: Step)
    requires Mutex(s) && s.committing && Enabled(env, s, step) && step.Reward? && step.id == s.holder
    ensures Round(s).Chained? && Round(Apply(env, s, step)).Rewarded?
  {
    var n := Apply(env, s, step);
  }

  lemma PurgeAdvances(env: Env, s: State, step: Step)
    requires Mutex(s) && s.committing && Enabled(env, s, step) && step.Purge? && step.id == s.holder
    ensures Round(s).Rewarded? && Round(Apply(env, s, step)).Leaving?
  {
    var n := Apply(env, s, step);
  }

  lemma SnapshotAdvances(env: Env, s: State, step: Step)
    requires Mutex(s) && s.committing && Enabled(env, s, step) && IsRoundStep(step, s.holder)
    requires step.SnapNonces? || step.SnapBalances?
    ensures Rank(Round(Apply(env, s, step))) > Rank(Round(s))
  {
    var n := Apply(env, s, step);
  }

  lemma BatchStepAdvances(env: Env, s: State, step: Step)
    requires Mutex(s) && s.committing && Enabled(env, s, step) && IsRoundStep(step, s.holder)
    requires !IsEarly(step) && !step.Leave? && !step.SnapNonces? && !step.SnapBalances?
    ensures Rank(Round(Apply(env, s, step))) > Rank(Round(s))
  {
    if step.Execute? {
      ExecuteAdvances(env, s, step);
    } else if step.AppendBlock? {
      AppendAdvances(env, s, step);
    } else if step.Reward? {
      RewardAdvances(env, s, step);
    } else {
      PurgeAdvances(env, s, step);
    }
  }

  lemma OwnStepAdvances(env: Env, s: State, step: Step)
    requires Mutex(s) && s.committing && Enabled(env, s, step) && IsRoundStep(step, s.holder)
    ensures var n := Apply(env, s, step);
      !n.committing || (n.holder == s.holder && Rank(Round(n)) > Rank(Round(s)))
  {
    if !step.Leave? {
      OwnStepHolds(env, s, step);
      if IsEarly(step) {
        EarlyStepAdvances(env, s, step);
      } else if step.SnapNonces? || step.SnapBalances? {
        SnapshotAdvances(env, s, step);
      } else {
        BatchStepAdvances(env, s, step);
      }
    }
  }

  lemma OtherStepLeavesRound(env: Env, s: State, step: Step)
    requires Mutex(s) && s.committing && Enabled(env, s, step) && !IsRoundStep(step, s.holder)
    ensures var n := Apply(env, s, step);
      n.committing && n.holder == s.holder && Round(n) == Round(s)
  {
    var n := Apply(env, s, step);
  }

  /** Every step of the round moves it forward or releases the guard, and no other step
      touches it: a round ends after at most eleven steps of its own. */
  lemma RoundAdvances(env: Env, s: State, step: Step)
    requires Mutex(s) && s.committing && Enabled(env, s, step)
    ensures var n := Apply(env, s, step);
      if IsRoundStep(step, s.holder)
      then !n.committing || (n.holder == s.holder && Rank(Round(n)) > Rank(Round(s)))
      else n.committing && n.holder == s.holder && Round(n) == Round(s)
  {
    if IsRoundStep(step, s.holder) {
      OwnStepAdvances(env, s, step);
    } else {
      OtherStepLeavesRound(env, s, step);
    }
  }
}
