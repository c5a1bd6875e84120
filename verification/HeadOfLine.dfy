/** A pending transaction with a spent nonce blocks its sender for good: exactly when,
    and how a sender gets there. */
module HeadOfLine {
  import opened Accounts
  import opened Transactions
  import opened Batch
  import opened Pending
  import opened Protocol
  import opened NonceSafety
  import opened Rounds

  /** No transaction of another sender in this batch shares the hash of t. */
  ghost predicate HashApart(h: HashFunction, batch: seq<Transaction>, t: Transaction) {
    forall u | u in batch && u.from != t.from :: TxDigest(h, u) != TxDigest(h, t)
  }

  ghost predicate StepsApart(env: Env, steps: seq<Step>, t: Transaction) {
    forall i | 0 <= i < |steps| && steps[i].Execute? :: HashApart(env.hash, steps[i].final, t)
  }

  /** Plain addresses and a hash without collision on the texts at hand suffice. */
  lemma PlainBatchIsApart(h: HashFunction, texts: set<string>, batch: seq<Transaction>, t: Transaction)
    requires PlainAddresses(t) && forall u | u in batch :: PlainAddresses(u)
    requires TxText(t) in texts && forall u | u in batch :: TxText(u) in texts
    requires NoCollision(h, texts)
    ensures HashApart(h, batch, t)
  {
    forall u | u in batch && u.from != t.from ensures TxDigest(h, u) != TxDigest(h, t) {
      OthersHashDiffers(h, texts, u, t);
    }
  }

  lemma OthersHashDiffers(h: HashFunction, texts: set<string>, u: Transaction, t: Transaction)
    requires PlainAddresses(t) && PlainAddresses(u) && u.from != t.from
    requires TxText(t) in texts && TxText(u) in texts && NoCollision(h, texts)
    ensures TxDigest(h, u) != TxDigest(h, t)
  {
    TxTextInjective(u, t);
  }

  // ----- when a spent nonce blocks

  ghost predicate NothingSpent(snap: seq<Transaction>, nonces: Table, a: Address) {
    forall w | w in snap && w.from == a :: w.nonce > At(nonces, a)
  }

  /** This transaction of the snapshot passes, as far as the balances are read already. */
  predicate Passes(env: Env, p: Phase, nonces: Table, u: Transaction)
    requires p.HasSnap()
  {
    && u in p.snap && u.nonce == At(nonces, u.from) + 1 && env.verify(u)
    && (p.Ready? ==> u.Cost() <= At(p.balances, u.from))
  }

  /** The round in flight has yet to execute, and can still serve the sender. */
  ghost predicate MayServe(env: Env, p: Phase, nonces: Table, a: Address) {
    && p.HasSnap() && !p.HasFinal()
    && NothingSpent(p.snap, nonces, a)
    && exists u: Transaction :: u.from == a && Passes(env, p, nonces, u)
  }

  /** The round in flight has executed, and will purge t. */
  ghost predicate WillPurge(env: Env, p: Phase, t: Transaction) {
    p.HasFinal() && exists u :: u in p.final && TxDigest(env.hash, u) == TxDigest(env.hash, t)
  }

  /** Pending with a spent nonce. */
  predicate IsSpent(s: State, t: Transaction) {
    t in s.mempool && t.nonce <= At(s.nonces, t.from)
  }

  /** Nothing that is in flight serves its sender or takes it away. */
  ghost predicate Blocked(env: Env, s: State, t: Transaction) {
    IsSpent(s, t) && !MayServe(env, Round(s), s.nonces, t.from) && !WillPurge(env, Round(s), t)
  }

  lemma {:induction false} NoneOfSender(txs: seq<Transaction>, a: Address)
    requires OfSender(txs, a) == []
    ensures forall u | u in txs :: u.from != a
  {
    if txs != [] {
      NoneOfSender(txs[1..], a);
    }
  }

  lemma ServedMeansMayServe(env: Env, s: State, id: nat, final: seq<Transaction>, a: Address)
    requires Mutex(s) && NoncesFrozen(s) && Enabled(env, s, Execute(id, final))
    requires OfSender(final, a) != []
    ensures MayServe(env, Round(s), s.nonces, a)
  {
    var r := s.calls[id];
    var u := ServedOnlyIf(env.verify, r.snap, r.nonces, r.balances, final, a);
    assert Passes(env, r, s.nonces, u);
  }

  lemma ExecuteSkipsBlocked(env: Env, s: State, id: nat, final: seq<Transaction>, t: Transaction)
    requires Mutex(s) && NoncesFrozen(s) && Blocked(env, s, t)
    requires Enabled(env, s, Execute(id, final)) && HashApart(env.hash, final, t)
    ensures OfSender(final, t.from) == []
    ensures forall u | u in final :: TxDigest(env.hash, u) != TxDigest(env.hash, t)
    ensures At(CommitAll(s.Books(), final).nonces, t.from) == At(s.nonces, t.from)
  {
    if OfSender(final, t.from) != [] {
      ServedMeansMayServe(env, s, id, final, t.from);
    }
    NoneOfSender(final, t.from);
    CommitAllNonces(s.Books(), final, t.from);
  }

  lemma ExecuteServesSender(env: Env, s: State, id: nat, final: seq<Transaction>, a: Address)
    requires Mutex(s) && Enabled(env, s, Execute(id, final))
    ensures OfSender(History(Apply(env, s, Execute(id, final))), a) == OfSender(History(s), a) + OfSender(final, a)
  {
    ExecuteAddsToHistory(env, s, id, final);
    OfSenderConcat(History(s), final, a);
  }

  lemma ExecuteKeepsBlocked(env: Env, s: State, id: nat, final: seq<Transaction>, t: Transaction)
    requires Mutex(s) && NoncesFrozen(s) && Blocked(env, s, t)
    requires Enabled(env, s, Execute(id, final)) && HashApart(env.hash, final, t)
    ensures Blocked(env, Apply(env, s, Execute(id, final)), t)
    ensures OfSender(History(Apply(env, s, Execute(id, final))), t.from) == OfSender(History(s), t.from)
  {
    ExecuteSkipsBlocked(env, s, id, final, t);
    ExecuteServesSender(env, s, id, final, t.from);
    ExecutedRound(env, s, id, final);
  }

  lemma ExecutedRound(env: Env, s: State, id: nat, final: seq<Transaction>)
    requires Mutex(s) && Enabled(env, s, Execute(id, final))
    ensures var n := Apply(env, s, Execute(id, final));
      && Round(n).Executed? && Round(n).final == final && n.mempool == s.mempool
      && n.nonces == CommitAll(s.Books(), final).nonces
  {
    var n := Apply(env, s, Execute(id, final));
  }

  lemma PurgeKeepsBlocked(env: Env, s: State, id: nat, t: Transaction)
    requires Mutex(s) && Blocked(env, s, t) && Enabled(env, s, Purge(id))
    ensures Blocked(env, Apply(env, s, Purge(id)), t)
  {
    var n := Apply(env, s, Purge(id));
    var drop := Committed(env.hash, s.calls[id].final);
    assert n.mempool == Kept(drop, s.mempool) && Round(n).Leaving?;
    KeptMembers(drop, s.mempool, t);
  }

  /** A snapshot is only ever the whole mempool, and what has been read of it stays. */
  lemma MayServeInherits(env: Env, s: State, step: Step, a: Address)
    requires Mutex(s) && Enabled(env, s, step) && !step.Execute?
    requires MayServe(env, Round(Apply(env, s, step)), s.nonces, a)
    ensures MayServe(env, Round(s), s.nonces, a) || NothingSpent(s.mempool, s.nonces, a)
  {
    var p, q := Round(s), Round(Apply(env, s, step));
    RoundInherits(env, s, step);
    if q.snap != s.mempool || (p.HasSnap() && !p.HasFinal() && q.snap == p.snap) {
      ReadyComesFrom(env, s, step);
      var u: Transaction :| u.from == a && Passes(env, q, s.nonces, u);
      assert Passes(env, p, s.nonces, u);
    }
  }

  lemma ReadyComesFrom(env: Env, s: State, step: Step)
    requires Mutex(s) && Enabled(env, s, step) && !step.Execute?
    ensures var p, q := Round(s), Round(Apply(env, s, step));
      p.Ready? && q.HasSnap() ==> q == p
  {
    var n := Apply(env, s, step);
  }

  lemma OtherStepKeepsBlocked(env: Env, s: State, step: Step, t: Transaction)
    requires Mutex(s) && Blocked(env, s, t) && Enabled(env, s, step) && !step.Execute? && !step.Purge?
    requires Apply(env, s, step).nonces == s.nonces
    ensures Blocked(env, Apply(env, s, step), t)
  {
    var n := Apply(env, s, step);
    MempoolGrows(env, s, step);
    RoundInherits(env, s, step);
    if MayServe(env, Round(n), n.nonces, t.from) {
      MayServeInherits(env, s, step, t.from);
    }
    assert t in n.mempool;
  }

  lemma StepKeepsBlocked(env: Env, s: State, step: Step, t: Transaction)
    requires Mutex(s) && NoncesFrozen(s) && Blocked(env, s, t) && Enabled(env, s, step)
    requires step.Execute? ==> HashApart(env.hash, step.final, t)
    ensures Blocked(env, Apply(env, s, step), t)
    ensures At(Apply(env, s, step).nonces, t.from) == At(s.nonces, t.from)
    ensures OfSender(History(Apply(env, s, step)), t.from) == OfSender(History(s), t.from)
  {
    if step.Execute? {
      ExecuteSkipsBlocked(env, s, step.id, step.final, t);
      ExecuteKeepsBlocked(env, s, step.id, step.final, t);
    } else {
      StepKeepsHistory(env, s, step);
      if step.Purge? {
        PurgeKeepsBlocked(env, s, step.id, t);
      } else {
        OtherStepKeepsBlocked(env, s, step, t);
      }
    }
  }

  lemma {:induction false} BlockedForGood(env: Env, s: State, steps: seq<Step>, u: State, t: Transaction)
    requires Inv(env, s) && Blocked(env, s, t) && Reaches(env, s, steps, u) && StepsApart(env, steps, t)
    ensures Blocked(env, u, t)
    ensures At(u.nonces, t.from) == At(s.nonces, t.from)
    ensures OfSender(History(u), t.from) == OfSender(History(s), t.from)
    decreases |steps|
  {
    if steps != [] {
      StepKeepsBlocked(env, s, steps[0], t);
      StepKeepsInv(env, s, steps[0]);
      BlockedForGood(env, Apply(env, s, steps[0]), steps[1..], u, t);
    }
  }

  /** Head of line: take any reachable state in which a transaction with a spent nonce is
      pending, and nothing in flight serves its sender or takes it away. In every later
      state - whatever is admitted, committed, slashed or credited - it is still pending,
      its sender's nonce has not moved, and no transaction of its sender has been
      committed. */
  lemma SpentNonceBlocksForGood(env: Env, s: State, steps: seq<Step>, u: State, t: Transaction)
    requires Reachable(env, s) && Blocked(env, s, t)
    requires Reaches(env, s, steps, u) && StepsApart(env, steps, t)
    ensures t in u.mempool
    ensures At(u.nonces, t.from) == At(s.nonces, t.from)
    ensures OfSender(History(u), t.from) == OfSender(History(s), t.from)
  {
    ReachableInv(env, s);
    BlockedForGood(env, s, steps, u, t);
  }

  // ----- only then

  /** In every later state the transaction is still pending and its sender has committed
      nothing more. */
  ghost predicate ShutOut(env: Env, s: State, t: Transaction) {
    forall steps, u :: Reaches(env, s, steps, u) && StepsApart(env, steps, t) ==>
      && t in u.mempool && At(u.nonces, t.from) == At(s.nonces, t.from)
      && OfSender(History(u), t.from) == OfSender(History(s), t.from)
  }

  lemma PurgeTakes(env: Env, s: State, id: nat, t: Transaction)
    requires Enabled(env, s, Purge(id)) && WillPurge(env, s.calls[id], t)
    ensures t !in Apply(env, s, Purge(id)).mempool
  {
    KeptMembers(Committed(env.hash, s.calls[id].final), s.mempool, t);
  }

  /** From a round that has executed, its own next steps lead to the purge. */
  lemma RunToPurge(env: Env, s: State, t: Transaction) returns (steps: seq<Step>, u: State)
    requires Mutex(s) && WillPurge(env, Round(s), t)
    ensures Reaches(env, s, steps, u) && StepsApart(env, steps, t) && t !in u.mempool
    decreases if Round(s).Executed? then 2 else if Round(s).Chained? then 1 else 0
  {
    var id := s.holder;
    var step :=
      if Round(s).Executed? then AppendBlock(id, 0, 0)
      else if Round(s).Chained? then Reward(id)
      else Purge(id);
    var n := Apply(env, s, step);
    ReachesOne(env, s, step);
    if step.Purge? {
      PurgeTakes(env, s, id, t);
      steps, u := [step], n;
    } else {
      StepKeepsMutex(env, s, step);
      NextKeepsFinal(env, s, step);
      var rest;
      rest, u := RunToPurge(env, n, t);
      steps := [step] + rest;
      ReachesConcat(env, s, [step], n, rest, u);
    }
  }

  lemma NextKeepsFinal(env: Env, s: State, step: Step)
    requires Mutex(s) && Enabled(env, s, step) && (step.AppendBlock? || step.Reward?)
    ensures var p, q := Round(s), Round(Apply(env, s, step));
      && p.HasFinal() && q.HasFinal() && q.final == p.final
      && (if step.AppendBlock? then p.Executed? && q.Chained? else p.Chained? && q.Rewarded?)
  {
    var n := Apply(env, s, step);
  }

  lemma SnapIsPending(env: Env, s: State, u: Transaction)
    requires Reachable(env, s) && Round(s).HasSnap() && u in Round(s).snap
    ensures u.nonce <= At(s.nonces, u.from) + 1
  {
    ReachableInv(env, s);
    assert NotAhead(s.nonces, u);
  }

  /** A round about to execute that may serve a sender has an outcome that does. */
  lemma ReadyServes(env: Env, s: State, a: Address) returns (step: Step)
    requires Reachable(env, s) && Round(s).Ready? && MayServe(env, Round(s), s.nonces, a)
    ensures step.Execute? && Enabled(env, s, step) && forall u | u in step.final :: u in Round(s).snap
    ensures |OfSender(History(Apply(env, s, step)), a)| > |OfSender(History(s), a)|
  {
    ReachableInv(env, s);
    var r := Round(s);
    var u: Transaction :| u.from == a && Passes(env, r, s.nonces, u);
    forall w | w in r.snap && w.from == a ensures w.nonce == u.nonce {
      SnapIsPending(env, s, w);
    }
    var final := OutcomeServing(env.verify, r.snap, r.nonces, r.balances, u);
    OutcomeMembers(env.verify, r.snap, r.nonces, r.balances, final);
    step := Execute(s.holder, final);
    ExecuteServesSender(env, s, s.holder, final, a);
  }

  /** Before the balances are read, a credit can make a transaction affordable. */
  lemma CreditThenRead(env: Env, s: State, a: Address) returns (steps: seq<Step>, n: State)
    requires Reachable(env, s) && Round(s).WithNonces? && MayServe(env, Round(s), s.nonces, a)
    ensures Reaches(env, s, steps, n) && forall i | 0 <= i < |steps| :: !steps[i].Execute?
    ensures Round(n).Ready? && Round(n).snap == Round(s).snap && MayServe(env, Round(n), n.nonces, a)
    ensures History(n) == History(s)
  {
    ReachableInv(env, s);
    var u: Transaction :| u.from == a && Passes(env, Round(s), s.nonces, u);
    var gift := Airdrop(a, u.Cost() - At(s.economy.balances, a));
    var m := Apply(env, s, gift);
    n := ReadBalances(env, m, u);
    ReachesOne(env, s, gift);
    ReachesConcat(env, s, [gift], m, [SnapBalances(m.holder)], n);
    steps := [gift] + [SnapBalances(m.holder)];
  }

  lemma ReadBalances(env: Env, s: State, u: Transaction) returns (n: State)
    requires Mutex(s) && Round(s).WithNonces? && NothingSpent(Round(s).snap, s.nonces, u.from)
    requires Passes(env, Round(s), s.nonces, u) && u.Cost() <= At(s.economy.balances, u.from)
    ensures Reaches(env, s, [SnapBalances(s.holder)], n)
    ensures Round(n).Ready? && Round(n).snap == Round(s).snap && MayServe(env, Round(n), n.nonces, u.from)
    ensures History(n) == History(s)
  {
    n := Apply(env, s, SnapBalances(s.holder));
    ReachesOne(env, s, SnapBalances(s.holder));
    assert Passes(env, Round(n), n.nonces, u);
  }

  lemma ReadNonces(env: Env, s: State, a: Address) returns (steps: seq<Step>, n: State)
    requires Reachable(env, s) && Round(s).Snapped? && MayServe(env, Round(s), s.nonces, a)
    ensures Reaches(env, s, steps, n) && forall i | 0 <= i < |steps| :: !steps[i].Execute?
    ensures Round(n).WithNonces? && Round(n).snap == Round(s).snap && MayServe(env, Round(n), n.nonces, a)
    ensures History(n) == History(s)
  {
    ReachableInv(env, s);
    var id := s.holder;
    n := Apply(env, s, SnapNonces(id));
    ReachesOne(env, s, SnapNonces(id));
    steps := [SnapNonces(id)];
    var u: Transaction :| u.from == a && Passes(env, Round(s), s.nonces, u);
    assert Passes(env, Round(n), n.nonces, u);
  }

  /** A round that may serve the sender and has yet to read a table reads it. */
  lemma TowardsService(env: Env, s: State, a: Address) returns (steps: seq<Step>, n: State)
    requires Reachable(env, s) && MayServe(env, Round(s), s.nonces, a) && !Round(s).Ready?
    ensures Reaches(env, s, steps, n) && Reachable(env, n) && forall i | 0 <= i < |steps| :: !steps[i].Execute?
    ensures if Round(s).Snapped? then Round(n).WithNonces? else Round(n).Ready?
    ensures MayServe(env, Round(n), n.nonces, a) && Round(n).snap == Round(s).snap && History(n) == History(s)
  {
    if Round(s).Snapped? {
      steps, n := ReadNonces(env, s, a);
    } else {
      steps, n := CreditThenRead(env, s, a);
    }
    ReachableOn(env, s, steps, n);
  }

  /** Every batch of the run is taken from this snapshot. */
  ghost predicate ServeFrom(steps: seq<Step>, snap: seq<Transaction>) {
    forall i, w | 0 <= i < |steps| && steps[i].Execute? && w in steps[i].final :: w in snap
  }

  /** A round that may serve the sender does, in some run. */
  lemma RunToService(env: Env, s: State, a: Address) returns (steps: seq<Step>, u: State)
    requires Reachable(env, s) && MayServe(env, Round(s), s.nonces, a)
    ensures Reaches(env, s, steps, u) && |OfSender(History(u), a)| > |OfSender(History(s), a)|
    ensures ServeFrom(steps, Round(s).snap)
    decreases if Round(s).Snapped? then 2 else if Round(s).WithNonces? then 1 else 0
  {
    if Round(s).Ready? {
      var step := ReadyServes(env, s, a);
      ReachesOne(env, s, step);
      steps, u := [step], Apply(env, s, step);
    } else {
      var first, n := TowardsService(env, s, a);
      var rest;
      rest, u := RunToService(env, n, a);
      steps := first + rest;
      ReachesConcat(env, s, first, n, rest, u);
      ServeFromOn(first, rest, Round(s).snap);
    }
  }

  lemma ServeFromOn(first: seq<Step>, rest: seq<Step>, snap: seq<Transaction>)
    requires (forall i | 0 <= i < |first| :: !first[i].Execute?) && ServeFrom(rest, snap)
    ensures ServeFrom(first + rest, snap)
  {
  }

  lemma ServeFromIsApart(env: Env, steps: seq<Step>, snap: seq<Transaction>, t: Transaction)
    requires ServeFrom(steps, snap) && HashApart(env.hash, snap, t)
    ensures StepsApart(env, steps, t)
  {
  }

  /** Exactly when a pending transaction with a spent nonce shuts out its sender for good:
      unless the round in flight may still serve the sender or will purge the
      transaction. Both can be seen before anything else happens; with no round in flight
      neither is the case. */
  lemma ShutOutIffBlocked(env: Env, s: State, t: Transaction)
    requires Reachable(env, s) && IsSpent(s, t)
    requires Round(s).HasSnap() && !Round(s).HasFinal() ==> HashApart(env.hash, Round(s).snap, t)
    ensures ShutOut(env, s, t) <==> Blocked(env, s, t)
    ensures !s.committing ==> Blocked(env, s, t)
  {
    ReachableInv(env, s);
    if Blocked(env, s, t) {
      forall steps, u | Reaches(env, s, steps, u) && StepsApart(env, steps, t)
        ensures t in u.mempool && At(u.nonces, t.from) == At(s.nonces, t.from)
        ensures OfSender(History(u), t.from) == OfSender(History(s), t.from)
      {
        SpentNonceBlocksForGood(env, s, steps, u, t);
      }
    } else if WillPurge(env, Round(s), t) {
      var steps, u := RunToPurge(env, s, t);
    } else {
      var steps, u := RunToService(env, s, t.from);
      ServeFromIsApart(env, steps, Round(s).snap, t);
    }
  }

  /** During a round the transactions just committed are pending with a spent nonce, and
      leave when it ends: from every start, one admission and one approved call lead
      through such a state. */
  lemma CommittedIsSpentUntilPurged(env: Env, s: State, x: Transaction, c: Choices)
    returns (n: State, steps: seq<Step>, u: State)
    requires Init(env, s) && Quiet(s)
    requires Executable(env.verify, s.Books(), x) && Decide(env, s.(mempool := [x]), c.seed).Approval?
    ensures Reachable(env, n) && IsSpent(n, x) && WillPurge(env, Round(n), x)
    ensures Reaches(env, n, steps, u) && StepsApart(env, steps, x) && x !in u.mempool
  {
    var pending := s.(mempool := [x]);
    AdmissionReachable(env, s, x);
    assert s.mempool + [x] == [x];
    SoleOutcome(env.verify, s.Books(), x);
    ChainedRan(env, pending, c, [x]);
    n := ChainedState(env, pending, x, Decide(env, pending, c.seed).proposer, c);
    var round :| Reaches(env, pending, round, n);
    ReachableOn(env, pending, round, n);
    ChainedIsSpent(env, pending, x, Decide(env, pending, c.seed).proposer, c);
    ReachableInv(env, n);
    steps, u := RunToPurge(env, n, x);
  }

  function ChainedState(env: Env, s: State, x: Transaction, proposer: Address, c: Choices): State {
    InPhase(AfterChain(env, s, [x], c), Chained(proposer, s.mempool, [x]))
  }

  lemma ChainedIsSpent(env: Env, s: State, x: Transaction, proposer: Address, c: Choices)
    requires Quiet(s) && x in s.mempool
    ensures var n := ChainedState(env, s, x, proposer, c);
      IsSpent(n, x) && WillPurge(env, Round(n), x)
  {
    var n := ChainedState(env, s, x, proposer, c);
    CommitAllNonces(s.Books(), [x], x.from);
    assert OfSender([x], x.from) == [x];
    assert Round(n) == Chained(proposer, s.mempool, [x]);
    assert x in Round(n).final;
  }

  /** An undisturbed admission from a reachable state. */
  lemma AdmissionReachable(env: Env, s: State, x: Transaction)
    requires (Init(env, s) || Reachable(env, s)) && s.admissions == map[] && Executable(env.verify, s.Books(), x)
    ensures Reachable(env, s.(mempool := s.mempool + [x]))
  {
    if Init(env, s) {
      assert Reaches(env, s, [], s);
    }
    AdmissionIsARun(env, s, x);
    ReachableOn(env, s, [Submit(0, x), ReadNonce(0), ReadBalance(0), Admit(0)], s.(mempool := s.mempool + [x]));
  }

  // ----- how a sender gets there

  /** Every transaction of this sender in the list would pass on its own: next nonce, good
      signature, enough balance. */
  ghost predicate AllReady(env: Env, txs: seq<Transaction>, nonces: Table, balances: Table, a: Address) {
    forall t | t in txs && t.from == a ::
      t.nonce == At(nonces, a) + 1 && env.verify(t) && t.Cost() <= At(balances, a)
  }

  ghost predicate Waits(txs: seq<Transaction>, a: Address) {
    exists z :: z in txs && z.from == a
  }

  /** Two payments made before the next block, both admitted: from every start where each
      could be executed on its own, both get pending, one after the other. */
  lemma TwinsArePending(env: Env, s: State, x: Transaction, y: Transaction)
    requires Init(env, s) && x.from == y.from
    requires Executable(env.verify, s.Books(), x) && Executable(env.verify, s.Books(), y)
    ensures var n := s.(mempool := [x, y]);
      Reachable(env, n) && AllReady(env, n.mempool, n.nonces, n.economy.balances, x.from)
  {
    AdmissionReachable(env, s, x);
    assert s.mempool + [x] == [x];
    AdmissionReachable(env, s.(mempool := [x]), y);
    assert [x] + [y] == [x, y];
  }

  lemma {:induction false} OnlyOfSender(txs: seq<Transaction>, a: Address, t: Transaction)
    requires OfSender(txs, a) == [t]
    ensures t in txs && forall u | u in txs && u.from == a :: u == t
  {
    assert forall u | u in txs :: u == txs[0] || u in txs[1..];
    if txs[0].from == a {
      assert OfSender(txs, a)[0] == txs[0] && OfSender(txs, a)[1..] == OfSender(txs[1..], a);
      NoneOfSender(txs[1..], a);
    } else {
      OnlyOfSender(txs[1..], a, t);
    }
  }

  /** With hashes apart from other senders', the purge takes exactly what shares the hash
      of the one transaction served. */
  lemma PurgedIffServedHash(h: HashFunction, final: seq<Transaction>, t: Transaction, x: Transaction)
    requires OfSender(final, x.from) == [t] && HashApart(h, final, x)
    ensures Committed(h, final)(x) <==> TxDigest(h, x) == TxDigest(h, t)
  {
    OnlyOfSender(final, x.from, t);
  }

  /** The sender has two transactions with different hashes. */
  ghost predicate HasTwins(h: HashFunction, txs: seq<Transaction>, a: Address) {
    exists x, y :: x in txs && y in txs && x.from == y.from == a && TxDigest(h, x) != TxDigest(h, y)
  }

  /** Exactly when a batch leaves a sender something pending, and so shut out: when two of
      its pending transactions, all ready, have different hashes. */
  lemma LeftPendingIffTwins(env: Env, s: State, final: seq<Transaction>, a: Address)
    requires Reachable(env, s) && IsOutcome(env.verify, s.mempool, s.nonces, s.economy.balances, final)
    requires AllReady(env, s.mempool, s.nonces, s.economy.balances, a)
    requires forall x | x in s.mempool && x.from == a :: HashApart(env.hash, final, x)
    ensures Waits(Kept(Committed(env.hash, final), s.mempool), a) <==> HasTwins(env.hash, s.mempool, a)
  {
    if Waits(s.mempool, a) {
      LeftOfReadySender(env, s, final, a);
    } else {
      KeptIsPending(Committed(env.hash, final), s.mempool);
    }
  }

  lemma LeftOfReadySender(env: Env, s: State, final: seq<Transaction>, a: Address)
    requires Reachable(env, s) && IsOutcome(env.verify, s.mempool, s.nonces, s.economy.balances, final)
    requires AllReady(env, s.mempool, s.nonces, s.economy.balances, a) && Waits(s.mempool, a)
    requires forall x | x in s.mempool && x.from == a :: HashApart(env.hash, final, x)
    ensures Waits(Kept(Committed(env.hash, final), s.mempool), a) <==> HasTwins(env.hash, s.mempool, a)
  {
    var t := ServedOnce(env, s, s.mempool, s.nonces, s.economy.balances, final, a);
    ServedIsPending(env, s, final, a, t);
    KeptIffOtherHash(env.hash, final, s.mempool, a, t);
    TwinsIffOtherHash(env.hash, s.mempool, Kept(Committed(env.hash, final), s.mempool), a, t);
  }

  lemma ServedIsPending(env: Env, s: State, final: seq<Transaction>, a: Address, t: Transaction)
    requires IsOutcome(env.verify, s.mempool, s.nonces, s.economy.balances, final) && OfSender(final, a) == [t]
    ensures t in s.mempool && t.from == a
  {
    OnlyOfSender(final, a, t);
    assert OfSender(final, a)[0] == t;
    OutcomeMembers(env.verify, s.mempool, s.nonces, s.economy.balances, final);
  }

  lemma KeptIsPending(drop: Transaction -> bool, txs: seq<Transaction>)
    ensures forall z | z in Kept(drop, txs) :: z in txs
  {
    forall z | z in Kept(drop, txs) ensures z in txs {
      KeptMembers(drop, txs, z);
    }
  }

  lemma KeptIffOtherHash(h: HashFunction, final: seq<Transaction>, txs: seq<Transaction>, a: Address, t: Transaction)
    requires OfSender(final, a) == [t] && forall x | x in txs && x.from == a :: HashApart(h, final, x)
    ensures forall x: Transaction | x.from == a ::
      x in Kept(Committed(h, final), txs) <==> x in txs && TxDigest(h, x) != TxDigest(h, t)
  {
    forall x: Transaction | x.from == a
      ensures x in Kept(Committed(h, final), txs) <==> x in txs && TxDigest(h, x) != TxDigest(h, t)
    {
      KeptMembers(Committed(h, final), txs, x);
      if x in txs {
        PurgedIffServedHash(h, final, t, x);
      }
    }
  }

  lemma TwinsIffOtherHash(h: HashFunction, txs: seq<Transaction>, kept: seq<Transaction>, a: Address, t: Transaction)
    requires t in txs && t.from == a
    requires forall x: Transaction | x.from == a :: x in kept <==> x in txs && TxDigest(h, x) != TxDigest(h, t)
    ensures Waits(kept, a) <==> HasTwins(h, txs, a)
  {
    if z :| z in kept && z.from == a {
      assert z in txs && TxDigest(h, z) != TxDigest(h, t);
    }
    if x, y :| x in txs && y in txs && x.from == y.from == a && TxDigest(h, x) != TxDigest(h, y) {
      assert x in kept || y in kept;
    }
  }

  /** Of a list of pending transactions a batch serves a ready sender exactly once. */
  lemma ServedOnce(env: Env, s: State, txs: seq<Transaction>, nonces: Table, balances: Table,
      final: seq<Transaction>, a: Address)
    returns (t: Transaction)
    requires Reachable(env, s) && nonces == s.nonces && forall u | u in txs :: u in s.mempool
    requires IsOutcome(env.verify, txs, nonces, balances, final)
    requires AllReady(env, txs, nonces, balances, a) && Waits(txs, a)
    ensures OfSender(final, a) == [t] && t.nonce == At(nonces, a) + 1
  {
    ReachableInv(env, s);
    forall u | u in txs ensures u.nonce <= At(nonces, u.from) + 1 {
      assert NotAhead(s.nonces, u);
    }
    var u :| u in txs && u.from == a;
    var i :| 0 <= i < |txs| && txs[i] == u;
    t := ServedExactlyOnce(env.verify, txs, nonces, balances, final, a);
  }

  /** Whenever a round - in any run, interleaved with anything - executes a snapshot with
      two ready payments of one sender that have different hashes, it commits one of them,
      and one of them shuts out the sender for good: in every later state it is pending
      and the sender has committed nothing more. */
  lemma TwinPaymentsShutOutTheirSender(env: Env, s: State, id: nat, final: seq<Transaction>, x: Transaction,
      y: Transaction)
    returns (z: Transaction)
    requires Reachable(env, s) && Enabled(env, s, Execute(id, final))
    requires x in s.calls[id].snap && y in s.calls[id].snap && x.from == y.from
    requires TxDigest(env.hash, x) != TxDigest(env.hash, y)
    requires AllReady(env, s.calls[id].snap, s.calls[id].nonces, s.calls[id].balances, x.from)
    requires HashApart(env.hash, final, x) && HashApart(env.hash, final, y)
    ensures |OfSender(final, x.from)| == 1
    ensures z == x || z == y
    ensures var n := Apply(env, s, Execute(id, final));
      Reachable(env, n) && Blocked(env, n, z) && ShutOut(env, n, z)
  {
    ReachableInv(env, s);
    var r := s.calls[id];
    var t := ServedOnce(env, s, r.snap, r.nonces, r.balances, final, x.from);
    PurgedIffServedHash(env.hash, final, t, x);
    PurgedIffServedHash(env.hash, final, t, y);
    z := if TxDigest(env.hash, x) != TxDigest(env.hash, t) then x else y;
    ExecutedStateShutsOut(env, s, id, final, z, t);
  }

  lemma ExecutedStateShutsOut(env: Env, s: State, id: nat, final: seq<Transaction>, z: Transaction, t: Transaction)
    requires Reachable(env, s) && Inv(env, s) && Enabled(env, s, Execute(id, final)) && z in s.calls[id].snap
    requires OfSender(final, z.from) == [t] && t.nonce == At(s.nonces, z.from) + 1
    requires z.nonce <= t.nonce && !Committed(env.hash, final)(z)
    ensures var n := Apply(env, s, Execute(id, final));
      Reachable(env, n) && Blocked(env, n, z) && ShutOut(env, n, z)
  {
    var n := Apply(env, s, Execute(id, final));
    ExecutedStateBlocks(env, s, id, final, z, t);
    ReachesOne(env, s, Execute(id, final));
    ReachableOn(env, s, [Execute(id, final)], n);
    BlockedShutsOut(env, n, z);
  }

  lemma ExecutedStateBlocks(env: Env, s: State, id: nat, final: seq<Transaction>, z: Transaction, t: Transaction)
    requires Inv(env, s) && Enabled(env, s, Execute(id, final)) && z in s.calls[id].snap
    requires OfSender(final, z.from) == [t] && t.nonce == At(s.nonces, z.from) + 1
    requires z.nonce <= t.nonce && !Committed(env.hash, final)(z)
    ensures Blocked(env, Apply(env, s, Execute(id, final)), z)
  {
    var n := Apply(env, s, Execute(id, final));
    CommitAllNonces(s.Books(), final, z.from);
    ExecutedRound(env, s, id, final);
    NotCommittedStays(env, Round(n), z);
    assert z in s.mempool && At(n.nonces, z.from) == t.nonce;
  }

  lemma NotCommittedStays(env: Env, p: Phase, z: Transaction)
    requires p.HasFinal() && !Committed(env.hash, p.final)(z)
    ensures !WillPurge(env, p, z)
  {
    assert TxDigest(env.hash, z) !in HashesOf(env.hash, p.final);
  }

  lemma BlockedShutsOut(env: Env, s: State, t: Transaction)
    requires Reachable(env, s) && Blocked(env, s, t)
    ensures ShutOut(env, s, t)
  {
    forall steps, u | Reaches(env, s, steps, u) && StepsApart(env, steps, t)
      ensures t in u.mempool && At(u.nonces, t.from) == At(s.nonces, t.from)
      ensures OfSender(History(u), t.from) == OfSender(History(s), t.from)
    {
      SpentNonceBlocksForGood(env, s, steps, u, t);
    }
  }

  /** And this happens: from every start, two different payments that could each be
      executed on their own, followed by an approved call, shut out their sender. */
  lemma TwinPaymentsHappen(env: Env, s: State, x: Transaction, y: Transaction, c: Choices)
    returns (n: State, z: Transaction)
    requires Init(env, s) && Quiet(s) && x.from == y.from && TxDigest(env.hash, x) != TxDigest(env.hash, y)
    requires Executable(env.verify, s.Books(), x) && Executable(env.verify, s.Books(), y)
    requires Decide(env, s.(mempool := [x, y]), c.seed).Approval?
    ensures Reachable(env, n) && (z == x || z == y) && z in n.mempool && ShutOut(env, n, z)
  {
    var pending := s.(mempool := [x, y]);
    var proposer := Decide(env, pending, c.seed).proposer;
    TwinsArePending(env, s, x, y);
    ReadyIsReachable(env, pending, c);
    var m := InPhase(pending, Ready(proposer, [x, y], s.nonces, s.economy.balances));
    var final := OutcomeExists(env.verify, [x, y], s.nonces, s.economy.balances);
    OutcomeMembers(env.verify, [x, y], s.nonces, s.economy.balances, final);
    z := TwinPaymentsShutOutTheirSender(env, m, 0, final, x, y);
    n := Apply(env, m, Execute(0, final));
  }

  lemma ReadyIsReachable(env: Env, s: State, c: Choices)
    requires Reachable(env, s) && Quiet(s) && Decide(env, s, c.seed).Approval?
    ensures Reachable(env, InPhase(s, Ready(Decide(env, s, c.seed).proposer, s.mempool, s.nonces, s.economy.balances)))
  {
    SnapshotsRan(env, s, c);
    var m := InPhase(s, Ready(Decide(env, s, c.seed).proposer, s.mempool, s.nonces, s.economy.balances));
    var round :| Reaches(env, s, round, m);
    ReachableOn(env, s, round, m);
  }

  // ----- what a round leaves of the mempool

  /** In every run, at its removal step, every transaction of its snapshot is on the chain,
      shares a hash with one that is, or stays pending; later arrivals stay unless they
      share such a hash. */
  lemma RoundConservesMempool(env: Env, s: State, id: nat)
    requires Reachable(env, s) && Enabled(env, s, Purge(id))
    ensures var r, after := s.calls[id], Apply(env, s, Purge(id)).mempool;
      && r.snap <= s.mempool
      && (forall t | t in r.final :: t in r.snap)
      && after == Kept(Committed(env.hash, r.final), r.snap) + Kept(Committed(env.hash, r.final), s.mempool[|r.snap|..])
      && (forall t | t in s.mempool ::
            t in after || exists c :: c in r.final && TxDigest(env.hash, c) == TxDigest(env.hash, t))
      && (forall t | t in after :: t in s.mempool && t !in r.final)
  {
    ReachableInv(env, s);
    var r := s.calls[id];
    assert s.mempool == r.snap + s.mempool[|r.snap|..];
    RoundConservesPending(env.hash, r.snap, s.mempool[|r.snap|..], r.final);
  }
}
