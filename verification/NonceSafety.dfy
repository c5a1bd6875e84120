/** No transaction is ever replayed: invariants over every run of the protocol. */
module NonceSafety {
  import opened Accounts
  import opened Transactions
  import opened Batch
  import opened Chain
  import opened Pending
  import opened Protocol

  // ----- the invariants

  /** Between its nonce snapshot and its commit, a round's snapshot is the nonce table. */
  ghost predicate NoncesFrozen(s: State) {
    Round(s).WithNonces? || Round(s).Ready? ==> Round(s).nonces == s.nonces
  }

  ghost predicate NotAhead(nonces: Table, tx: Transaction) {
    tx.nonce <= At(nonces, tx.from) + 1
  }

  /** No pending or admitted transaction runs ahead of its sender's next nonce. */
  ghost predicate PendingBound(s: State) {
    && (forall t | t in s.mempool :: NotAhead(s.nonces, t))
    && (forall id | id in s.admissions && !s.admissions[id].Arrived? ::
          s.admissions[id].expected <= At(s.nonces, s.admissions[id].tx.from) + 1)
  }

  /** While a round is at work its snapshot stays at the front of the mempool. */
  ghost predicate SnapPending(s: State) {
    Round(s).HasSnap() ==> Round(s).snap <= s.mempool
  }

  /** A sender's transactions so far carry the nonces 1, 2, ..., up to its table entry. */
  ghost predicate Counted(history: seq<Transaction>, nonces: Table, a: Address) {
    && |OfSender(history, a)| == At(nonces, a)
    && forall i | 0 <= i < |OfSender(history, a)| :: OfSender(history, a)[i].nonce == i + 1
  }

  ghost predicate AllCounted(s: State) {
    forall a: Address :: Counted(History(s), s.nonces, a)
  }

  /** A batch as the executor makes it: verified, from the snapshot, one per sender. */
  ghost predicate Proper(env: Env, batch: seq<Transaction>) {
    && (forall t | t in batch :: env.verify(t))
    && (forall a: Address :: |OfSender(batch, a)| <= 1)
  }

  ghost predicate BatchesProper(env: Env, s: State) {
    && (forall i | 0 <= i < |s.chain| :: Proper(env, s.chain[i].transactions))
    && (Round(s).HasFinal() ==> Proper(env, Round(s).final) && forall t | t in Round(s).final :: t in Round(s).snap)
  }

  ghost predicate Inv(env: Env, s: State) {
    && Mutex(s)
    && NoncesFrozen(s)
    && PendingBound(s)
    && SnapPending(s)
    && AllCounted(s)
    && BatchesProper(env, s)
    && ValidChain(env.hash, s.chain)
  }

  // ----- one step keeps them

  lemma StepKeepsFrozen(env: Env, s: State, step: Step)
    requires Mutex(s) && NoncesFrozen(s) && Enabled(env, s, step)
    ensures NoncesFrozen(Apply(env, s, step))
  {
    var n := Apply(env, s, step);
  }

  /** A commit only raises nonces. */
  lemma ExecuteRaisesNonces(env: Env, s: State, id: nat, final: seq<Transaction>, a: Address)
    requires Mutex(s) && NoncesFrozen(s) && Enabled(env, s, Execute(id, final))
    ensures At(CommitAll(s.Books(), final).nonces, a) == At(s.nonces, a) + |OfSender(final, a)|
    ensures forall i | 0 <= i < |OfSender(final, a)| :: OfSender(final, a)[i].nonce == At(s.nonces, a) + 1 + i
  {
    var r := s.calls[id];
    OutcomeSelfFinanced(env.verify, r.snap, r.nonces, r.balances, final);
    assert PaysItsWay(env.verify, final, r.nonces, r.balances, a);
    assert Affordable(env.verify, OfSender(final, a), At(r.nonces, a), At(r.balances, a));
    AffordableNonces(env.verify, OfSender(final, a), At(r.nonces, a), At(r.balances, a));
    CommitAllNonces(s.Books(), final, a);
  }

  lemma StepRaisesNonces(env: Env, s: State, step: Step, a: Address)
    requires Mutex(s) && NoncesFrozen(s) && Enabled(env, s, step)
    ensures At(s.nonces, a) <= At(Apply(env, s, step).nonces, a)
  {
    var n := Apply(env, s, step);
    if step.Execute? {
      ExecuteRaisesNonces(env, s, step.id, step.final, a);
    }
  }

  lemma MempoolStaysBounded(env: Env, s: State, step: Step)
    requires Mutex(s) && NoncesFrozen(s) && PendingBound(s) && Enabled(env, s, step)
    ensures forall t | t in Apply(env, s, step).mempool :: NotAhead(s.nonces, t)
  {
    var n := Apply(env, s, step);
    if step.Purge? {
      forall t | t in n.mempool ensures NotAhead(s.nonces, t) {
        KeptMembers(Committed(env.hash, s.calls[step.id].final), s.mempool, t);
      }
    } else {
      MempoolGrows(env, s, step);
    }
  }

  lemma AdmissionsStayBounded(env: Env, s: State, step: Step)
    requires PendingBound(s) && Enabled(env, s, step)
    ensures var n := Apply(env, s, step);
      forall id | id in n.admissions && !n.admissions[id].Arrived? ::
        n.admissions[id].expected <= At(s.nonces, n.admissions[id].tx.from) + 1
  {
    var n := Apply(env, s, step);
  }

  lemma StepKeepsPendingBound(env: Env, s: State, step: Step)
    requires Mutex(s) && NoncesFrozen(s) && PendingBound(s) && Enabled(env, s, step)
    ensures PendingBound(Apply(env, s, step))
  {
    forall a: Address ensures At(s.nonces, a) <= At(Apply(env, s, step).nonces, a) {
      StepRaisesNonces(env, s, step, a);
    }
    MempoolStaysBounded(env, s, step);
    AdmissionsStayBounded(env, s, step);
  }

  lemma StepKeepsSnapPending(env: Env, s: State, step: Step)
    requires Mutex(s) && SnapPending(s) && Enabled(env, s, step)
    ensures SnapPending(Apply(env, s, step))
  {
    var n := Apply(env, s, step);
    if !step.Execute? {
      RoundInherits(env, s, step);
    }
    if !step.Purge? {
      MempoolGrows(env, s, step);
    }
  }

  lemma ExecuteKeepsCounted(env: Env, s: State, id: nat, final: seq<Transaction>)
    requires Mutex(s) && NoncesFrozen(s) && AllCounted(s) && Enabled(env, s, Execute(id, final))
    ensures AllCounted(Apply(env, s, Execute(id, final)))
  {
    var n := Apply(env, s, Execute(id, final));
    forall a: Address ensures Counted(History(n), n.nonces, a) {
      assert Counted(History(s), s.nonces, a);
      ExecuteKeepsCountedOf(env, s, id, final, a);
    }
  }

  lemma ExecuteKeepsCountedOf(env: Env, s: State, id: nat, final: seq<Transaction>, a: Address)
    requires Mutex(s) && NoncesFrozen(s) && Counted(History(s), s.nonces, a) && Enabled(env, s, Execute(id, final))
    ensures var n := Apply(env, s, Execute(id, final));
      Counted(History(n), n.nonces, a)
  {
    var n := Apply(env, s, Execute(id, final));
    ExecuteRaisesNonces(env, s, id, final, a);
    ExecuteAddsToHistory(env, s, id, final);
    OfSenderConcat(History(s), final, a);
  }

  lemma ExecuteAddsToHistory(env: Env, s: State, id: nat, final: seq<Transaction>)
    requires Mutex(s) && Enabled(env, s, Execute(id, final))
    ensures History(Apply(env, s, Execute(id, final))) == History(s) + final
    ensures Apply(env, s, Execute(id, final)).nonces == CommitAll(s.Books(), final).nonces
  {
    var n := Apply(env, s, Execute(id, final));
    assert History(s) == ChainTxs(s.chain) && History(n) == ChainTxs(s.chain) + final;
  }

  lemma OtherStepKeepsChain(env: Env, s: State, step: Step)
    requires Mutex(s) && Enabled(env, s, step) && !step.Execute? && !step.AppendBlock?
    ensures Apply(env, s, step).chain == s.chain
    ensures InFlight(Apply(env, s, step)) == InFlight(s)
    ensures Apply(env, s, step).nonces == s.nonces
  {
    var n := Apply(env, s, step);
  }

  /** Everything but a commit leaves the history as it is; the append moves the batch
      in flight onto the chain. */
  lemma StepKeepsHistory(env: Env, s: State, step: Step)
    requires Mutex(s) && Enabled(env, s, step) && !step.Execute?
    ensures History(Apply(env, s, step)) == History(s)
    ensures Apply(env, s, step).nonces == s.nonces
  {
    if step.AppendBlock? {
      ChainTxsOfAppended(env.hash, s.chain, s.calls[step.id].final, step.genesisTime, step.timestamp);
    } else {
      OtherStepKeepsChain(env, s, step);
    }
  }

  lemma StepKeepsCounted(env: Env, s: State, step: Step)
    requires Mutex(s) && NoncesFrozen(s) && AllCounted(s) && Enabled(env, s, step)
    ensures AllCounted(Apply(env, s, step))
  {
    if step.Execute? {
      ExecuteKeepsCounted(env, s, step.id, step.final);
    } else {
      StepKeepsHistory(env, s, step);
      var n := Apply(env, s, step);
      forall a: Address ensures Counted(History(n), n.nonces, a) {
        assert Counted(History(s), s.nonces, a);
      }
    }
  }

  lemma ExecutedIsProper(env: Env, s: State, id: nat, final: seq<Transaction>)
    requires Mutex(s) && NoncesFrozen(s) && PendingBound(s) && SnapPending(s) && Enabled(env, s, Execute(id, final))
    ensures Proper(env, final) && forall t | t in final :: t in s.calls[id].snap
  {
    var r := s.calls[id];
    OutcomeMembers(env.verify, r.snap, r.nonces, r.balances, final);
    forall t | t in r.snap ensures NotAhead(s.nonces, t) {
      assert t in s.mempool;
    }
    forall a: Address ensures |OfSender(final, a)| <= 1 {
      AtMostOnePerSender(env.verify, r.snap, r.nonces, r.balances, final, a);
    }
  }

  lemma EmptyIsProper(env: Env)
    ensures Proper(env, [])
  {
  }

  lemma AppendKeepsProper(env: Env, s: State, id: nat, genesisTime: int, timestamp: int)
    requires Mutex(s) && BatchesProper(env, s) && Enabled(env, s, AppendBlock(id, genesisTime, timestamp))
    ensures forall i | 0 <= i < |Apply(env, s, AppendBlock(id, genesisTime, timestamp)).chain| ::
      Proper(env, Apply(env, s, AppendBlock(id, genesisTime, timestamp)).chain[i].transactions)
  {
    var n := Apply(env, s, AppendBlock(id, genesisTime, timestamp));
    EmptyIsProper(env);
    forall i | 0 <= i < |n.chain| ensures Proper(env, n.chain[i].transactions) {
      assert i < |s.chain| ==> n.chain[i] == s.chain[i];
    }
  }

  lemma StepKeepsProper(env: Env, s: State, step: Step)
    requires Mutex(s) && NoncesFrozen(s) && PendingBound(s) && SnapPending(s) && BatchesProper(env, s)
      && Enabled(env, s, step)
    ensures BatchesProper(env, Apply(env, s, step))
  {
    if step.Execute? {
      ExecutedIsProper(env, s, step.id, step.final);
    } else {
      RoundInherits(env, s, step);
      if step.AppendBlock? {
        AppendKeepsProper(env, s, step.id, step.genesisTime, step.timestamp);
      } else {
        OtherStepKeepsChain(env, s, step);
      }
    }
  }

  lemma StepKeepsInv(env: Env, s: State, step: Step)
    requires Inv(env, s) && Enabled(env, s, step)
    ensures Inv(env, Apply(env, s, step))
  {
    StepKeepsMutex(env, s, step);
    StepKeepsFrozen(env, s, step);
    StepKeepsPendingBound(env, s, step);
    StepKeepsSnapPending(env, s, step);
    StepKeepsCounted(env, s, step);
    StepKeepsProper(env, s, step);
    if step.AppendBlock? {
      AppendedIsValid(env.hash, s.chain, s.calls[step.id].final, step.genesisTime, step.timestamp);
    }
  }

  lemma InitHasInv(env: Env, s: State)
    requires Init(env, s)
    ensures Inv(env, s)
  {
    EmptyIsProper(env);
    if s.chain != [] {
      assert ChainTxs(s.chain[..0]) == [];
    }
    assert History(s) == [];
    assert ValidChain(env.hash, s.chain);
  }

  lemma {:induction false} ReachableHasInv(env: Env, s: State, steps: seq<Step>, t: State)
    requires Inv(env, s) && Reaches(env, s, steps, t)
    ensures Inv(env, t)
    decreases |steps|
  {
    if steps != [] {
      StepKeepsInv(env, s, steps[0]);
      ReachableHasInv(env, Apply(env, s, steps[0]), steps[1..], t);
    }
  }

  lemma ReachableInv(env: Env, t: State)
    requires Reachable(env, t)
    ensures Inv(env, t)
  {
    var s, steps :| Init(env, s) && Reaches(env, s, steps, t);
    InitHasInv(env, s);
    ReachableHasInv(env, s, steps, t);
  }

  // ----- the theorems

  /** No replay: in every run, whenever no batch is between its commit and its block,
      each sender's nonces along the chain are exactly 1, 2, ..., up to its table entry. */
  lemma NoReplay(env: Env, t: State, a: Address)
    requires Reachable(env, t)
    requires !Round(t).Executed?
    ensures |OfSender(ChainTxs(t.chain), a)| == At(t.nonces, a)
    ensures forall i | 0 <= i < |OfSender(ChainTxs(t.chain), a)| :: OfSender(ChainTxs(t.chain), a)[i].nonce == i + 1
  {
    ReachableInv(env, t);
    assert Counted(History(t), t.nonces, a);
    assert History(t) == ChainTxs(t.chain);
  }

  /** At every moment of every run the chain together with the batch in flight
      carries no pair of sender and nonce twice. */
  lemma NoPairTwice(env: Env, t: State)
    requires Reachable(env, t)
    ensures forall i, j | 0 <= i < j < |History(t)| ::
      History(t)[i].from != History(t)[j].from || History(t)[i].nonce != History(t)[j].nonce
  {
    ReachableInv(env, t);
    forall i, j | 0 <= i < j < |History(t)|
      ensures History(t)[i].from != History(t)[j].from || History(t)[i].nonce != History(t)[j].nonce
    {
      var a := History(t)[i].from;
      assert Counted(History(t), t.nonces, a);
      if History(t)[j].from == a {
        var k, l := Position(History(t), i, j);
      }
    }
  }

  /** Two positions of one sender's transactions are two positions of its own list. */
  lemma {:induction false} Position(txs: seq<Transaction>, i: nat, j: nat) returns (k: nat, l: nat)
    requires i < j < |txs| && txs[i].from == txs[j].from
    ensures k < l < |OfSender(txs, txs[i].from)|
    ensures OfSender(txs, txs[i].from)[k] == txs[i] && OfSender(txs, txs[i].from)[l] == txs[j]
  {
    var a := txs[i].from;
    var front, back := OfSender(txs[..j], a), OfSender(txs[j..], a);
    assert txs == txs[..j] + txs[j..];
    OfSenderConcat(txs[..j], txs[j..], a);
    OfSenderConcat(txs[..i], txs[i..j], a);
    assert txs[..j] == txs[..i] + txs[i..j];
    k, l := |OfSender(txs[..i], a)|, |front|;
    assert OfSender(txs[i..j], a)[0] == txs[i];
    assert back[0] == txs[j];
  }

  /** In every reachable state, racy admission included, no pending transaction runs
      ahead of its sender's next nonce, and every block holds at most one transaction
      per sender. */
  lemma OnePendingNonceAhead(env: Env, t: State)
    requires Reachable(env, t)
    ensures forall tx | tx in t.mempool :: tx.nonce <= At(t.nonces, tx.from) + 1
    ensures forall i, a: Address | 0 <= i < |t.chain| :: |OfSender(t.chain[i].transactions, a)| <= 1
  {
    ReachableInv(env, t);
    forall tx | tx in t.mempool ensures tx.nonce <= At(t.nonces, tx.from) + 1 {
      assert NotAhead(t.nonces, tx);
    }
    forall i, a: Address | 0 <= i < |t.chain| ensures |OfSender(t.chain[i].transactions, a)| <= 1 {
      assert Proper(env, t.chain[i].transactions);
    }
  }

  // ----- signatures

  ghost predicate PendingSigned(env: Env, s: State) {
    forall tx | tx in s.mempool :: env.verify(tx)
  }

  lemma StepKeepsPendingSigned(env: Env, s: State, step: Step)
    requires PendingSigned(env, s) && Enabled(env, s, step)
    ensures PendingSigned(env, Apply(env, s, step))
  {
    if step.Purge? {
      forall tx | tx in Apply(env, s, step).mempool ensures env.verify(tx) {
        KeptMembers(Committed(env.hash, s.calls[step.id].final), s.mempool, tx);
      }
    } else {
      MempoolGrows(env, s, step);
      if step.Admit? {
        AdmittedIsSigned(env, s, step.id);
      }
    }
  }

  lemma AdmittedIsSigned(env: Env, s: State, id: nat)
    requires Enabled(env, s, Admit(id))
    ensures Apply(env, s, Admit(id)).mempool != s.mempool ==> env.verify(s.admissions[id].tx)
  {
  }

  lemma {:induction false} RunKeepsPendingSigned(env: Env, s: State, steps: seq<Step>, t: State)
    requires PendingSigned(env, s) && Reaches(env, s, steps, t)
    ensures PendingSigned(env, t)
    decreases |steps|
  {
    if steps != [] {
      StepKeepsPendingSigned(env, s, steps[0]);
      RunKeepsPendingSigned(env, Apply(env, s, steps[0]), steps[1..], t);
    }
  }

  /** In every reachable state no transaction without a good signature is pending or on
      the chain. */
  lemma EveryTransactionIsSigned(env: Env, t: State)
    requires Reachable(env, t)
    ensures forall tx | tx in t.mempool :: env.verify(tx)
    ensures forall i | 0 <= i < |t.chain| :: forall tx | tx in t.chain[i].transactions :: env.verify(tx)
  {
    var s, steps :| Init(env, s) && Reaches(env, s, steps, t);
    RunKeepsPendingSigned(env, s, steps, t);
    ReachableInv(env, t);
    forall i | 0 <= i < |t.chain| ensures forall tx | tx in t.chain[i].transactions :: env.verify(tx) {
      assert Proper(env, t.chain[i].transactions);
    }
  }
}
