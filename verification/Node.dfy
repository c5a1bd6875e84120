/** The node's own code: global maps, slices and counters updated step by step, each
    method proved against the specification that the protocol is built from. */
module Node {
  import opened Accounts
  import opened Transactions
  import opened Batch
  import opened Merkle
  import opened Chain
  import opened Pending
  import opened Slashing
  import opened Election
  import P = Protocol
  import opened Rounds

  /** sort.Slice: some permutation in nonce order; callers learn nothing about ties. */
  method SortByNonce(list: seq<Transaction>) returns (sorted: seq<Transaction>)
    ensures SortedByNonce(sorted) && multiset(sorted) == multiset(list)
  {
    SortSorts(list);
    sorted := Sort(list);
  }

  lemma SendersOfPrefix(txs: seq<Transaction>, i: nat)
    requires i < |txs|
    ensures Senders(txs[..i + 1]) == Senders(txs[..i]) + {txs[i].from}
  {
    assert forall k | 0 <= k < i :: txs[..i + 1][k] == txs[..i][k];
    assert txs[..i + 1][i] == txs[i];
  }

  lemma OfSenderPrefix(txs: seq<Transaction>, i: nat, a: Address)
    requires i < |txs|
    ensures OfSender(txs[..i + 1], a) == OfSender(txs[..i], a) + (if txs[i].from == a then [txs[i]] else [])
  {
    assert txs[..i + 1] == txs[..i] + [txs[i]];
    OfSenderConcat(txs[..i], [txs[i]], a);
  }

  lemma {:induction false} NoSenderNoTxs(txs: seq<Transaction>, a: Address)
    requires a !in Senders(txs)
    ensures OfSender(txs, a) == []
  {
    if txs != [] {
      assert txs[0].from in Senders(txs);
      assert Senders(txs[1..]) <= Senders(txs) by {
        forall s | s in Senders(txs[1..]) ensures s in Senders(txs) {
          var i :| 0 <= i < |txs[1..]| && txs[1..][i].from == s;
          assert txs[i + 1].from == s;
        }
      }
      NoSenderNoTxs(txs[1..], a);
    }
  }

  /** Groups the snapshot by sender, keeping the order within each group. */
  method Partition(txs: seq<Transaction>) returns (partitions: map<Address, seq<Transaction>>)
    ensures partitions.Keys == Senders(txs)
    ensures forall s | s in partitions :: partitions[s] == OfSender(txs, s)
  {
    partitions := map[];
    for i := 0 to |txs|
      invariant partitions.Keys == Senders(txs[..i])
      invariant forall s | s in partitions :: partitions[s] == OfSender(txs[..i], s)
    {
      var tx := txs[i];
      SendersOfPrefix(txs, i);
      forall s: Address
        ensures OfSender(txs[..i + 1], s) == OfSender(txs[..i], s) + (if tx.from == s then [tx] else [])
      {
        OfSenderPrefix(txs, i, s);
      }
      if tx.from !in partitions {
        NoSenderNoTxs(txs[..i], tx.from);
      }
      partitions := partitions[tx.from := (if tx.from in partitions then partitions[tx.from] else []) + [tx]];
    }
    assert txs[..|txs|] == txs;
  }

  /** Halfway through: the senders in `rest` still have their partition as it was. */
  ghost predicate SortedExcept(txs: seq<Transaction>, sorted: map<Address, seq<Transaction>>, rest: set<Address>) {
    && sorted.Keys == Senders(txs) && rest <= sorted.Keys
    && forall s | s in sorted :: if s in rest then sorted[s] == OfSender(txs, s) else SortedPartition(txs, s, sorted[s])
  }

  lemma SortOneMore(txs: seq<Transaction>, sorted: map<Address, seq<Transaction>>, rest: set<Address>, s: Address,
      list: seq<Transaction>)
    requires SortedExcept(txs, sorted, rest) && s in rest && SortedPartition(txs, s, list)
    ensures SortedExcept(txs, sorted[s := list], rest - {s})
  {
  }

  method SortPartitions(txs: seq<Transaction>, partitions: map<Address, seq<Transaction>>)
    returns (sorted: map<Address, seq<Transaction>>)
    requires partitions.Keys == Senders(txs) && forall s | s in partitions :: partitions[s] == OfSender(txs, s)
    ensures SortedPartitions(txs, sorted)
  {
    sorted := partitions;
    var rest := partitions.Keys;
    while rest != {}
      invariant SortedExcept(txs, sorted, rest)
      decreases |rest|
    {
      var s :| s in rest;
      var list := SortByNonce(sorted[s]);
      SortOneMore(txs, sorted, rest, s, list);
      sorted := sorted[s := list];
      rest := rest - {s};
    }
  }

  /** The body of a worker for one job. */
  method RunJob(verify: Verifier, txs: seq<Transaction>, nonce: int, balance: int) returns (accepted: seq<Transaction>)
    ensures accepted == Accept(verify, txs, nonce, balance)
  {
    accepted := [];
    var localNonce, localBal := nonce, balance;
    for i := 0 to |txs|
      invariant Accept(verify, txs, nonce, balance) == accepted + Accept(verify, txs[i..], localNonce, localBal)
    {
      var tx := txs[i];
      assert txs[i..][0] == tx && txs[i..][1..] == txs[i + 1..];
      if tx.nonce != localNonce + 1 || !verify(tx) || localBal < tx.Cost() {
        return;
      }
      localBal := localBal - tx.Cost();
      localNonce := tx.nonce;
      accepted := accepted + [tx];
    }
  }

  /** The collector and, behind it, the workers: one result per partition, in whatever
      order they arrive. */
  method Collect(verify: Verifier, txs: seq<Transaction>, sorted: map<Address, seq<Transaction>>, nonces: Table,
      balances: Table)
    returns (final: seq<Transaction>)
    requires SortedPartitions(txs, sorted)
    ensures IsOutcome(verify, txs, nonces, balances, final)
  {
    ghost var order;
    final, order := Receive(verify, sorted, nonces, balances);
    GatheredIsOutcome(verify, txs, order, sorted, nonces, balances);
  }

  /** The receiving loop, with the order of arrival. */
  method Receive(verify: Verifier, sorted: map<Address, seq<Transaction>>, nonces: Table, balances: Table)
    returns (final: seq<Transaction>, ghost order: seq<Address>)
    ensures Arranges(order, sorted.Keys) && forall i | 0 <= i < |order| :: order[i] in sorted
    ensures final == Gather(verify, order, sorted, nonces, balances)
  {
    final, order := [], [];
    var waiting := sorted.Keys;
    ghost var done: set<Address> := {};
    while waiting != {}
      invariant Received(verify, sorted, nonces, balances, order, done, waiting, final)
      decreases |waiting|
    {
      var s :| s in waiting;
      var accepted := RunJob(verify, sorted[s], At(nonces, s), At(balances, s));
      ReceiveNext(verify, sorted, nonces, balances, order, done, waiting, final, s);
      final := final + accepted;
      order := order + [s];
      waiting, done := waiting - {s}, done + {s};
    }
    assert done == sorted.Keys;
  }

  /** These senders' results have arrived, in this order, and those are waited for. */
  ghost predicate Received(verify: Verifier, sorted: map<Address, seq<Transaction>>, nonces: Table, balances: Table,
      order: seq<Address>, done: set<Address>, waiting: set<Address>, final: seq<Transaction>) {
    && done !! waiting && done + waiting == sorted.Keys && Arranges(order, done)
    && (forall i | 0 <= i < |order| :: order[i] in sorted)
    && final == Gather(verify, order, sorted, nonces, balances)
  }

  lemma ReceiveNext(verify: Verifier, sorted: map<Address, seq<Transaction>>, nonces: Table, balances: Table,
      order: seq<Address>, done: set<Address>, waiting: set<Address>, final: seq<Transaction>, s: Address)
    requires Received(verify, sorted, nonces, balances, order, done, waiting, final) && s in waiting
    ensures Received(verify, sorted, nonces, balances, order + [s], done + {s}, waiting - {s},
      final + Accept(verify, sorted[s], At(nonces, s), At(balances, s)))
  {
    GatherNext(verify, order, s, sorted, nonces, balances);
    ArrangeNext(order, done, s);
  }

  lemma GatheredIsOutcome(verify: Verifier, txs: seq<Transaction>, order: seq<Address>,
      sorted: map<Address, seq<Transaction>>, nonces: Table, balances: Table)
    requires SortedPartitions(txs, sorted) && Arranges(order, sorted.Keys)
    requires forall i | 0 <= i < |order| :: order[i] in sorted
    ensures IsOutcome(verify, txs, nonces, balances, Gather(verify, order, sorted, nonces, balances))
  {
    var final := Gather(verify, order, sorted, nonces, balances);
    assert GatheredBy(verify, txs, nonces, balances, final, order, sorted);
  }

  lemma ArrangeNext(order: seq<Address>, senders: set<Address>, s: Address)
    requires Arranges(order, senders) && s !in senders
    ensures Arranges(order + [s], senders + {s})
  {
    assert forall i | 0 <= i < |order| :: order[i] in order;
  }

  class Node {
    var balances: Table
    var nonces: Table
    var mempool: Mempool
    var chain: seq<Block>
    var treasury: int
    var burned: int
    var validators: seq<Validator>
    var status: Status
    var committing: bool
    ghost var dust: int

    ghost predicate Valid()
      reads this, mempool
    {
      mempool.Valid()
    }

    function Money(): Economy
      reads this
    {
      Economy(balances, validators, treasury, burned)
    }

    function Books(): Book
      reads this
    {
      Book(balances, nonces)
    }

    /** What a batch does not touch. */
    ghost function Rest(): (seq<Validator>, int, int, Status, bool, int)
      reads this
    {
      (validators, treasury, burned, status, committing, dust)
    }

    ghost function Pending(): seq<Transaction>
      reads this, mempool, mempool.slots
      requires Valid()
    {
      mempool.Contents()
    }

    /** The protocol state this node is in, with no call and no admission under way. */
    ghost function Abstract(now: int): P.State
      reads this, mempool, mempool.slots
      requires Valid()
    {
      P.State(Money(), nonces, Pending(), chain, status, now, committing, 0, map[], map[], 0, dust)
    }

    constructor (balances: Table, validators: seq<Validator>)
      ensures Valid() && fresh(mempool) && fresh(mempool.slots)
      ensures Abstract(0) == P.State(Economy(balances, validators, 0, 0), map[], [], [], map[], 0, false, 0, map[],
        map[], 0, 0)
    {
      this.balances, this.validators := balances, validators;
      nonces, chain, status := map[], [], map[];
      treasury, burned, committing, dust := 0, 0, false, 0;
      mempool := new Mempool();
    }

    // ----- admission

    /** Admits a transaction that carries its sender's next nonce, is covered by the
        sender's balance and properly signed; anything else leaves the mempool alone. */
    method ValidateAndAddToMempool(verify: Verifier, tx: Transaction) returns (ok: bool)
      requires Valid()
      modifies mempool, mempool.slots
      ensures Valid() && (mempool.slots == old(mempool.slots) || fresh(mempool.slots))
      ensures ok <==> Executable(verify, Books(), tx)
      ensures Pending() == if ok then old(Pending()) + [tx] else old(Pending())
    {
      var expected := At(nonces, tx.from) + 1;
      var balance := At(balances, tx.from);
      if tx.nonce != expected {
        return false;
      }
      if balance < tx.Cost() {
        return false;
      }
      if !verify(tx) {
        return false;
      }
      mempool.Append(tx);
      return true;
    }

    // ----- batch execution

    /** Executes a snapshot. The order in which senders' results arrive is arbitrary. */
    method ProcessTxListParallel(verify: Verifier, txs: seq<Transaction>) returns (final: seq<Transaction>)
      modifies this`balances, this`nonces
      ensures IsOutcome(verify, txs, old(nonces), old(balances), final)
      ensures Books() == CommitAll(old(Books()), final)
    {
      var partitions := Partition(txs);
      var sorted := SortPartitions(txs, partitions);
      var nonceSnap, balSnap := nonces, balances;
      final := Collect(verify, txs, sorted, nonceSnap, balSnap);
      CommitBatch(final);
    }

    method ProcessMempoolParallel(verify: Verifier) returns (final: seq<Transaction>)
      requires Valid()
      modifies this`balances, this`nonces
      ensures IsOutcome(verify, old(Pending()), old(nonces), old(balances), final)
      ensures Books() == CommitAll(old(Books()), final)
    {
      var snap := mempool.Snapshot();
      final := ProcessTxListParallel(verify, snap[..]);
    }

    /** The single commit loop. */
    method CommitBatch(final: seq<Transaction>)
      modifies this`balances, this`nonces
      ensures Books() == CommitAll(old(Books()), final)
    {
      for i := 0 to |final|
        invariant CommitAll(Books(), final[i..]) == CommitAll(old(Books()), final)
      {
        CommitNext(Books(), final, i);
        CommitOne(final[i]);
      }
    }

    method CommitOne(tx: Transaction)
      modifies this`balances, this`nonces
      ensures Books() == Commit(old(Books()), tx)
    {
      balances := Credit(balances, tx.from, -tx.Cost());
      balances := Credit(balances, tx.to, tx.amount);
      nonces := nonces[tx.from := tx.nonce];
    }

    // ----- blocks

    /** Appends a block for the batch and pays fees and reward to the validator; an empty
        chain gets its genesis block first. */
    method AddBlockWithTxs(h: HashFunction, val: Address, txs: seq<Transaction>, genesisTime: int, timestamp: int)
      modifies this`chain, this`balances
      ensures chain == Appended(h, old(chain), txs, genesisTime, timestamp)
      ensures balances == Credit(old(balances), val, Fees(txs) + 5)
    {
      AppendBlock(h, txs, genesisTime, timestamp);
      var totalFees := TotalFees(txs);
      balances := Credit(balances, val, totalFees + 5);
    }

    method AppendBlock(h: HashFunction, txs: seq<Transaction>, genesisTime: int, timestamp: int)
      modifies this`chain
      ensures chain == Appended(h, old(chain), txs, genesisTime, timestamp)
    {
      if |chain| == 0 {
        var genesis := MakeBlock(h, 0, [], "0", genesisTime);
        chain := chain + [genesis];
      }
      var last := chain[|chain| - 1];
      var block := MakeBlock(h, |chain|, txs, last.hash, timestamp);
      chain := chain + [block];
    }

    // ----- slashing

    method FindValidator(a: Address) returns (i: nat)
      ensures i == Find(validators, a)
    {
      i := 0;
      while i < |validators| && validators[i].address != a
        invariant i <= |validators| && forall j | 0 <= j < i :: validators[j].address != a
      {
        i := i + 1;
      }
    }

    method SlashSingle(a: Address, amount: int) returns (taken: int)
      modifies this`validators
      ensures taken == CutOf(old(validators), a, amount)
      ensures validators == WithCut(old(validators), a, amount)
    {
      if amount <= 0 {
        return 0;
      }
      var i := FindValidator(a);
      if i == |validators| {
        return 0;
      }
      taken := amount;
      if validators[i].stake < taken {
        taken := validators[i].stake;
      }
      validators := validators[i := validators[i].(stake := validators[i].stake - taken)];
    }

    method DistributeSlashed(total: int, reporter: Address, offender: Address)
      modifies this`balances, this`treasury, this`burned
      ensures Money() == Distribute(old(Money()), total, PolicyParts(total), reporter, offender)
    {
      if total <= 0 {
        return;
      }
      var burn, trea, whis := total * 70 / 100, total * 15 / 100, total * 10 / 100;
      var hon := total - burn - trea - whis;
      burned := burned + burn;
      treasury := treasury + trea;
      if reporter.text != "" && whis > 0 {
        balances := Credit(balances, reporter, whis);
      } else {
        treasury := treasury + whis;
      }
      PayHonestPot(hon, offender);
    }

    /** The pot goes to the others by stake, or to the treasury when they have none. */
    method PayHonestPot(hon: int, offender: Address)
      modifies this`balances, this`treasury
      ensures Money() == PayHonest(old(Money()), hon, offender)
    {
      if hon > 0 {
        var stakes := HonestStake(offender);
        if stakes > 0 {
          PayHonestShares(offender, hon, stakes);
        } else {
          treasury := treasury + hon;
        }
      }
    }

    method HonestStake(offender: Address) returns (stakes: int)
      ensures stakes == OthersStake(validators, offender)
    {
      stakes := 0;
      for i := 0 to |validators|
        invariant stakes + OthersStake(validators[i..], offender) == OthersStake(validators, offender)
      {
        assert validators[i..][0] == validators[i] && validators[i..][1..] == validators[i + 1..];
        if validators[i].address != offender {
          stakes := stakes + validators[i].stake;
        }
      }
    }

    /** The redistribution loop. */
    method PayHonestShares(offender: Address, hon: int, stakes: int)
      requires stakes > 0
      modifies this`balances
      ensures balances == PayShares(old(balances), validators, offender, hon, stakes)
    {
      for i := 0 to |validators|
        invariant PayShares(balances, validators[i..], offender, hon, stakes)
               == PayShares(old(balances), validators, offender, hon, stakes)
      {
        var v := validators[i];
        assert validators[i..][0] == v && validators[i..][1..] == validators[i + 1..];
        if v.address != offender {
          var share := hon * v.stake / stakes;
          if share > 0 {
            balances := Credit(balances, v.address, share);
          }
        }
      }
    }

    method SuspendValidator(a: Address, scope: Scope, seconds: int, now: int)
      modifies this`status
      ensures status == Suspend(old(status), a, scope, seconds, now)
    {
      if a !in status {
        status := status[a := Runtime(0, ScopeNone)];
      }
      status := status[a := Runtime(now + seconds, scope)];
    }

    method ResolveAmount(offender: Address, params: Params) returns (amount: int)
      ensures amount == AskedAmount(validators, offender, params)
    {
      amount := params.amount;
      if amount <= 0 && params.percent > 0.0 {
        var i := FindValidator(offender);
        if i < |validators| {
          amount := (validators[i].stake as real * params.percent).Floor;
          if amount <= 0 && validators[i].stake > 0 {
            amount := 1;
          }
        }
      }
      assert amount == BaseAmount(validators, offender, params);
      if params.correlationMul > 0.0 && params.correlationMul != 1.0 {
        amount := (amount as real * params.correlationMul).Floor;
      }
    }

    /** The slashing executor: what it does to the money and to the suspensions. */
    method ApplySlash(offender: Address, params: Params, reporter: Address, now: int)
      modifies this`balances, this`treasury, this`burned, this`validators, this`status, this`dust
      ensures dust == old(dust) + SlashDust(old(Money()), offender, params)
      ensures Money() == SlashEconomy(old(Money()), offender, params, reporter)
      ensures status == SlashStatus(old(Money()), old(status), offender, params, now)
    {
      dust := dust + SlashDust(Money(), offender, params);
      var amount := ResolveAmount(offender, params);
      if amount <= 0 {
        return;
      }
      var actual := SlashSingle(offender, amount);
      if actual <= 0 {
        return;
      }
      match params.kind {
        case Downtime => burned := burned + actual;
        case Safety => DistributeSlashed(actual, reporter, offender);
      }
      if params.suspendFor > 0 && params.scope != ScopeNone {
        SuspendValidator(offender, params.scope, params.suspendFor, now);
      }
    }

    /** A joint penalty, 40 percent for the main validator: the partner pays first. */
    method SlashCluster(main: Address, sub: Address, total: int, reporter: Address, now: int)
      modifies this`balances, this`treasury, this`burned, this`validators, this`status, this`dust
      ensures Money() == SlashClusterEconomy(old(Money()), main, sub, total, reporter)
      ensures status == if total <= 0 then old(status) else
        PartsStatus(old(Money()), old(status), main, total * 40 / 100, sub, total - total * 40 / 100, reporter, now)
    {
      if total <= 0 {
        return;
      }
      var mainAmount := total * 40 / 100;
      var subAmount := total - mainAmount;
      SlashPart(sub, subAmount, reporter, now);
      SlashPart(main, mainAmount, reporter, now);
    }

    method SlashPart(a: Address, amount: int, reporter: Address, now: int)
      modifies this`balances, this`treasury, this`burned, this`validators, this`status, this`dust
      ensures Money() == ClusterPart(old(Money()), a, amount, reporter)
      ensures status == ClusterPartStatus(old(Money()), old(status), a, amount, now)
    {
      if amount > 0 && a.text != "" {
        ApplySlash(a, SafetyPolicy(amount, 1.0), reporter, now);
      }
    }

    // ----- the commit round

    /** One commit call, nobody interfering: the guard, the round, the guard's release on
        every way out. What it does is a run of the protocol (EffectIsARun). */
    method CommitBlock(env: P.Env, seed: nat, now: int, genesisTime: int, timestamp: int)
      requires Valid()
      modifies this, mempool`size, mempool.slots
      ensures Valid() && mempool == old(mempool) && mempool.slots == old(mempool.slots)
      ensures Effect(env, old(Abstract(now)), Choices(seed, genesisTime, timestamp), Abstract(now))
    {
      if committing {
        return;
      }
      committing := true;
      RunRound(env, seed, now, genesisTime, timestamp);
      committing := false;
    }

    /** The round of the call that holds the guard. */
    method RunRound(env: P.Env, seed: nat, now: int, genesisTime: int, timestamp: int)
      requires Valid()
      modifies this`balances, this`nonces, this`chain
      modifies this`treasury, this`burned, this`validators, this`status, this`dust
      modifies mempool`size, mempool.slots
      ensures Valid() && mempool.slots == old(mempool.slots)
      ensures Effect(env, old(Abstract(now)).(committing := false), Choices(seed, genesisTime, timestamp),
        Abstract(now).(committing := false))
    {
      ghost var s, c := Abstract(now).(committing := false), Choices(seed, genesisTime, timestamp);
      var verdict := Elect(env, seed, now);
      match verdict
      case Idle =>
      case Rejected(proposer) =>
        ApplySlash(proposer, SafetyPolicy(10, 1.0), Address(""), now);
      case Approval(proposer) =>
        var final := ExecuteRound(env, proposer, Choices(seed, genesisTime, timestamp));
        PartsOfBatch(env, s, proposer, final, c, Abstract(now).(committing := false), balances, nonces, chain,
          Pending());
        ApprovalEffect(env, s, c, Abstract(now).(committing := false), final);
    }

    /** From the size check to the vote. */
    method Elect(env: P.Env, seed: nat, now: int) returns (verdict: Verdict)
      requires Valid()
      ensures verdict == Decide(env, Abstract(now).(committing := false), seed)
    {
      if mempool.size == 0 {
        return Idle;
      }
      if |validators| == 0 {
        return Idle;
      }
      var validator := SelectValidatorVRFEligible(validators, status, seed, now);
      if validator.address !in env.wallets {
        return Idle;
      }
      var accepted := BftVote(validators, status, now);
      if !accepted {
        return Rejected(validator.address);
      }
      return Approval(validator.address);
    }

    /** The rest of an approved call: the batch, its block, and the purge. */
    method ExecuteRound(env: P.Env, proposer: Address, c: Choices) returns (final: seq<Transaction>)
      requires Valid()
      modifies this`balances, this`nonces, this`chain, mempool`size, mempool.slots
      ensures Valid() && mempool.slots == old(mempool.slots)
      ensures IsOutcome(env.verify, old(Pending()), old(nonces), old(balances), final)
      ensures balances == Credit(CommitAll(old(Books()), final).balances, proposer, Fees(final) + 5)
      ensures nonces == CommitAll(old(Books()), final).nonces
      ensures chain == Appended(env.hash, old(chain), final, c.genesisTime, c.timestamp)
      ensures Pending() == Kept(Committed(env.hash, final), old(Pending()))
    {
      final := ExecuteSnapshot(env, proposer, c);
      Purge(env.hash, final);
    }

    /** The removal of what was committed: nothing but the mempool changes. */
    method Purge(h: HashFunction, final: seq<Transaction>)
      requires Valid()
      modifies mempool`size, mempool.slots
      ensures Valid() && mempool.slots == old(mempool.slots)
      ensures Pending() == Kept(Committed(h, final), old(Pending()))
      ensures balances == old(balances) && nonces == old(nonces) && chain == old(chain)
    {
      mempool.RemoveCommitted(h, final);
    }

    /** From the snapshot to the reward. */
    method ExecuteSnapshot(env: P.Env, proposer: Address, c: Choices) returns (final: seq<Transaction>)
      requires Valid()
      modifies this`balances, this`nonces, this`chain
      ensures IsOutcome(env.verify, old(Pending()), old(nonces), old(balances), final)
      ensures balances == Credit(CommitAll(old(Books()), final).balances, proposer, Fees(final) + 5)
      ensures nonces == CommitAll(old(Books()), final).nonces
      ensures chain == Appended(env.hash, old(chain), final, c.genesisTime, c.timestamp)
    {
      final := ProcessMempoolParallel(env.verify);
      assert Rest() == old(Rest()) && chain == old(chain);
      AddBlockWithTxs(env.hash, proposer, final, c.genesisTime, c.timestamp);
    }
  }

  lemma CommitNext(book: Book, final: seq<Transaction>, i: nat)
    requires i < |final|
    ensures CommitAll(book, final[i..]) == CommitAll(Commit(book, final[i]), final[i + 1..])
  {
    assert final[i..][0] == final[i] && final[i..][1..] == final[i + 1..];
  }

  lemma {:induction false} GatherNext(verify: Verifier, order: seq<Address>, s: Address,
      sorted: map<Address, seq<Transaction>>, nonces: Table, balances: Table)
    requires forall i | 0 <= i < |order| :: order[i] in sorted
    requires s in sorted
    ensures Gather(verify, order + [s], sorted, nonces, balances)
         == Gather(verify, order, sorted, nonces, balances) + Accept(verify, sorted[s], At(nonces, s), At(balances, s))
  {
    if order != [] {
      assert (order + [s])[1..] == order[1..] + [s];
      GatherNext(verify, order[1..], s, sorted, nonces, balances);
    }
  }

  method TotalFees(txs: seq<Transaction>) returns (totalFees: int)
    ensures totalFees == Fees(txs)
  {
    totalFees := 0;
    for i := 0 to |txs|
      invariant totalFees + Fees(txs[i..]) == Fees(txs)
    {
      assert txs[i..][0] == txs[i] && txs[i..][1..] == txs[i + 1..];
      totalFees := totalFees + txs[i].fee;
    }
  }

  method MakeBlock(h: HashFunction, index: int, txs: seq<Transaction>, prevHash: string, timestamp: int)
    returns (b: Block)
    ensures b == NewBlock(h, index, txs, prevHash, "", timestamp)
  {
    var root := ComputeMerkleRoot(h, txs);
    var hash := HashBlockHeader(h, Header(index, timestamp, prevHash, root, ""));
    b := Block(index, timestamp, prevHash, hash, root, "", txs);
  }
}
