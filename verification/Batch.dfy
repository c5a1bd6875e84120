/** The batch executor's arithmetic: what one worker accepts, how accepted lists
    are gathered and committed, and the sequential execution it refines. */
module Batch {
  import opened Accounts
  import opened Transactions

  // ----- transactions of one sender

  function OfSender(txs: seq<Transaction>, s: Address): (r: seq<Transaction>)
    ensures forall i | 0 <= i < |r| :: r[i].from == s && r[i] in txs
  {
    if txs == [] then []
    else if txs[0].from == s then [txs[0]] + OfSender(txs[1..], s)
    else OfSender(txs[1..], s)
  }

  lemma Reassociate(x: seq<Transaction>, y: seq<Transaction>, z: seq<Transaction>)
    ensures (x + y) + z == x + (y + z)
  {
  }

  lemma OfSenderFirst(txs: seq<Transaction>, s: Address)
    requires txs != []
    ensures OfSender(txs, s) == (if txs[0].from == s then [txs[0]] else []) + OfSender(txs[1..], s)
  {
  }

  lemma {:induction false} OfSenderConcat(a: seq<Transaction>, b: seq<Transaction>, s: Address)
    ensures OfSender(a + b, s) == OfSender(a, s) + OfSender(b, s)
  {
    if a == [] {
      assert a + b == b;
    } else {
      OfSenderConcat(a[1..], b, s);
      assert (a + b)[0] == a[0] && (a + b)[1..] == a[1..] + b;
      OfSenderFirst(a + b, s);
      OfSenderFirst(a, s);
      Reassociate(if a[0].from == s then [a[0]] else [], OfSender(a[1..], s), OfSender(b, s));
    }
  }

  lemma HeadMultiset(list: seq<Transaction>)
    requires list != []
    ensures multiset(list) == multiset(list[1..]) + multiset{list[0]}
  {
    assert list == [list[0]] + list[1..];
  }

  lemma {:induction false} OfSenderKeepsCounts(txs: seq<Transaction>, t: Transaction)
    ensures multiset(OfSender(txs, t.from))[t] == multiset(txs)[t]
  {
    if txs != [] {
      OfSenderKeepsCounts(txs[1..], t);
      HeadMultiset(txs);
      OfSenderFirst(txs, t.from);
    }
  }

  lemma {:induction false} OfSenderAll(txs: seq<Transaction>, s: Address)
    requires forall t | t in txs :: t.from == s
    ensures OfSender(txs, s) == txs
    ensures forall r | r != s :: OfSender(txs, r) == []
  {
    if txs != [] {
      OfSenderAll(txs[1..], s);
    }
  }

  /** A batch is determined, up to order, by what each sender has in it. */
  lemma SamePerSenderSameMultiset(a: seq<Transaction>, b: seq<Transaction>)
    requires forall s: Address :: OfSender(a, s) == OfSender(b, s)
    ensures multiset(a) == multiset(b)
  {
    forall t: Transaction ensures multiset(a)[t] == multiset(b)[t] {
      OfSenderKeepsCounts(a, t);
      OfSenderKeepsCounts(b, t);
    }
  }

  ghost function Senders(txs: seq<Transaction>): set<Address> {
    set i | 0 <= i < |txs| :: txs[i].from
  }

  // ----- one worker, one sender

  /** What the worker accepts of a sender's list: it stops at the first
      transaction out of turn, badly signed or not affordable. */
  function Accept(verify: Verifier, list: seq<Transaction>, nonce: int, balance: int): seq<Transaction> {
    if list == [] || list[0].nonce != nonce + 1 || !verify(list[0]) || balance < list[0].Cost() then []
    else [list[0]] + Accept(verify, list[1..], list[0].nonce, balance - list[0].Cost())
  }

  /** The list runs through from this nonce and balance without outside help. */
  ghost predicate Affordable(verify: Verifier, list: seq<Transaction>, nonce: int, balance: int) {
    list != [] ==>
      && list[0].nonce == nonce + 1
      && verify(list[0])
      && list[0].Cost() <= balance
      && Affordable(verify, list[1..], nonce + 1, balance - list[0].Cost())
  }

  /** Accept is the longest affordable prefix. */
  lemma {:induction false} AcceptIsLongestAffordablePrefix(verify: Verifier, list: seq<Transaction>, nonce: int,
      balance: int)
    ensures Accept(verify, list, nonce, balance) <= list
    ensures Affordable(verify, Accept(verify, list, nonce, balance), nonce, balance)
    ensures forall k | 0 <= k <= |list| && Affordable(verify, list[..k], nonce, balance) ::
      k <= |Accept(verify, list, nonce, balance)|
  {
    var r := Accept(verify, list, nonce, balance);
    if r != [] {
      AcceptIsLongestAffordablePrefix(verify, list[1..], nonce + 1, balance - list[0].Cost());
      assert r[1..] == Accept(verify, list[1..], nonce + 1, balance - list[0].Cost());
      forall k | 0 <= k <= |list| && Affordable(verify, list[..k], nonce, balance) ensures k <= |r| {
        if k > 0 {
          assert list[..k][1..] == list[1..][..k - 1];
        }
      }
    } else {
      forall k | 0 <= k <= |list| && Affordable(verify, list[..k], nonce, balance) ensures k <= |r| {
        if k > 0 {
          assert list[..k][0] == list[0];
        }
      }
    }
  }

  /** The nonces of an affordable list are the next ones, in order. */
  lemma {:induction false} AffordableNonces(verify: Verifier, list: seq<Transaction>, nonce: int, balance: int)
    requires Affordable(verify, list, nonce, balance)
    ensures forall i | 0 <= i < |list| :: list[i].nonce == nonce + 1 + i && verify(list[i])
  {
    if list != [] {
      AffordableNonces(verify, list[1..], nonce + 1, balance - list[0].Cost());
      assert forall i | 1 <= i < |list| :: list[i] == list[1..][i - 1];
    }
  }

  // ----- commit

  datatype Book = Book(balances: Table, nonces: Table)

  /** One iteration of the commit loop. */
  function Commit(book: Book, tx: Transaction): Book {
    Book(Credit(Credit(book.balances, tx.from, -tx.Cost()), tx.to, tx.amount), book.nonces[tx.from := tx.nonce])
  }

  function CommitAll(book: Book, txs: seq<Transaction>): Book
    decreases |txs|
  {
    if txs == [] then book else CommitAll(Commit(book, txs[0]), txs[1..])
  }

  lemma {:induction false} CommitAllConcat(book: Book, a: seq<Transaction>, b: seq<Transaction>)
    ensures CommitAll(book, a + b) == CommitAll(CommitAll(book, a), b)
    decreases |a|
  {
    if a == [] {
      assert a + b == b;
    } else {
      assert (a + b)[1..] == a[1..] + b;
      CommitAllConcat(Commit(book, a[0]), a[1..], b);
    }
  }

  function LastNonce(list: seq<Transaction>, default: int): int {
    if list == [] then default else list[|list| - 1].nonce
  }

  lemma {:induction false} CommitAllNonces(book: Book, txs: seq<Transaction>, s: Address)
    ensures At(CommitAll(book, txs).nonces, s)
         == LastNonce(OfSender(txs, s), At(book.nonces, s))
    decreases |txs|
  {
    if txs != [] {
      CommitAllNonces(Commit(book, txs[0]), txs[1..], s);
    }
  }

  function Fees(txs: seq<Transaction>): int {
    if txs == [] then 0 else txs[0].fee + Fees(txs[1..])
  }

  /** A commit takes exactly the fees out of circulation, self-transfers included. */
  lemma {:induction false} CommitAllTotal(book: Book, txs: seq<Transaction>)
    ensures Total(CommitAll(book, txs).balances) == Total(book.balances) - Fees(txs)
    decreases |txs|
  {
    if txs != [] {
      var debited := Credit(book.balances, txs[0].from, -txs[0].Cost());
      TotalCredit(book.balances, txs[0].from, -txs[0].Cost());
      TotalCredit(debited, txs[0].to, txs[0].amount);
      CommitAllTotal(Commit(book, txs[0]), txs[1..]);
    }
  }

  // ----- sequential execution

  datatype Option<+T> = None | Some(value: T)

  predicate Executable(verify: Verifier, book: Book, tx: Transaction) {
    && tx.nonce == At(book.nonces, tx.from) + 1
    && verify(tx)
    && tx.Cost() <= At(book.balances, tx.from)
  }

  /** Executes one transaction at a time, checking each at its turn. */
  function ExecuteAll(verify: Verifier, book: Book, txs: seq<Transaction>): Option<Book>
    decreases |txs|
  {
    if txs == [] then Some(book)
    else if !Executable(verify, book, txs[0]) then None
    else ExecuteAll(verify, Commit(book, txs[0]), txs[1..])
  }

  ghost predicate NonNegativeAmounts(txs: seq<Transaction>) {
    forall t | t in txs :: t.amount >= 0
  }

  ghost predicate Solvent(balances: Table) {
    forall s | s in balances :: balances[s] >= 0
  }

  ghost predicate SolventThroughout(book: Book, txs: seq<Transaction>)
    decreases |txs|
  {
    Solvent(book.balances) && (txs != [] ==> SolventThroughout(Commit(book, txs[0]), txs[1..]))
  }

  /** Pointwise order on account tables. */
  ghost predicate AtMost(low: Table, high: Table) {
    forall s: Address :: At(low, s) <= At(high, s)
  }

  /** The sender's transactions run through on the sender's own budget. */
  ghost predicate PaysItsWay(verify: Verifier, txs: seq<Transaction>, nonces: Table, budget: Table, s: Address) {
    Affordable(verify, OfSender(txs, s), At(nonces, s), At(budget, s))
  }

  /** Every sender's transactions do. */
  ghost predicate SelfFinanced(verify: Verifier, txs: seq<Transaction>, nonces: Table, budget: Table) {
    forall s: Address :: PaysItsWay(verify, txs, nonces, budget, s)
  }

  /** A self-financed batch, in whatever interleaving of senders, executes one
      transaction at a time without a failed check, ends as the batch commit does,
      and never makes a balance negative. Balances may exceed the budget. */
  lemma {:induction false} SelfFinancedExecutes(verify: Verifier, book: Book, budget: Table, txs: seq<Transaction>)
    requires SelfFinanced(verify, txs, book.nonces, budget)
    requires AtMost(budget, book.balances)
    requires NonNegativeAmounts(txs)
    ensures ExecuteAll(verify, book, txs) == Some(CommitAll(book, txs))
    ensures Solvent(book.balances) ==> SolventThroughout(book, txs)
    decreases |txs|
  {
    if txs != [] {
      var tx := txs[0];
      HeadIsExecutable(verify, book, budget, txs);
      SelfFinancedTail(verify, txs, book.nonces, budget);
      NonNegativeTail(txs);
      BudgetStaysBelow(book, budget, tx);
      SelfFinancedExecutes(verify, Commit(book, tx), Credit(budget, tx.from, -tx.Cost()), txs[1..]);
    }
  }

  lemma HeadIsExecutable(verify: Verifier, book: Book, budget: Table, txs: seq<Transaction>)
    requires txs != [] && SelfFinanced(verify, txs, book.nonces, budget) && AtMost(budget, book.balances)
    ensures Executable(verify, book, txs[0])
  {
    var s := txs[0].from;
    assert PaysItsWay(verify, txs, book.nonces, budget, s);
    assert At(budget, s) <= At(book.balances, s);
  }

  lemma NonNegativeTail(txs: seq<Transaction>)
    requires txs != [] && NonNegativeAmounts(txs)
    ensures txs[0].amount >= 0 && NonNegativeAmounts(txs[1..])
  {
    assert txs[0] in txs && forall t | t in txs[1..] :: t in txs;
  }

  /** The debit hits budget and balance alike; the credit can only help. */
  lemma BudgetStaysBelow(book: Book, budget: Table, tx: Transaction)
    requires AtMost(budget, book.balances) && tx.amount >= 0
    ensures AtMost(Credit(budget, tx.from, -tx.Cost()), Commit(book, tx).balances)
    ensures Solvent(book.balances) && tx.Cost() <= At(book.balances, tx.from) ==> Solvent(Commit(book, tx).balances)
  {
    forall s: Address ensures At(Credit(budget, tx.from, -tx.Cost()), s) <= At(Commit(book, tx).balances, s) {
      assert At(budget, s) <= At(book.balances, s);
    }
  }

  lemma SelfFinancedTail(verify: Verifier, txs: seq<Transaction>, nonces: Table, budget: Table)
    requires txs != [] && SelfFinanced(verify, txs, nonces, budget)
    ensures SelfFinanced(verify, txs[1..], nonces[txs[0].from := txs[0].nonce],
      Credit(budget, txs[0].from, -txs[0].Cost()))
  {
    var rest, later, left := txs[1..], nonces[txs[0].from := txs[0].nonce], Credit(budget, txs[0].from, -txs[0].Cost());
    forall s: Address ensures PaysItsWay(verify, rest, later, left, s) {
      assert PaysItsWay(verify, txs, nonces, budget, s);
      TailPaysItsWay(verify, txs, nonces, budget, s);
    }
  }

  lemma TailPaysItsWay(verify: Verifier, txs: seq<Transaction>, nonces: Table, budget: Table, s: Address)
    requires txs != [] && PaysItsWay(verify, txs, nonces, budget, s)
    ensures PaysItsWay(verify, txs[1..], nonces[txs[0].from := txs[0].nonce],
      Credit(budget, txs[0].from, -txs[0].Cost()), s)
  {
    AffordableTail(verify, txs, s, At(nonces, s), At(budget, s));
  }

  /** Executing the first transaction moves its sender's nonce and budget, and only those. */
  lemma AffordableTail(verify: Verifier, txs: seq<Transaction>, s: Address, nonce: int, budget: int)
    requires txs != [] && Affordable(verify, OfSender(txs, s), nonce, budget)
    ensures Affordable(verify, OfSender(txs[1..], s),
      if s == txs[0].from then txs[0].nonce else nonce, if s == txs[0].from then budget - txs[0].Cost() else budget)
  {
    if s == txs[0].from {
      assert OfSender(txs, s)[1..] == OfSender(txs[1..], s);
    }
  }

  // ----- the gathered result of all workers

  ghost predicate SortedByNonce(list: seq<Transaction>) {
    forall i, j | 0 <= i < j < |list| :: list[i].nonce <= list[j].nonce
  }

  ghost predicate SortedPartition(txs: seq<Transaction>, s: Address, list: seq<Transaction>) {
    SortedByNonce(list) && multiset(list) == multiset(OfSender(txs, s))
  }

  /** Each sender's transactions, sorted by nonce; equal nonces come in any order. */
  ghost predicate SortedPartitions(txs: seq<Transaction>, sorted: map<Address, seq<Transaction>>) {
    && sorted.Keys == Senders(txs)
    && forall s | s in sorted :: SortedPartition(txs, s, sorted[s])
  }

  /** Every element of the set, once. */
  ghost predicate Arranges(order: seq<Address>, senders: set<Address>) {
    && (forall i, j | 0 <= i < j < |order| :: order[i] != order[j])
    && (forall s :: s in order <==> s in senders)
  }

  /** The accepted lists, concatenated in the order the results arrive. */
  ghost function Gather(verify: Verifier, order: seq<Address>, sorted: map<Address, seq<Transaction>>, nonces: Table,
      balances: Table): seq<Transaction>
    requires forall i | 0 <= i < |order| :: order[i] in sorted
  {
    if order == [] then []
    else
      Accept(verify, sorted[order[0]], At(nonces, order[0]), At(balances, order[0]))
      + Gather(verify, order[1..], sorted, nonces, balances)
  }

  ghost predicate GatheredBy(verify: Verifier, txs: seq<Transaction>, nonces: Table, balances: Table,
      final: seq<Transaction>, order: seq<Address>, sorted: map<Address, seq<Transaction>>) {
    && SortedPartitions(txs, sorted)
    && Arranges(order, Senders(txs))
    && (forall i | 0 <= i < |order| :: order[i] in sorted)
    && final == Gather(verify, order, sorted, nonces, balances)
  }

  /** What the parallel executor may return for a snapshot: any arrival order,
      any sorting of equal nonces. */
  ghost predicate IsOutcome(verify: Verifier, txs: seq<Transaction>, nonces: Table, balances: Table,
      final: seq<Transaction>) {
    exists order, sorted :: GatheredBy(verify, txs, nonces, balances, final, order, sorted)
  }

  lemma MembersOfPartition(txs: seq<Transaction>, list: seq<Transaction>, s: Address)
    requires multiset(list) == multiset(OfSender(txs, s))
    ensures forall t | t in list :: t.from == s && t in txs
  {
    forall t | t in list ensures t.from == s && t in txs {
      assert t in multiset(list);
    }
  }

  lemma {:induction false} GatherPerSender(verify: Verifier, txs: seq<Transaction>, order: seq<Address>,
      sorted: map<Address, seq<Transaction>>, nonces: Table, balances: Table, s: Address)
    requires forall r | r in sorted :: SortedPartition(txs, r, sorted[r])
    requires forall i, j | 0 <= i < j < |order| :: order[i] != order[j]
    requires forall i | 0 <= i < |order| :: order[i] in sorted
    ensures OfSender(Gather(verify, order, sorted, nonces, balances), s)
         == if s in order then Accept(verify, sorted[s], At(nonces, s), At(balances, s)) else []
  {
    if order != [] {
      GatherPerSender(verify, txs, order[1..], sorted, nonces, balances, s);
      GatherStep(verify, txs, order, sorted, nonces, balances, s);
      FirstIsNotAgain(order, s);
    }
  }

  lemma GatherStep(verify: Verifier, txs: seq<Transaction>, order: seq<Address>,
      sorted: map<Address, seq<Transaction>>, nonces: Table, balances: Table, s: Address)
    requires order != [] && forall i | 0 <= i < |order| :: order[i] in sorted
    requires SortedPartition(txs, order[0], sorted[order[0]])
    ensures OfSender(Gather(verify, order, sorted, nonces, balances), s)
      == (if s == order[0] then Accept(verify, sorted[s], At(nonces, s), At(balances, s)) else [])
         + OfSender(Gather(verify, order[1..], sorted, nonces, balances), s)
  {
    var r := order[0];
    OfSenderConcat(Accept(verify, sorted[r], At(nonces, r), At(balances, r)),
      Gather(verify, order[1..], sorted, nonces, balances), s);
    AcceptedOfSender(verify, txs, sorted[r], r, At(nonces, r), At(balances, r), s);
  }

  lemma FirstIsNotAgain(order: seq<Address>, s: Address)
    requires order != [] && forall i, j | 0 <= i < j < |order| :: order[i] != order[j]
    ensures order[0] !in order[1..] && (s in order <==> s == order[0] || s in order[1..])
  {
    assert order == [order[0]] + order[1..];
  }

  /** What a worker accepts is its own sender's. */
  lemma AcceptedOfSender(verify: Verifier, txs: seq<Transaction>, list: seq<Transaction>, r: Address, nonce: int,
      balance: int, s: Address)
    requires SortedPartition(txs, r, list)
    ensures var accepted := Accept(verify, list, nonce, balance);
      OfSender(accepted, s) == if s == r then accepted else []
  {
    MembersOfPartition(txs, list, r);
    AcceptIsLongestAffordablePrefix(verify, list, nonce, balance);
    OfSenderAll(Accept(verify, list, nonce, balance), r);
  }

  /** Whatever the schedule, each sender ends with its own accepted list. */
  lemma OutcomePerSender(verify: Verifier, txs: seq<Transaction>, nonces: Table, balances: Table,
      final: seq<Transaction>, order: seq<Address>, sorted: map<Address, seq<Transaction>>, s: Address)
    requires GatheredBy(verify, txs, nonces, balances, final, order, sorted)
    ensures OfSender(final, s)
         == if s in sorted then Accept(verify, sorted[s], At(nonces, s), At(balances, s)) else []
  {
    GatherPerSender(verify, txs, order, sorted, nonces, balances, s);
  }

  lemma OutcomeSelfFinanced(verify: Verifier, txs: seq<Transaction>, nonces: Table, balances: Table,
      final: seq<Transaction>)
    requires IsOutcome(verify, txs, nonces, balances, final)
    ensures SelfFinanced(verify, final, nonces, balances)
  {
    var order: seq<Address>, sorted: map<Address, seq<Transaction>> :|
      GatheredBy(verify, txs, nonces, balances, final, order, sorted);
    forall s: Address ensures PaysItsWay(verify, final, nonces, balances, s) {
      OutcomePerSender(verify, txs, nonces, balances, final, order, sorted, s);
      if s in sorted {
        AcceptIsLongestAffordablePrefix(verify, sorted[s], At(nonces, s), At(balances, s));
      }
    }
  }

  lemma OutcomeMembers(verify: Verifier, txs: seq<Transaction>, nonces: Table, balances: Table, final: seq<Transaction>)
    requires IsOutcome(verify, txs, nonces, balances, final)
    ensures forall t | t in final :: t in txs && verify(t)
  {
    var order: seq<Address>, sorted: map<Address, seq<Transaction>> :|
      GatheredBy(verify, txs, nonces, balances, final, order, sorted);
    forall t | t in final ensures t in txs && verify(t) {
      var s := t.from;
      OfSenderKeepsCounts(final, t);
      assert t in multiset(OfSender(final, s));
      OutcomePerSender(verify, txs, nonces, balances, final, order, sorted, s);
      AcceptIsLongestAffordablePrefix(verify, sorted[s], At(nonces, s), At(balances, s));
      AffordableNonces(verify, OfSender(final, s), At(nonces, s), At(balances, s));
      MembersOfPartition(txs, sorted[s], s);
    }
  }

  /** Parallel refines sequential: every outcome of the parallel executor, with
      whatever credits landed between snapshot and commit, is an execution one
      transaction at a time in which every check passes at its turn, reaches the
      committed state, and keeps every balance non-negative. */
  lemma ParallelRefinesSequential(verify: Verifier, txs: seq<Transaction>, snapshot: Book, current: Book,
      final: seq<Transaction>)
    requires IsOutcome(verify, txs, snapshot.nonces, snapshot.balances, final)
    requires current.nonces == snapshot.nonces && AtMost(snapshot.balances, current.balances)
    requires NonNegativeAmounts(txs)
    ensures ExecuteAll(verify, current, final) == Some(CommitAll(current, final))
    ensures Solvent(current.balances) ==> SolventThroughout(current, final)
  {
    OutcomeSelfFinanced(verify, txs, snapshot.nonces, snapshot.balances, final);
    OutcomeMembers(verify, txs, snapshot.nonces, snapshot.balances, final);
    SelfFinancedExecutes(verify, current, snapshot.balances, final);
  }

  // ----- consequences for nonces

  lemma NoRunAhead(verify: Verifier, list: seq<Transaction>, nonce: int, balance: int)
    requires Affordable(verify, list, nonce, balance)
    requires forall i | 0 <= i < |list| :: list[i].nonce <= nonce + 1
    ensures |list| <= 1
  {
    AffordableNonces(verify, list, nonce, balance);
  }

  /** If no transaction runs ahead of its sender's next nonce, a batch takes at most one per sender. */
  lemma AtMostOnePerSender(verify: Verifier, txs: seq<Transaction>, nonces: Table, balances: Table,
      final: seq<Transaction>, s: Address)
    requires IsOutcome(verify, txs, nonces, balances, final)
    requires forall t | t in txs :: t.nonce <= At(nonces, t.from) + 1
    ensures |OfSender(final, s)| <= 1
  {
    OutcomeSelfFinanced(verify, txs, nonces, balances, final);
    assert PaysItsWay(verify, final, nonces, balances, s);
    OutcomeMembers(verify, txs, nonces, balances, final);
    NoRunAhead(verify, OfSender(final, s), At(nonces, s), At(balances, s));
  }

  /** A transaction with a spent nonce blocks its sender's whole list. */
  lemma SpentNonceBlocks(verify: Verifier, txs: seq<Transaction>, nonces: Table, balances: Table,
      final: seq<Transaction>, t: Transaction)
    requires IsOutcome(verify, txs, nonces, balances, final)
    requires t in txs && t.nonce <= At(nonces, t.from)
    ensures OfSender(final, t.from) == []
  {
    var order: seq<Address>, sorted: map<Address, seq<Transaction>> :|
      GatheredBy(verify, txs, nonces, balances, final, order, sorted);
    OutcomePerSender(verify, txs, nonces, balances, final, order, sorted, t.from);
    OfSenderKeepsCounts(txs, t);
    FirstIsLeast(sorted[t.from], t);
  }

  lemma FirstIsLeast(list: seq<Transaction>, t: Transaction)
    requires SortedByNonce(list) && t in multiset(list)
    ensures list != [] && list[0].nonce <= t.nonce
  {
    var i :| 0 <= i < |list| && list[i] == t;
  }

  /** What a batch takes of a sender is what the worker accepts of the sorted list. */
  lemma ServedIffFirstPasses(verify: Verifier, txs: seq<Transaction>, nonces: Table, balances: Table,
      final: seq<Transaction>, s: Address)
    requires IsOutcome(verify, txs, nonces, balances, final)
    requires forall t | t in txs && t.from == s ::
      t.nonce == At(nonces, s) + 1 && verify(t) && t.Cost() <= At(balances, s)
    ensures OfSender(final, s) != [] <==> s in Senders(txs)
  {
    var order: seq<Address>, sorted: map<Address, seq<Transaction>> :|
      GatheredBy(verify, txs, nonces, balances, final, order, sorted);
    OutcomePerSender(verify, txs, nonces, balances, final, order, sorted, s);
    if s in sorted {
      MembersOfPartition(txs, sorted[s], s);
      NonEmptyPartition(txs, sorted[s], s);
      assert sorted[s][0] in sorted[s];
    }
  }

  /** When a sender's next transactions would all pass, a batch serves the sender exactly
      when there is such a transaction and none with a spent nonce in front of it. */
  lemma BatchServesSenderIff(verify: Verifier, txs: seq<Transaction>, nonces: Table, balances: Table,
      final: seq<Transaction>, s: Address)
    requires IsOutcome(verify, txs, nonces, balances, final)
    requires forall t | t in txs && t.from == s :: t.nonce <= At(nonces, s) + 1
    requires forall t | t in txs && t.from == s && t.nonce == At(nonces, s) + 1 ::
      verify(t) && t.Cost() <= At(balances, s)
    ensures OfSender(final, s) != [] <==>
      s in Senders(txs) && (forall t | t in txs && t.from == s :: t.nonce == At(nonces, s) + 1)
  {
    if t :| t in txs && t.from == s && t.nonce <= At(nonces, s) {
      SpentNonceBlocks(verify, txs, nonces, balances, final, t);
    } else {
      ServedIffFirstPasses(verify, txs, nonces, balances, final, s);
    }
  }

  /** Nobody running ahead, and all of a sender's transactions ready: exactly one is served. */
  lemma ServedExactlyOnce(verify: Verifier, txs: seq<Transaction>, nonces: Table, balances: Table,
      final: seq<Transaction>, s: Address)
    returns (t: Transaction)
    requires IsOutcome(verify, txs, nonces, balances, final) && s in Senders(txs)
    requires forall u | u in txs :: u.nonce <= At(nonces, u.from) + 1
    requires forall u | u in txs && u.from == s ::
      u.nonce == At(nonces, s) + 1 && verify(u) && u.Cost() <= At(balances, s)
    ensures OfSender(final, s) == [t] && t.nonce == At(nonces, s) + 1
  {
    AtMostOnePerSender(verify, txs, nonces, balances, final, s);
    ServedIffFirstPasses(verify, txs, nonces, balances, final, s);
    t := FirstServed(verify, txs, nonces, balances, final, s);
    Singleton(OfSender(final, s));
  }

  lemma Singleton(list: seq<Transaction>)
    requires |list| == 1
    ensures list == [list[0]]
  {
  }

  lemma FirstServed(verify: Verifier, txs: seq<Transaction>, nonces: Table, balances: Table, final: seq<Transaction>,
      s: Address)
    returns (t: Transaction)
    requires IsOutcome(verify, txs, nonces, balances, final) && OfSender(final, s) != []
    ensures OfSender(final, s)[0] == t && t.nonce == At(nonces, s) + 1
  {
    t := OfSender(final, s)[0];
    OutcomeSelfFinanced(verify, txs, nonces, balances, final);
    assert PaysItsWay(verify, final, nonces, balances, s);
    AffordableNonces(verify, OfSender(final, s), At(nonces, s), At(balances, s));
  }

  lemma NonEmptyPartition(txs: seq<Transaction>, list: seq<Transaction>, s: Address)
    requires s in Senders(txs) && multiset(list) == multiset(OfSender(txs, s))
    ensures list != []
  {
    var i :| 0 <= i < |txs| && txs[i].from == s;
    OfSenderKeepsCounts(txs, txs[i]);
    assert txs[i] in multiset(list);
  }

  // ----- there is always an outcome

  function Insert(t: Transaction, list: seq<Transaction>): seq<Transaction> {
    if list == [] || t.nonce <= list[0].nonce then [t] + list else [list[0]] + Insert(t, list[1..])
  }

  function Sort(list: seq<Transaction>): seq<Transaction> {
    if list == [] then [] else Insert(list[0], Sort(list[1..]))
  }

  lemma {:induction false} InsertKeepsMembers(t: Transaction, list: seq<Transaction>)
    ensures multiset(Insert(t, list)) == multiset(list) + multiset{t}
  {
    if list != [] {
      HeadMultiset(list);
      if list[0].nonce < t.nonce {
        InsertKeepsMembers(t, list[1..]);
      }
    }
  }

  lemma {:induction false} InsertSorts(t: Transaction, list: seq<Transaction>)
    requires SortedByNonce(list)
    ensures SortedByNonce(Insert(t, list))
    ensures Insert(t, list)[0] == if list == [] || t.nonce <= list[0].nonce then t else list[0]
  {
    if list != [] && list[0].nonce < t.nonce {
      InsertSorts(t, list[1..]);
      var r := Insert(t, list[1..]);
      assert |list| > 1 ==> list[0].nonce <= list[1].nonce;
      assert forall i | 0 <= i < |r| :: r[0].nonce <= r[i].nonce;
    }
  }

  lemma {:induction false} SortSorts(list: seq<Transaction>)
    ensures SortedByNonce(Sort(list)) && multiset(Sort(list)) == multiset(list)
  {
    if list != [] {
      SortSorts(list[1..]);
      InsertSorts(list[0], Sort(list[1..]));
      InsertKeepsMembers(list[0], Sort(list[1..]));
      HeadMultiset(list);
    }
  }

  lemma {:induction false} ArrangementExists(senders: set<Address>) returns (order: seq<Address>)
    ensures Arranges(order, senders)
  {
    if senders == {} {
      order := [];
    } else {
      var s :| s in senders;
      var rest := ArrangementExists(senders - {s});
      order := [s] + rest;
    }
  }

  /** For any sorting of the partitions there is an outcome. */
  lemma OutcomeOfSorting(verify: Verifier, txs: seq<Transaction>, nonces: Table, balances: Table,
      sorted: map<Address, seq<Transaction>>)
    returns (final: seq<Transaction>, order: seq<Address>)
    requires SortedPartitions(txs, sorted)
    ensures GatheredBy(verify, txs, nonces, balances, final, order, sorted)
    ensures IsOutcome(verify, txs, nonces, balances, final)
  {
    order := ArrangementExists(Senders(txs));
    assert forall i | 0 <= i < |order| :: order[i] in order;
    final := Gather(verify, order, sorted, nonces, balances);
    assert GatheredBy(verify, txs, nonces, balances, final, order, sorted);
  }

  /** The partitions sorted, with a given sorting for one sender. */
  lemma SortingWith(txs: seq<Transaction>, a: Address, list: seq<Transaction>)
    returns (sorted: map<Address, seq<Transaction>>)
    requires SortedPartition(txs, a, list) && a in Senders(txs)
    ensures SortedPartitions(txs, sorted) && sorted[a] == list
  {
    sorted := map s | s in Senders(txs) :: if s == a then list else Sort(OfSender(txs, s));
    forall s | s in sorted ensures SortedPartition(txs, s, sorted[s]) {
      SortSorts(OfSender(txs, s));
    }
  }

  /** Every snapshot has an outcome. */
  lemma OutcomeExists(verify: Verifier, txs: seq<Transaction>, nonces: Table, balances: Table)
    returns (final: seq<Transaction>)
    ensures IsOutcome(verify, txs, nonces, balances, final)
  {
    var sorted := map s | s in Senders(txs) :: Sort(OfSender(txs, s));
    forall s | s in sorted ensures SortedPartition(txs, s, sorted[s]) {
      SortSorts(OfSender(txs, s));
    }
    var order;
    final, order := OutcomeOfSorting(verify, txs, nonces, balances, sorted);
  }

  /** A lone transaction that could be executed now is the whole outcome. */
  lemma SoleOutcome(verify: Verifier, book: Book, x: Transaction)
    requires Executable(verify, book, x)
    ensures IsOutcome(verify, [x], book.nonces, book.balances, [x])
  {
    var final := OutcomeExists(verify, [x], book.nonces, book.balances);
    assert [x][0].from in Senders([x]);
    var t := ServedExactlyOnce(verify, [x], book.nonces, book.balances, final, x.from);
    OutcomeMembers(verify, [x], book.nonces, book.balances, final);
    OfSenderAll(final, x.from);
    assert t in final;
  }

  /** Whoever is served has nothing spent in the snapshot, and a transaction that passes. */
  lemma ServedOnlyIf(verify: Verifier, txs: seq<Transaction>, nonces: Table, balances: Table,
      final: seq<Transaction>, s: Address)
    returns (u: Transaction)
    requires IsOutcome(verify, txs, nonces, balances, final) && OfSender(final, s) != []
    ensures forall w | w in txs && w.from == s :: w.nonce > At(nonces, s)
    ensures u in txs && u.from == s && Executable(verify, Book(balances, nonces), u)
  {
    var order: seq<Address>, sorted: map<Address, seq<Transaction>> :|
      GatheredBy(verify, txs, nonces, balances, final, order, sorted);
    OutcomePerSender(verify, txs, nonces, balances, final, order, sorted, s);
    u := sorted[s][0];
    MembersOfPartition(txs, sorted[s], s);
    forall w | w in txs && w.from == s ensures w.nonce > At(nonces, s) {
      if w.nonce <= At(nonces, s) {
        SpentNonceBlocks(verify, txs, nonces, balances, final, w);
      }
    }
  }

  /** A list with one element moved to the front. */
  lemma BringToFront(list: seq<Transaction>, u: Transaction) returns (r: seq<Transaction>)
    requires u in list
    ensures r != [] && r[0] == u && multiset(r) == multiset(list)
  {
    var i :| 0 <= i < |list| && list[i] == u;
    r := [u] + (list[..i] + list[i + 1..]);
    assert list == list[..i] + ([u] + list[i + 1..]);
  }

  lemma EqualNoncesAreSorted(list: seq<Transaction>, r: seq<Transaction>, nonce: int)
    requires multiset(r) == multiset(list) && forall t | t in list :: t.nonce == nonce
    ensures SortedByNonce(r)
  {
    forall i | 0 <= i < |r| ensures r[i].nonce == nonce {
      assert r[i] in multiset(r);
    }
  }

  lemma SortingInFront(txs: seq<Transaction>, u: Transaction) returns (front: seq<Transaction>)
    requires u in txs && forall w | w in txs && w.from == u.from :: w.nonce == u.nonce
    ensures SortedPartition(txs, u.from, front) && front != [] && front[0] == u
  {
    OfSenderKeepsCounts(txs, u);
    assert u in multiset(OfSender(txs, u.from));
    front := BringToFront(OfSender(txs, u.from), u);
    EqualNoncesAreSorted(OfSender(txs, u.from), front, u.nonce);
  }

  /** Equal nonces come in any order: a sender with nothing but its next nonce in the
      snapshot can be served with any transaction that passes. */
  lemma OutcomeServing(verify: Verifier, txs: seq<Transaction>, nonces: Table, balances: Table, u: Transaction)
    returns (final: seq<Transaction>)
    requires u in txs && Executable(verify, Book(balances, nonces), u)
    requires forall w | w in txs && w.from == u.from :: w.nonce == u.nonce
    ensures IsOutcome(verify, txs, nonces, balances, final) && OfSender(final, u.from) != []
  {
    var i :| 0 <= i < |txs| && txs[i] == u;
    var front := SortingInFront(txs, u);
    var sorted := SortingWith(txs, u.from, front);
    var order;
    final, order := OutcomeOfSorting(verify, txs, nonces, balances, sorted);
    OutcomePerSender(verify, txs, nonces, balances, final, order, sorted, u.from);
  }

  // ----- confluence

  /** What a batch adds to one account. */
  function Delta(txs: seq<Transaction>, a: Address): int {
    if txs == [] then 0
    else
      (if txs[0].from == a then -txs[0].Cost() else 0)
      + (if txs[0].to == a then txs[0].amount else 0)
      + Delta(txs[1..], a)
  }

  lemma {:induction false} DeltaConcat(x: seq<Transaction>, y: seq<Transaction>, a: Address)
    ensures Delta(x + y, a) == Delta(x, a) + Delta(y, a)
  {
    if x == [] {
      assert x + y == y;
    } else {
      assert (x + y)[1..] == x[1..] + y;
      DeltaConcat(x[1..], y, a);
    }
  }

  /** Taking out one occurrence. */
  function Without(y: seq<Transaction>, i: nat): seq<Transaction>
    requires i < |y|
  {
    y[..i] + y[i + 1..]
  }

  lemma WithoutOne(y: seq<Transaction>, i: nat, a: Address)
    requires i < |y|
    ensures multiset(y) == multiset(Without(y, i)) + multiset{y[i]}
    ensures Delta(y, a) == Delta(Without(y, i), a) + Delta([y[i]], a)
  {
    var front, back := y[..i], y[i + 1..];
    assert y == front + ([y[i]] + back);
    DeltaConcat(front, [y[i]] + back, a);
    DeltaConcat([y[i]], back, a);
    DeltaConcat(front, back, a);
  }

  lemma {:induction false} DeltaIgnoresOrder(x: seq<Transaction>, y: seq<Transaction>, a: Address)
    requires multiset(x) == multiset(y)
    ensures Delta(x, a) == Delta(y, a)
    decreases |x|
  {
    if x == [] {
      assert |multiset(y)| == 0;
    } else {
      assert x[0] in multiset(y);
      var i :| 0 <= i < |y| && y[i] == x[0];
      WithoutOne(x, 0, a);
      WithoutOne(y, i, a);
      assert multiset(Without(x, 0)) == multiset(x) - multiset{x[0]} == multiset(Without(y, i));
      DeltaIgnoresOrder(Without(x, 0), Without(y, i), a);
    }
  }

  ghost function Payers(txs: seq<Transaction>): set<Address> {
    set t | t in txs :: t.from
  }

  ghost function Parties(txs: seq<Transaction>): set<Address> {
    Payers(txs) + (set t | t in txs :: t.to)
  }

  lemma {:induction false} CommitAllBalances(book: Book, txs: seq<Transaction>, a: Address)
    ensures At(CommitAll(book, txs).balances, a) == At(book.balances, a) + Delta(txs, a)
    decreases |txs|
  {
    if txs != [] {
      CommitAllBalances(Commit(book, txs[0]), txs[1..], a);
    }
  }

  lemma PartiesOfHeadAndTail(txs: seq<Transaction>)
    requires txs != []
    ensures Payers(txs) == {txs[0].from} + Payers(txs[1..])
    ensures Parties(txs) == {txs[0].from, txs[0].to} + Parties(txs[1..])
  {
    assert forall t :: t in txs <==> t == txs[0] || t in txs[1..];
  }

  lemma {:induction false} CommitAllKeys(book: Book, txs: seq<Transaction>)
    ensures CommitAll(book, txs).balances.Keys == book.balances.Keys + Parties(txs)
    ensures CommitAll(book, txs).nonces.Keys == book.nonces.Keys + Payers(txs)
    decreases |txs|
  {
    if txs != [] {
      PartiesOfHeadAndTail(txs);
      CommitAllKeys(Commit(book, txs[0]), txs[1..]);
    }
  }

  lemma SameTable(m: Table, n: Table)
    requires m.Keys == n.Keys && forall a: Address :: At(m, a) == At(n, a)
    ensures m == n
  {
    forall a | a in m ensures m[a] == n[a] {
      assert At(m, a) == At(n, a);
    }
  }

  lemma SameMembers(x: seq<Transaction>, y: seq<Transaction>)
    requires multiset(x) == multiset(y)
    ensures forall t :: t in x <==> t in y
  {
    forall t ensures t in x <==> t in y {
      assert t in x <==> t in multiset(x);
      assert t in y <==> t in multiset(y);
    }
  }

  lemma SameMembersSameParties(x: seq<Transaction>, y: seq<Transaction>)
    requires forall t :: t in x <==> t in y
    ensures Parties(x) == Parties(y) && Payers(x) == Payers(y)
  {
  }

  lemma SameMultisetSameKeys(book: Book, x: seq<Transaction>, y: seq<Transaction>)
    requires multiset(x) == multiset(y)
    ensures CommitAll(book, x).balances.Keys == CommitAll(book, y).balances.Keys
    ensures CommitAll(book, x).nonces.Keys == CommitAll(book, y).nonces.Keys
  {
    SameMembers(x, y);
    SameMembersSameParties(x, y);
    CommitAllKeys(book, x);
    CommitAllKeys(book, y);
  }

  lemma SameMultisetSameBalances(book: Book, x: seq<Transaction>, y: seq<Transaction>)
    requires multiset(x) == multiset(y)
    ensures CommitAll(book, x).balances == CommitAll(book, y).balances
  {
    SameMultisetSameKeys(book, x, y);
    forall a: Address ensures At(CommitAll(book, x).balances, a) == At(CommitAll(book, y).balances, a) {
      DeltaIgnoresOrder(x, y, a);
      CommitAllBalances(book, x, a);
      CommitAllBalances(book, y, a);
    }
    SameTable(CommitAll(book, x).balances, CommitAll(book, y).balances);
  }

  lemma SameLastSameNonce(book: Book, x: seq<Transaction>, y: seq<Transaction>, s: Address)
    requires OfSender(x, s) == OfSender(y, s)
    ensures At(CommitAll(book, x).nonces, s) == At(CommitAll(book, y).nonces, s)
  {
    CommitAllNonces(book, x, s);
    CommitAllNonces(book, y, s);
  }

  lemma SamePerSenderSameNonces(book: Book, x: seq<Transaction>, y: seq<Transaction>)
    requires forall s: Address :: OfSender(x, s) == OfSender(y, s)
    ensures CommitAll(book, x).nonces == CommitAll(book, y).nonces
  {
    SamePerSenderSameMultiset(x, y);
    SameMultisetSameKeys(book, x, y);
    forall s: Address ensures At(CommitAll(book, x).nonces, s) == At(CommitAll(book, y).nonces, s) {
      SameLastSameNonce(book, x, y, s);
    }
    SameTable(CommitAll(book, x).nonces, CommitAll(book, y).nonces);
  }

  /** The order in which senders are committed does not matter. */
  lemma CommitIgnoresSenderOrder(book: Book, x: seq<Transaction>, y: seq<Transaction>)
    requires forall s: Address :: OfSender(x, s) == OfSender(y, s)
    ensures CommitAll(book, x) == CommitAll(book, y)
  {
    SamePerSenderSameMultiset(x, y);
    SameMultisetSameBalances(book, x, y);
    SamePerSenderSameNonces(book, x, y);
  }

  /** For fixed sorted partitions the schedule is invisible: every sender's accepted
      list and the committed state are the same in every arrival order. */
  lemma ScheduleInvisible(verify: Verifier, txs: seq<Transaction>, snapshot: Book, current: Book,
      sorted: map<Address, seq<Transaction>>, x: seq<Transaction>, orderX: seq<Address>, y: seq<Transaction>,
      orderY: seq<Address>)
    requires GatheredBy(verify, txs, snapshot.nonces, snapshot.balances, x, orderX, sorted)
    requires GatheredBy(verify, txs, snapshot.nonces, snapshot.balances, y, orderY, sorted)
    ensures forall s: Address :: OfSender(x, s) == OfSender(y, s)
    ensures CommitAll(current, x) == CommitAll(current, y)
  {
    forall s: Address ensures OfSender(x, s) == OfSender(y, s) {
      OutcomePerSender(verify, txs, snapshot.nonces, snapshot.balances, x, orderX, sorted, s);
      OutcomePerSender(verify, txs, snapshot.nonces, snapshot.balances, y, orderY, sorted, s);
    }
    CommitIgnoresSenderOrder(current, x, y);
  }

  /** Sender and nonce identify a transaction of the list. */
  ghost predicate OnePerSenderNonce(txs: seq<Transaction>) {
    forall a, b | a in txs && b in txs && a.from == b.from && a.nonce == b.nonce :: a == b
  }

  lemma TailMultiset(x: seq<Transaction>)
    requires x != []
    ensures multiset(x[1..]) == multiset(x) - multiset{x[0]}
  {
    HeadMultiset(x);
  }

  lemma SameFirst(x: seq<Transaction>, y: seq<Transaction>)
    requires x != [] && y != [] && SortedByNonce(x) && SortedByNonce(y) && multiset(x) == multiset(y)
    requires forall a, b | a in x && b in x && a.nonce == b.nonce :: a == b
    ensures x[0] == y[0]
  {
    assert x[0] in multiset(y) && y[0] in multiset(x);
    var i :| 0 <= i < |y| && y[i] == x[0];
    var j :| 0 <= j < |x| && x[j] == y[0];
    assert x[0].nonce <= x[j].nonce && y[0].nonce <= y[i].nonce;
  }

  lemma {:induction false} SortingIsUnique(x: seq<Transaction>, y: seq<Transaction>)
    requires SortedByNonce(x) && SortedByNonce(y) && multiset(x) == multiset(y)
    requires forall a, b | a in x && b in x && a.nonce == b.nonce :: a == b
    ensures x == y
    decreases |x|
  {
    assert |x| == |multiset(x)| == |multiset(y)| == |y|;
    if x != [] {
      SameFirst(x, y);
      TailMultiset(x);
      TailMultiset(y);
      SortingIsUnique(x[1..], y[1..]);
    }
  }

  lemma SamePartition(txs: seq<Transaction>, x: seq<Transaction>, y: seq<Transaction>, s: Address)
    requires OnePerSenderNonce(txs) && SortedPartition(txs, s, x) && SortedPartition(txs, s, y)
    ensures x == y
  {
    MembersOfPartition(txs, x, s);
    SortingIsUnique(x, y);
  }

  lemma SamePartitions(txs: seq<Transaction>, x: map<Address, seq<Transaction>>, y: map<Address, seq<Transaction>>)
    requires OnePerSenderNonce(txs) && SortedPartitions(txs, x) && SortedPartitions(txs, y)
    ensures x == y
  {
    forall s | s in x ensures x[s] == y[s] {
      SamePartition(txs, x[s], y[s], s);
    }
  }

  /** When sender and nonce identify a transaction, neither map order, sort order
      nor schedule is visible: all outcomes agree. */
  lemma OutcomesAgree(verify: Verifier, txs: seq<Transaction>, snapshot: Book, current: Book, x: seq<Transaction>,
      y: seq<Transaction>)
    requires OnePerSenderNonce(txs)
    requires IsOutcome(verify, txs, snapshot.nonces, snapshot.balances, x)
    requires IsOutcome(verify, txs, snapshot.nonces, snapshot.balances, y)
    ensures forall s: Address :: OfSender(x, s) == OfSender(y, s)
    ensures CommitAll(current, x) == CommitAll(current, y)
  {
    var orderX: seq<Address>, sortedX: map<Address, seq<Transaction>> :|
      GatheredBy(verify, txs, snapshot.nonces, snapshot.balances, x, orderX, sortedX);
    var orderY: seq<Address>, sortedY: map<Address, seq<Transaction>> :|
      GatheredBy(verify, txs, snapshot.nonces, snapshot.balances, y, orderY, sortedY);
    SamePartitions(txs, sortedX, sortedY);
    ScheduleInvisible(verify, txs, snapshot, current, sortedX, x, orderX, y, orderY);
  }
}
