/** The executor's worker pool as a transition system: workers drain a closed job
    channel, send their results on a second channel, and a collector gathers
    them. Every interleaving of the goroutines is a sequence of steps. */
module WorkerPool {
  import opened Accounts
  import opened Transactions
  import opened Batch

  datatype Job = Job(sender: Address, txs: seq<Transaction>)

  datatype Result = Result(job: Job, accepted: seq<Transaction>)

  datatype Worker = Idle | Busy(job: Job) | Exited

  /** `jobs` is the closed job channel, `out` the result channel; `received` lists
      the results in the order the collector took them. */
  datatype Pool = Pool(jobs: seq<Job>, workers: seq<Worker>, out: seq<Result>, received: seq<Result>,
                       final: seq<Transaction>, outClosed: bool)

  datatype Step = Take(w: nat) | Send(w: nat) | Quit(w: nat) | Receive | Close

  /** The snapshot that all workers share. */
  datatype Snapshot = Snapshot(verify: Verifier, nonces: Table, balances: Table)

  function Work(snap: Snapshot, job: Job): Result {
    Result(job, Accept(snap.verify, job.txs, At(snap.nonces, job.sender), At(snap.balances, job.sender)))
  }

  predicate Start(jobs: seq<Job>, p: Pool) {
    && p.jobs == jobs && p.workers != [] && (forall i | 0 <= i < |p.workers| :: p.workers[i].Idle?)
    && p.out == [] && p.received == [] && p.final == [] && !p.outClosed
  }

  /** Both channels have room for `n` elements, one per partition. A send needs room;
      nothing here forbids a send on the closed channel, which would be a panic. */
  predicate Enabled(n: nat, p: Pool, step: Step) {
    match step
    case Take(w) => w < |p.workers| && p.workers[w].Idle? && p.jobs != []
    case Send(w) => w < |p.workers| && p.workers[w].Busy? && |p.out| < n
    case Quit(w) => w < |p.workers| && p.workers[w].Idle? && p.jobs == []
    case Receive => p.out != [] && |p.received| < n
    case Close => |p.received| == n && !p.outClosed
  }

  function Apply(snap: Snapshot, n: nat, p: Pool, step: Step): Pool
    requires Enabled(n, p, step)
  {
    match step
    case Take(w) => p.(jobs := p.jobs[1..], workers := p.workers[w := Busy(p.jobs[0])])
    case Send(w) => p.(workers := p.workers[w := Idle], out := p.out + [Work(snap, p.workers[w].job)])
    case Quit(w) => p.(workers := p.workers[w := Exited])
    case Receive => p.(out := p.out[1..], received := p.received + [p.out[0]], final := p.final + p.out[0].accepted)
    case Close => p.(outClosed := true)
  }

  ghost predicate Reaches(snap: Snapshot, n: nat, p: Pool, steps: seq<Step>, q: Pool)
    decreases |steps|
  {
    if steps == [] then p == q
    else Enabled(n, p, steps[0]) && Reaches(snap, n, Apply(snap, n, p, steps[0]), steps[1..], q)
  }

  // ----- where the jobs are

  function JobsOf(results: seq<Result>): seq<Job> {
    seq(|results|, i requires 0 <= i < |results| => results[i].job)
  }

  /** Adds up a measure over all workers. */
  function Tally(workers: seq<Worker>, f: Worker -> nat): nat {
    if workers == [] then 0 else f(workers[0]) + Tally(workers[1..], f)
  }

  lemma {:induction false} TallyAfter(workers: seq<Worker>, i: nat, w: Worker, f: Worker -> nat)
    requires i < |workers|
    ensures f(workers[i]) <= Tally(workers, f)
    ensures Tally(workers[i := w], f) == Tally(workers, f) - f(workers[i]) + f(w)
  {
    if i == 0 {
      assert workers[i := w][1..] == workers[1..];
    } else {
      TallyAfter(workers[1..], i - 1, w, f);
      assert workers[i := w][1..] == workers[1..][i - 1 := w];
    }
  }

  lemma {:induction false} TallyZero(workers: seq<Worker>, f: Worker -> nat)
    requires forall i | 0 <= i < |workers| :: f(workers[i]) == 0
    ensures Tally(workers, f) == 0
  {
    if workers != [] {
      TallyZero(workers[1..], f);
    }
  }

  const BUSY: Worker -> nat := (w: Worker) => if w.Busy? then 1 else 0
  const ACTIVE: Worker -> nat := (w: Worker) => if w.Exited? then 0 else 1

  function Holding(job: Job): Worker -> nat {
    (w: Worker) => if w == Busy(job) then 1 else 0
  }

  /** How often a job occurs anywhere in the pool. */
  ghost function Copies(p: Pool, job: Job): nat {
    multiset(p.jobs)[job] + Tally(p.workers, Holding(job)) + multiset(JobsOf(p.out))[job]
      + multiset(JobsOf(p.received))[job]
  }

  ghost function Size(p: Pool): nat {
    |p.jobs| + Tally(p.workers, BUSY) + |p.out| + |p.received|
  }

  function Flatten(results: seq<Result>): seq<Transaction> {
    if results == [] then [] else Flatten(results[..|results| - 1]) + results[|results| - 1].accepted
  }

  ghost predicate Inv(snap: Snapshot, jobs: seq<Job>, p: Pool) {
    && (forall job :: Copies(p, job) == multiset(jobs)[job])
    && Size(p) == |jobs|
    && (forall i | 0 <= i < |p.out| :: p.out[i] == Work(snap, p.out[i].job))
    && (forall i | 0 <= i < |p.received| :: p.received[i] == Work(snap, p.received[i].job))
    && p.final == Flatten(p.received)
    && p.workers != []
    && ((exists i :: 0 <= i < |p.workers| && p.workers[i].Exited?) ==> p.jobs == [])
    && (p.outClosed ==> |p.received| == |jobs|)
  }

  lemma StartHasInv(snap: Snapshot, jobs: seq<Job>, p: Pool)
    requires Start(jobs, p)
    ensures Inv(snap, jobs, p)
  {
    TallyZero(p.workers, BUSY);
    forall job ensures Copies(p, job) == multiset(jobs)[job] {
      TallyZero(p.workers, Holding(job));
    }
  }

  lemma JobsOfAppend(results: seq<Result>, r: Result, job: Job)
    ensures multiset(JobsOf(results + [r]))[job] == multiset(JobsOf(results))[job] + (if r.job == job then 1 else 0)
  {
    assert JobsOf(results + [r]) == JobsOf(results) + [r.job];
  }

  lemma JobsOfTail(results: seq<Result>, job: Job)
    requires results != []
    ensures multiset(JobsOf(results))[job] == multiset(JobsOf(results[1..]))[job]
      + (if results[0].job == job then 1 else 0)
  {
    assert JobsOf(results) == [results[0].job] + JobsOf(results[1..]);
  }

  /** No step loses or duplicates a job. */
  lemma StepKeepsCopies(snap: Snapshot, n: nat, p: Pool, step: Step, job: Job)
    requires Enabled(n, p, step)
    ensures Copies(Apply(snap, n, p, step), job) == Copies(p, job)
  {
    match step
    case Take(w) =>
      assert p.jobs == [p.jobs[0]] + p.jobs[1..];
      TallyAfter(p.workers, w, Busy(p.jobs[0]), Holding(job));
    case Send(w) =>
      TallyAfter(p.workers, w, Idle, Holding(job));
      JobsOfAppend(p.out, Work(snap, p.workers[w].job), job);
    case Quit(w) =>
      TallyAfter(p.workers, w, Exited, Holding(job));
    case Receive =>
      JobsOfTail(p.out, job);
      JobsOfAppend(p.received, p.out[0], job);
    case Close =>
  }

  lemma StepKeepsSize(snap: Snapshot, n: nat, p: Pool, step: Step)
    requires Enabled(n, p, step)
    ensures Size(Apply(snap, n, p, step)) == Size(p)
  {
    match step
    case Take(w) => TallyAfter(p.workers, w, Busy(p.jobs[0]), BUSY);
    case Send(w) => TallyAfter(p.workers, w, Idle, BUSY);
    case Quit(w) => TallyAfter(p.workers, w, Exited, BUSY);
    case Receive =>
    case Close =>
  }

  /** Every result on its way or received is the work of its job, and the final list is
      what was received. */
  lemma StepKeepsResults(snap: Snapshot, jobs: seq<Job>, p: Pool, step: Step)
    requires Inv(snap, jobs, p) && Enabled(|jobs|, p, step)
    ensures var q := Apply(snap, |jobs|, p, step);
      && (forall i | 0 <= i < |q.out| :: q.out[i] == Work(snap, q.out[i].job))
      && (forall i | 0 <= i < |q.received| :: q.received[i] == Work(snap, q.received[i].job))
      && q.final == Flatten(q.received)
  {
    if step.Receive? {
      assert (p.received + [p.out[0]])[..|p.received|] == p.received;
    }
  }

  lemma StepKeepsClosing(snap: Snapshot, jobs: seq<Job>, p: Pool, step: Step)
    requires Inv(snap, jobs, p) && Enabled(|jobs|, p, step)
    ensures var q := Apply(snap, |jobs|, p, step);
      && q.workers != []
      && ((exists i :: 0 <= i < |q.workers| && q.workers[i].Exited?) ==> q.jobs == [])
      && (q.outClosed ==> |q.received| == |jobs|)
  {
    var q := Apply(snap, |jobs|, p, step);
  }

  lemma StepKeepsInv(snap: Snapshot, jobs: seq<Job>, p: Pool, step: Step)
    requires Inv(snap, jobs, p) && Enabled(|jobs|, p, step)
    ensures Inv(snap, jobs, Apply(snap, |jobs|, p, step))
  {
    StepKeepsSize(snap, |jobs|, p, step);
    StepKeepsResults(snap, jobs, p, step);
    StepKeepsClosing(snap, jobs, p, step);
    forall job ensures Copies(Apply(snap, |jobs|, p, step), job) == multiset(jobs)[job] {
      StepKeepsCopies(snap, |jobs|, p, step, job);
    }
  }

  lemma {:induction false} ReachableHasInv(snap: Snapshot, jobs: seq<Job>, p: Pool, steps: seq<Step>, q: Pool)
    requires Inv(snap, jobs, p) && Reaches(snap, |jobs|, p, steps, q)
    ensures Inv(snap, jobs, q)
    decreases |steps|
  {
    if steps != [] {
      StepKeepsInv(snap, jobs, p, steps[0]);
      ReachableHasInv(snap, jobs, Apply(snap, |jobs|, p, steps[0]), steps[1..], q);
    }
  }

  // ----- safety and progress

  /** No worker is left to send once the result channel is closed, and a worker with
      a result always finds room. */
  lemma SendsAreSafe(snap: Snapshot, jobs: seq<Job>, p: Pool, w: nat)
    requires Inv(snap, jobs, p) && w < |p.workers| && p.workers[w].Busy?
    ensures !p.outClosed && Enabled(|jobs|, p, Send(w))
  {
    TallyAfter(p.workers, w, Idle, BUSY);
  }

  /** The work left: every step does some of it. */
  ghost function Remaining(p: Pool): nat {
    3 * |p.jobs| + 2 * Tally(p.workers, BUSY) + |p.out| + Tally(p.workers, ACTIVE) + (if p.outClosed then 0 else 1)
  }

  lemma StepsTerminate(snap: Snapshot, n: nat, p: Pool, step: Step)
    requires Enabled(n, p, step)
    ensures Remaining(Apply(snap, n, p, step)) < Remaining(p)
  {
    match step
    case Take(w) =>
      TallyAfter(p.workers, w, Busy(p.jobs[0]), BUSY);
      TallyAfter(p.workers, w, Busy(p.jobs[0]), ACTIVE);
    case Send(w) =>
      TallyAfter(p.workers, w, Idle, BUSY);
      TallyAfter(p.workers, w, Idle, ACTIVE);
    case Quit(w) =>
      TallyAfter(p.workers, w, Exited, BUSY);
      TallyAfter(p.workers, w, Exited, ACTIVE);
    case Receive =>
    case Close =>
  }

  /** Nothing deadlocks: a pool that cannot move has closed its result channel, every
      worker has returned, and every result has been collected. */
  lemma StuckMeansDone(snap: Snapshot, jobs: seq<Job>, p: Pool)
    requires Inv(snap, jobs, p)
    requires forall step :: !Enabled(|jobs|, p, step)
    ensures p.outClosed && |p.received| == |jobs|
    ensures forall i | 0 <= i < |p.workers| :: p.workers[i].Exited?
  {
    forall i | 0 <= i < |p.workers| ensures p.workers[i].Exited? {
      assert !Enabled(|jobs|, p, Take(i)) && !Enabled(|jobs|, p, Quit(i));
      if p.workers[i].Busy? {
        SendsAreSafe(snap, jobs, p, i);
      }
    }
    assert p.workers[0].Exited?;
    TallyZero(p.workers, BUSY);
    assert !Enabled(|jobs|, p, Receive) && !Enabled(|jobs|, p, Close);
  }

  // ----- the result

  /** One job per sender, in whatever order the map of partitions is ranged over. */
  function JobsFor(order: seq<Address>, sorted: map<Address, seq<Transaction>>): seq<Job>
    requires forall i | 0 <= i < |order| :: order[i] in sorted
  {
    seq(|order|, i requires 0 <= i < |order| => Job(order[i], sorted[order[i]]))
  }

  function SendersOf(results: seq<Result>): seq<Address> {
    seq(|results|, i requires 0 <= i < |results| => results[i].job.sender)
  }

  lemma {:induction false} FlattenIsGather(snap: Snapshot, results: seq<Result>, sorted: map<Address, seq<Transaction>>)
    requires forall i | 0 <= i < |results| ::
      && results[i] == Work(snap, results[i].job)
      && results[i].job.sender in sorted && results[i].job.txs == sorted[results[i].job.sender]
    ensures Flatten(results) == Gather(snap.verify, SendersOf(results), sorted, snap.nonces, snap.balances)
  {
    if results != [] {
      var init, last := results[..|results| - 1], results[|results| - 1];
      FlattenIsGather(snap, init, sorted);
      assert SendersOf(results) == SendersOf(init) + [last.job.sender];
      GatherAppend(snap, SendersOf(init), last.job.sender, sorted);
    }
  }

  lemma {:induction false} GatherAppend(snap: Snapshot, order: seq<Address>, s: Address,
      sorted: map<Address, seq<Transaction>>)
    requires forall i | 0 <= i < |order| :: order[i] in sorted
    requires s in sorted
    ensures Gather(snap.verify, order + [s], sorted, snap.nonces, snap.balances)
         == Gather(snap.verify, order, sorted, snap.nonces, snap.balances)
            + Accept(snap.verify, sorted[s], At(snap.nonces, s), At(snap.balances, s))
  {
    if order != [] {
      assert (order + [s])[1..] == order[1..] + [s];
      GatherAppend(snap, order[1..], s, sorted);
    }
  }

  /** A permutation of a repetition-free sequence has no repetitions. */
  lemma PermutationIsDistinct(x: seq<Job>, y: seq<Job>)
    requires multiset(x) == multiset(y)
    requires forall i, j | 0 <= i < j < |x| :: x[i].sender != x[j].sender
    ensures forall i, j | 0 <= i < j < |y| :: y[i].sender != y[j].sender
  {
    forall i, j | 0 <= i < j < |y| ensures y[i].sender != y[j].sender {
      assert y[i] in multiset(x) && y[j] in multiset(x);
      if y[i] == y[j] {
        TwiceInMultiset(y, i, j);
        OnceInMultiset(x, y[i]);
      }
    }
  }

  lemma TwiceInMultiset(y: seq<Job>, i: nat, j: nat)
    requires i < j < |y| && y[i] == y[j]
    ensures multiset(y)[y[i]] >= 2
  {
    assert y == y[..j] + y[j..];
    assert y[i] in y[..j] && y[j] in y[j..];
  }

  lemma OnceInMultiset(x: seq<Job>, job: Job)
    requires forall i, j | 0 <= i < j < |x| :: x[i].sender != x[j].sender
    ensures multiset(x)[job] <= 1
  {
    if job in x {
      var i :| 0 <= i < |x| && x[i] == job;
      assert x == x[..i] + ([x[i]] + x[i + 1..]);
      assert job !in x[..i] && job !in x[i + 1..];
    }
  }

  /** Every schedule ends with an outcome of the executor: each partition was worked
      on exactly once, its result was collected exactly once, and the collected lists
      are concatenated in the order of arrival. */
  lemma EveryScheduleYieldsOutcome(snap: Snapshot, txs: seq<Transaction>, order: seq<Address>,
      sorted: map<Address, seq<Transaction>>, p: Pool, steps: seq<Step>, q: Pool)
    requires SortedPartitions(txs, sorted) && Arranges(order, Senders(txs))
    requires forall i | 0 <= i < |order| :: order[i] in sorted
    requires Start(JobsFor(order, sorted), p)
    requires Reaches(snap, |order|, p, steps, q) && q.outClosed
    ensures multiset(JobsOf(q.received)) == multiset(JobsFor(order, sorted))
    ensures GatheredBy(snap.verify, txs, snap.nonces, snap.balances, q.final, SendersOf(q.received), sorted)
    ensures IsOutcome(snap.verify, txs, snap.nonces, snap.balances, q.final)
  {
    var jobs := JobsFor(order, sorted);
    StartHasInv(snap, jobs, p);
    ReachableHasInv(snap, jobs, p, steps, q);
    AllReceived(q, jobs);
    ReceivedArranges(order, sorted, q.received);
    FlattenIsGather(snap, q.received, sorted);
  }

  /** Every run does some of the work with each step, so none is longer than the work. */
  lemma {:induction false} RunsAreBounded(snap: Snapshot, n: nat, p: Pool, steps: seq<Step>, q: Pool)
    requires Reaches(snap, n, p, steps, q)
    ensures |steps| + Remaining(q) <= Remaining(p)
    decreases |steps|
  {
    if steps != [] {
      StepsTerminate(snap, n, p, steps[0]);
      RunsAreBounded(snap, n, Apply(snap, n, p, steps[0]), steps[1..], q);
    }
  }

  /** From the start every run is bounded, and a run that cannot be extended has ended
      every worker, closed the result channel and gathered an outcome of the executor. */
  lemma EveryRunFinishes(snap: Snapshot, txs: seq<Transaction>, order: seq<Address>,
      sorted: map<Address, seq<Transaction>>, p: Pool, steps: seq<Step>, q: Pool)
    requires SortedPartitions(txs, sorted) && Arranges(order, Senders(txs))
    requires forall i | 0 <= i < |order| :: order[i] in sorted
    requires Start(JobsFor(order, sorted), p) && Reaches(snap, |order|, p, steps, q)
    ensures |steps| <= Remaining(p)
    ensures (forall step :: !Enabled(|order|, q, step)) ==>
      && q.outClosed && (forall i | 0 <= i < |q.workers| :: q.workers[i].Exited?)
      && IsOutcome(snap.verify, txs, snap.nonces, snap.balances, q.final)
  {
    RunsAreBounded(snap, |order|, p, steps, q);
    if forall step :: !Enabled(|order|, q, step) {
      StartHasInv(snap, JobsFor(order, sorted), p);
      ReachableHasInv(snap, JobsFor(order, sorted), p, steps, q);
      StuckMeansDone(snap, JobsFor(order, sorted), q);
      EveryScheduleYieldsOutcome(snap, txs, order, sorted, p, steps, q);
    }
  }

  lemma AllReceived(q: Pool, jobs: seq<Job>)
    requires Size(q) == |q.received| && forall job :: Copies(q, job) == multiset(jobs)[job]
    ensures multiset(JobsOf(q.received)) == multiset(jobs)
  {
    forall job ensures multiset(JobsOf(q.received))[job] == multiset(jobs)[job] {
      assert Copies(q, job) == multiset(jobs)[job];
      NothingElsewhere(q, job);
    }
  }

  lemma {:induction false} IdleHoldNothing(workers: seq<Worker>, job: Job)
    requires Tally(workers, BUSY) == 0
    ensures Tally(workers, Holding(job)) == 0
  {
    if workers != [] {
      IdleHoldNothing(workers[1..], job);
    }
  }

  lemma NothingElsewhere(p: Pool, job: Job)
    requires Size(p) == |p.received|
    ensures Copies(p, job) == multiset(JobsOf(p.received))[job]
  {
    IdleHoldNothing(p.workers, job);
  }

  lemma ReceivedArranges(order: seq<Address>, sorted: map<Address, seq<Transaction>>, received: seq<Result>)
    requires forall i | 0 <= i < |order| :: order[i] in sorted
    requires Arranges(order, sorted.Keys)
    requires multiset(JobsOf(received)) == multiset(JobsFor(order, sorted))
    ensures Arranges(SendersOf(received), sorted.Keys)
    ensures forall i | 0 <= i < |received| ::
      received[i].job.sender in sorted && received[i].job.txs == sorted[received[i].job.sender]
  {
    var x, y := JobsFor(order, sorted), JobsOf(received);
    PermutationIsDistinct(x, y);
    forall i | 0 <= i < |received|
      ensures received[i].job.sender in sorted && received[i].job.txs == sorted[received[i].job.sender]
    {
      assert y[i] in multiset(x);
      var j :| 0 <= j < |x| && x[j] == y[i];
    }
    forall i, j | 0 <= i < j < |received| ensures SendersOf(received)[i] != SendersOf(received)[j] {
      assert y[i].sender != y[j].sender;
    }
    forall s ensures s in SendersOf(received) <==> s in sorted.Keys {
      if s in sorted {
        var j :| 0 <= j < |order| && order[j] == s;
        assert x[j] in multiset(y);
        var i :| 0 <= i < |y| && y[i] == x[j];
        assert SendersOf(received)[i] == s;
      }
    }
  }
}
