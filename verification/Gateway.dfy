/** The front door: token buckets that limit the rate, and sharded queues that keep
    each sender's order. */
module Gateway {
  import opened Accounts
  import opened Arithmetic
  import opened Transactions
  import opened Batch
  import opened Slashing

  // ----- token bucket

  datatype Bucket = Bucket(tokens: real, lastRef: real, rate: real, burst: real)

  function Gain(elapsed: real, rate: real, weight: real): real {
    elapsed * rate * weight
  }

  /** The bucket refilled up to now, at most to its burst, both scaled by the weight. */
  function Refilled(b: Bucket, weight: real, now: real): Bucket {
    var tokens := b.tokens + Gain(now - b.lastRef, b.rate, weight);
    var max := b.burst * weight;
    b.(tokens := if tokens > max then max else tokens, lastRef := now)
  }

  function Allowed(b: Bucket, weight: real, now: real): bool {
    Refilled(b, weight, now).tokens >= 1.0
  }

  function AfterCall(b: Bucket, weight: real, now: real): Bucket {
    var r := Refilled(b, weight, now);
    if r.tokens < 1.0 then r else r.(tokens := r.tokens - 1.0)
  }

  function Least(x: real, y: real): real {
    if x <= y then x else y
  }

  /** One call, exactly: what is available is the old tokens and the gain since the last
      call, at most the scaled burst; the call is admitted if that is a whole token, and
      then takes it. */
  lemma CallExactly(b: Bucket, weight: real, now: real)
    ensures var available := Least(b.tokens + (now - b.lastRef) * b.rate * weight, b.burst * weight);
      && (Allowed(b, weight, now) <==> available >= 1.0)
      && AfterCall(b, weight, now).tokens + (if Allowed(b, weight, now) then 1.0 else 0.0) == available
      && AfterCall(b, weight, now).lastRef == now
      && AfterCall(b, weight, now).rate == b.rate && AfterCall(b, weight, now).burst == b.burst
  {
  }

  class TokenBucket {
    var tokens: real
    var lastRef: real
    const rate: real
    const burst: real

    function Value(): Bucket
      reads this
    {
      Bucket(tokens, lastRef, rate, burst)
    }

    constructor (rate: real, burst: real, now: real)
      ensures Value() == Bucket(burst, now, rate, burst)
    {
      this.rate := rate;
      this.burst := burst;
      tokens := burst;
      lastRef := now;
    }

    method Allow(weight: real, now: real) returns (ok: bool)
      modifies this
      ensures ok == Allowed(old(Value()), weight, now)
      ensures Value() == AfterCall(old(Value()), weight, now)
      ensures var available := Least(old(tokens) + (now - old(lastRef)) * rate * weight, burst * weight);
        && (ok <==> available >= 1.0)
        && tokens == (if ok then available - 1.0 else available)
        && lastRef == now
    {
      var elapsed := now - lastRef;
      lastRef := now;
      tokens := tokens + elapsed * rate * weight;
      var max := burst * weight;
      if tokens > max {
        tokens := max;
      }
      if tokens < 1.0 {
        return false;
      }
      tokens := tokens - 1.0;
      return true;
    }
  }

  /** One call: its weight and the time at which it is made. */
  datatype Request = Request(weight: real, now: real)

  function AfterCalls(b: Bucket, calls: seq<Request>): Bucket {
    if calls == [] then b
    else
      var before := AfterCalls(b, calls[..|calls| - 1]);
      AfterCall(before, calls[|calls| - 1].weight, calls[|calls| - 1].now)
  }

  function Admitted(b: Bucket, calls: seq<Request>): nat {
    if calls == [] then 0
    else
      var before := AfterCalls(b, calls[..|calls| - 1]);
      Admitted(b, calls[..|calls| - 1]) + (if Allowed(before, calls[|calls| - 1].weight, calls[|calls| - 1].now)
        then 1 else 0)
  }

  /** The clock does not run backwards, from the bucket's last call through all calls. */
  ghost predicate Monotone(start: real, calls: seq<Request>) {
    && (calls != [] ==> start <= calls[0].now)
    && forall i, j | 0 <= i < j < |calls| :: calls[i].now <= calls[j].now
  }

  predicate Weighted(calls: seq<Request>) {
    forall i | 0 <= i < |calls| :: 1.0 <= calls[i].weight <= 4.0
  }

  ghost predicate Sound(b: Bucket) {
    0.0 <= b.rate && 0.0 <= b.burst && 0.0 <= b.tokens <= 4.0 * b.burst
  }

  /** The most a bucket can gain in a time, at the largest weight. */
  function MaxGain(rate: real, elapsed: real): real {
    4.0 * rate * elapsed
  }

  lemma GainBound(elapsed: real, rate: real, weight: real)
    requires 0.0 <= elapsed && 0.0 <= rate && 1.0 <= weight <= 4.0
    ensures 0.0 <= Gain(elapsed, rate, weight) <= MaxGain(rate, elapsed)
  {
    GainAtMost(elapsed, rate, weight);
  }

  lemma MaxGainAdds(rate: real, x: real, y: real)
    ensures MaxGain(rate, x + y) == MaxGain(rate, x) + MaxGain(rate, y)
  {
    MulOverSum(4.0 * rate, x, y);
  }

  /** One call never overfills the bucket, and takes a whole token when it admits. */
  lemma OneCall(b: Bucket, weight: real, now: real)
    requires Sound(b) && b.lastRef <= now && 1.0 <= weight <= 4.0
    ensures Sound(AfterCall(b, weight, now))
    ensures AfterCall(b, weight, now).tokens + (if Allowed(b, weight, now) then 1.0 else 0.0)
         <= b.tokens + MaxGain(b.rate, now - b.lastRef)
  {
    var most := MaxGain(b.rate, now - b.lastRef);
    GainBound(now - b.lastRef, b.rate, weight);
    var cap := Cap(b.burst, weight);
    CallBetween(b, weight, now, Gain(now - b.lastRef, b.rate, weight), cap, most);
  }

  lemma Cap(burst: real, weight: real) returns (cap: real)
    requires 0.0 <= burst && 1.0 <= weight <= 4.0
    ensures cap == burst * weight && 0.0 <= cap <= 4.0 * burst
  {
    cap := burst * weight;
    Scale(burst, weight);
  }

  lemma CallBetween(b: Bucket, weight: real, now: real, gain: real, cap: real, most: real)
    requires gain == (now - b.lastRef) * b.rate * weight && cap == b.burst * weight
    requires Sound(b) && 0.0 <= gain <= most && 0.0 <= cap <= 4.0 * b.burst
    ensures Sound(AfterCall(b, weight, now))
    ensures AfterCall(b, weight, now).tokens + (if Allowed(b, weight, now) then 1.0 else 0.0) <= b.tokens + most
  {
    CallExactly(b, weight, now);
  }

  /** Over any run of calls with weights from 1 to 4 the bucket stays between empty and
      four bursts, and the calls admitted are at most what was in it, less what is left,
      plus four times the rate per second that passed. */
  lemma {:induction false} AdmittedBound(b: Bucket, calls: seq<Request>)
    requires Sound(b) && Monotone(b.lastRef, calls) && Weighted(calls)
    ensures var after := AfterCalls(b, calls);
      && Sound(after) && after.rate == b.rate && after.burst == b.burst
      && after.lastRef == (if calls == [] then b.lastRef else calls[|calls| - 1].now)
      && Admitted(b, calls) as real + after.tokens <= b.tokens + MaxGain(b.rate, after.lastRef - b.lastRef)
  {
    if calls != [] {
      var init, last := calls[..|calls| - 1], calls[|calls| - 1];
      AdmittedBound(b, init);
      var before := AfterCalls(b, init);
      OneCall(before, last.weight, last.now);
      MaxGainAdds(b.rate, before.lastRef - b.lastRef, last.now - before.lastRef);
      assert before.lastRef <= last.now;
    }
  }

  /** A bucket idle for the time of one token admits the next call. */
  lemma IdleBucketAdmits(b: Bucket, weight: real, now: real)
    requires b.rate > 0.0 && b.burst >= 1.0 && weight >= 1.0 && b.tokens >= 0.0
    requires now - b.lastRef >= 1.0 / b.rate
    ensures Allowed(b, weight, now)
  {
    WholeToken(now - b.lastRef, b.rate, weight);
    ScaleUp(b.burst, weight);
    AdmitsWhenAvailable(b, weight, now, (now - b.lastRef) * b.rate * weight, b.burst * weight);
  }

  lemma AdmitsWhenAvailable(b: Bucket, weight: real, now: real, gain: real, cap: real)
    requires gain == (now - b.lastRef) * b.rate * weight && cap == b.burst * weight
    requires b.tokens + gain >= 1.0 && cap >= 1.0
    ensures Allowed(b, weight, now)
  {
    CallExactly(b, weight, now);
  }

  /** A bucket with a token admits the next call. */
  lemma FullTokenAdmits(b: Bucket, weight: real, now: real)
    requires b.rate > 0.0 && b.burst >= 1.0 && weight >= 1.0 && b.tokens >= 1.0 && now >= b.lastRef
    ensures Allowed(b, weight, now)
  {
    GainNotNegative(now - b.lastRef, b.rate, weight);
    ScaleUp(b.burst, weight);
    AdmitsWhenAvailable(b, weight, now, (now - b.lastRef) * b.rate * weight, b.burst * weight);
  }

  /** Calls no closer than the time of one token. */
  ghost predicate Spaced(calls: seq<Request>, rate: real)
    requires rate > 0.0
  {
    forall i | 0 < i < |calls| :: calls[i].now - calls[i - 1].now >= 1.0 / rate
  }

  /** The limiter keeps its promise: from a bucket that holds a token, calls that come no
      faster than its rate are all admitted. */
  lemma {:induction false} SpacedCallsAdmitted(b: Bucket, calls: seq<Request>)
    requires b.rate > 0.0 && b.burst >= 1.0 && b.tokens >= 1.0
    requires Monotone(b.lastRef, calls) && Spaced(calls, b.rate) && forall i | 0 <= i < |calls| ::
      calls[i].weight >= 1.0
    ensures Admitted(b, calls) == |calls|
    ensures var after := AfterCalls(b, calls);
      && after.rate == b.rate && after.burst == b.burst && after.tokens >= 0.0
      && after.lastRef == (if calls == [] then b.lastRef else calls[|calls| - 1].now)
  {
    if calls != [] {
      var init, last := calls[..|calls| - 1], calls[|calls| - 1];
      SpacedCallsAdmitted(b, init);
      var before := AfterCalls(b, init);
      if init == [] {
        FullTokenAdmits(before, last.weight, last.now);
      } else {
        assert last.now - init[|init| - 1].now >= 1.0 / b.rate;
        IdleBucketAdmits(before, last.weight, last.now);
      }
      CallExactly(before, last.weight, last.now);
    }
  }

  // ----- lanes

  datatype Lane = Fast | Normal | Slow

  const FEE_HIGH := 5000
  const FEE_MID := 1200

  function StakeWeight(stake: int): real {
    var w := 1.0 + stake as real / 10000.0;
    if w > 4.0 then 4.0 else w
  }

  function LaneOf(validators: seq<Validator>, tx: Transaction): (Lane, real) {
    var i := Find(validators, tx.from);
    if i < |validators| then (Fast, StakeWeight(validators[i].stake))
    else if tx.fee >= FEE_HIGH then (Fast, 1.0)
    else if tx.fee >= FEE_MID then (Normal, 1.0)
    else (Slow, 1.0)
  }

  /** Lane and weight in each case: validators go fast, weighted by their stake up to four;
      everyone else goes by the fee, at weight one. */
  lemma LaneCases(validators: seq<Validator>, tx: Transaction)
    ensures forall i | 0 <= i < |validators| && validators[i].address == tx.from
        && (forall j | 0 <= j < i :: validators[j].address != tx.from) ::
      LaneOf(validators, tx) == (Fast, Least(1.0 + validators[i].stake as real / 10000.0, 4.0))
    ensures (forall i | 0 <= i < |validators| :: validators[i].address != tx.from) ==>
      LaneOf(validators, tx) == (if tx.fee < 1200 then Slow else if tx.fee < 5000 then Normal else Fast, 1.0)
  {
    var f := Find(validators, tx.from);
    forall i | 0 <= i < |validators| && validators[i].address == tx.from
        && (forall j | 0 <= j < i :: validators[j].address != tx.from)
      ensures i == f
    {
    }
  }

  method LaneFor(validators: seq<Validator>, tx: Transaction) returns (lane: Lane, weight: real)
    ensures (lane, weight) == LaneOf(validators, tx)
    ensures NonNegativeStakes(validators) ==> 1.0 <= weight <= 4.0
  {
    for i := 0 to |validators|
      invariant forall j | 0 <= j < i :: validators[j].address != tx.from
    {
      if validators[i].address == tx.from {
        weight := 1.0 + validators[i].stake as real / 10000.0;
        if weight > 4.0 {
          weight := 4.0;
        }
        return Fast, weight;
      }
    }
    if tx.fee >= FEE_HIGH {
      return Fast, 1.0;
    }
    if tx.fee >= FEE_MID {
      return Normal, 1.0;
    }
    return Slow, 1.0;
  }

  // ----- sharded ingress

  const CAPACITY := 4096

  /** The queues and counters; `enqueued`, `validated` and `calls` only observe. */
  datatype Ingress = Ingress(
    shards: seq<seq<Transaction>>,
    accepted: nat,
    dropped: nat,
    enqueued: seq<Transaction>,
    validated: seq<Transaction>,
    calls: nat)

  /** A producer offers a transaction, which the limiter passes or not; or the consumer
      of a shard takes its oldest transaction for validation. */
  datatype Event = Offer(tx: Transaction, limited: bool) | Consume(shard: nat)

  /** Any hash of the sender chooses the shard. */
  function ShardFor(hash: Address -> nat, a: Address, shards: nat): (k: nat)
    requires shards > 0
    ensures k < shards
  {
    hash(a) % shards
  }

  /** The sender's shard is not full. */
  predicate HasRoom(hash: Address -> nat, g: Ingress, tx: Transaction)
    requires g.shards != []
  {
    |g.shards[ShardFor(hash, tx.from, |g.shards|)]| < CAPACITY
  }

  predicate Possible(g: Ingress, e: Event) {
    e.Consume? ==> e.shard < |g.shards| && g.shards[e.shard] != []
  }

  function After(hash: Address -> nat, g: Ingress, e: Event): Ingress
    requires g.shards != [] && Possible(g, e)
  {
    match e
    case Offer(tx, limited) =>
      var k := ShardFor(hash, tx.from, |g.shards|);
      if limited then g.(dropped := g.dropped + 1, calls := g.calls + 1)
      else if HasRoom(hash, g, tx) then
        g.(shards := g.shards[k := g.shards[k] + [tx]], enqueued := g.enqueued + [tx],
           accepted := g.accepted + 1, calls := g.calls + 1)
      else
        // a full shard counts as dropped, and the call as accepted all the same
        g.(dropped := g.dropped + 1, accepted := g.accepted + 1, calls := g.calls + 1)
    case Consume(k) =>
      g.(shards := g.shards[k := g.shards[k][1..]], validated := g.validated + [g.shards[k][0]])
  }

  ghost predicate Leads(hash: Address -> nat, g: Ingress, events: seq<Event>, f: Ingress)
    decreases |events|
  {
    if events == [] then g == f
    else g.shards != [] && Possible(g, events[0]) && Leads(hash, After(hash, g, events[0]), events[1..], f)
  }

  ghost predicate Started(g: Ingress) {
    && g.shards != [] && (forall k | 0 <= k < |g.shards| :: g.shards[k] == [])
    && g.accepted == g.dropped == g.calls == 0
    && g.enqueued == [] && g.validated == []
  }

  /** A sender's transactions wait in one shard only, behind those already validated. */
  ghost predicate InOrder(hash: Address -> nat, g: Ingress, a: Address)
    requires g.shards != []
  {
    var k := ShardFor(hash, a, |g.shards|);
    && OfSender(g.enqueued, a) == OfSender(g.validated, a) + OfSender(g.shards[k], a)
    && forall j | 0 <= j < |g.shards| && j != k :: OfSender(g.shards[j], a) == []
  }

  ghost predicate Tallied(g: Ingress) {
    |g.enqueued| + g.dropped == g.calls
  }

  lemma OfSenderNext(txs: seq<Transaction>, tx: Transaction, a: Address)
    ensures OfSender(txs + [tx], a) == OfSender(txs, a) + (if tx.from == a then [tx] else [])
  {
    OfSenderConcat(txs, [tx], a);
  }

  lemma OwnOfferKeepsOrder(enqueued: seq<Transaction>, validated: seq<Transaction>, queue: seq<Transaction>,
      tx: Transaction)
    requires OfSender(enqueued, tx.from) == OfSender(validated, tx.from) + OfSender(queue, tx.from)
    ensures OfSender(enqueued + [tx], tx.from) == OfSender(validated, tx.from) + OfSender(queue + [tx], tx.from)
  {
    OfSenderNext(enqueued, tx, tx.from);
    OfSenderNext(queue, tx, tx.from);
    Reassociate(OfSender(validated, tx.from), OfSender(queue, tx.from), [tx]);
  }

  lemma OtherOfferIsInvisible(txs: seq<Transaction>, tx: Transaction, a: Address)
    requires tx.from != a
    ensures OfSender(txs + [tx], a) == OfSender(txs, a)
  {
    OfSenderNext(txs, tx, a);
  }

  lemma OfferKeepsOrder(hash: Address -> nat, g: Ingress, tx: Transaction, limited: bool, a: Address)
    requires g.shards != [] && InOrder(hash, g, a)
    ensures InOrder(hash, After(hash, g, Offer(tx, limited)), a)
  {
    var k := ShardFor(hash, tx.from, |g.shards|);
    if tx.from == a {
      OwnOfferKeepsOrder(g.enqueued, g.validated, g.shards[k], tx);
    } else {
      OtherOfferIsInvisible(g.enqueued, tx, a);
      OtherOfferIsInvisible(g.shards[k], tx, a);
    }
  }

  lemma ConsumeOwnKeepsOrder(validated: seq<Transaction>, queue: seq<Transaction>, a: Address)
    requires queue != []
    ensures OfSender(validated + [queue[0]], a) + OfSender(queue[1..], a) == OfSender(validated, a) + OfSender(queue, a)
  {
    OfSenderNext(validated, queue[0], a);
    OfSenderFirst(queue, a);
    Reassociate(OfSender(validated, a), if queue[0].from == a then [queue[0]] else [], OfSender(queue[1..], a));
  }

  lemma ConsumeOtherKeepsOrder(validated: seq<Transaction>, queue: seq<Transaction>, a: Address)
    requires queue != [] && OfSender(queue, a) == []
    ensures OfSender(validated + [queue[0]], a) == OfSender(validated, a) && OfSender(queue[1..], a) == []
  {
    OfSenderNext(validated, queue[0], a);
    OfSenderFirst(queue, a);
  }

  lemma ConsumeKeepsOrder(hash: Address -> nat, g: Ingress, k: nat, a: Address)
    requires g.shards != [] && Possible(g, Consume(k)) && InOrder(hash, g, a)
    ensures InOrder(hash, After(hash, g, Consume(k)), a)
  {
    if k == ShardFor(hash, a, |g.shards|) {
      ConsumeOwnKeepsOrder(g.validated, g.shards[k], a);
    } else {
      ConsumeOtherKeepsOrder(g.validated, g.shards[k], a);
    }
  }

  lemma EventKeepsOrder(hash: Address -> nat, g: Ingress, e: Event, a: Address)
    requires g.shards != [] && Possible(g, e) && InOrder(hash, g, a)
    ensures InOrder(hash, After(hash, g, e), a)
  {
    match e
    case Offer(tx, limited) => OfferKeepsOrder(hash, g, tx, limited, a);
    case Consume(k) => ConsumeKeepsOrder(hash, g, k, a);
  }

  lemma {:induction false} RunKeepsOrder(hash: Address -> nat, g: Ingress, events: seq<Event>, f: Ingress, a: Address)
    requires g.shards != [] && InOrder(hash, g, a) && Tallied(g) && Leads(hash, g, events, f)
    ensures f.shards != [] && InOrder(hash, f, a) && Tallied(f)
    decreases |events|
  {
    if events != [] {
      EventKeepsOrder(hash, g, events[0], a);
      RunKeepsOrder(hash, After(hash, g, events[0]), events[1..], f, a);
    }
  }

  /** For every interleaving of producers and consumers: what is validated of a sender is
      a prefix of what was enqueued of it, in the same order, and every call either enqueued
      or was counted as dropped. */
  lemma SenderOrderKept(hash: Address -> nat, g: Ingress, events: seq<Event>, f: Ingress, a: Address)
    requires Started(g) && Leads(hash, g, events, f)
    ensures OfSender(f.validated, a) <= OfSender(f.enqueued, a)
    ensures |f.enqueued| + f.dropped == f.calls
  {
    RunKeepsOrder(hash, g, events, f, a);
  }

  // ----- the two counters

  /** An offer that passes the limiter and finds its shard full. */
  predicate Overflows(hash: Address -> nat, g: Ingress, e: Event)
    requires g.shards != []
  {
    e.Offer? && !e.limited && !HasRoom(hash, g, e.tx)
  }

  /** Accepted and dropped together count a call once exactly when it is turned away by the
      limiter or finds room: the loss to a full shard is counted twice. */
  lemma CountedOnceIff(hash: Address -> nat, g: Ingress, tx: Transaction, limited: bool)
    requires g.shards != []
    ensures var n := After(hash, g, Offer(tx, limited));
      n.accepted + n.dropped == g.accepted + g.dropped + 1 <==> limited || HasRoom(hash, g, tx)
    ensures var n := After(hash, g, Offer(tx, limited));
      n.accepted + n.dropped <= g.accepted + g.dropped + 2
  {
  }

  /** Every offer of the run that passes the limiter finds room. */
  ghost predicate AlwaysRoom(hash: Address -> nat, g: Ingress, events: seq<Event>)
    decreases |events|
  {
    events != [] && g.shards != [] && Possible(g, events[0]) ==>
      !Overflows(hash, g, events[0]) && AlwaysRoom(hash, After(hash, g, events[0]), events[1..])
  }

  /** How much the two counters together exceed the calls. */
  function Excess(g: Ingress): int {
    g.accepted + g.dropped - g.calls
  }

  lemma {:induction false} ExcessOverRun(hash: Address -> nat, g: Ingress, events: seq<Event>, f: Ingress)
    requires Leads(hash, g, events, f)
    ensures Excess(f) >= Excess(g)
    ensures Excess(f) == Excess(g) <==> AlwaysRoom(hash, g, events)
    decreases |events|
  {
    if events != [] {
      ExcessOverRun(hash, After(hash, g, events[0]), events[1..], f);
    }
  }

  /** Over a run the two counters add up to the number of calls exactly when every offer
      that passes the limiter finds room. */
  lemma CountersAddUpIff(hash: Address -> nat, g: Ingress, events: seq<Event>, f: Ingress)
    requires Started(g) && Leads(hash, g, events, f)
    ensures f.accepted + f.dropped == f.calls <==> AlwaysRoom(hash, g, events)
  {
    ExcessOverRun(hash, g, events, f);
  }

  /** The same offer, so many times. */
  function Offers(tx: Transaction, n: nat): seq<Event> {
    seq(n, _ => Offer(tx, false))
  }

  /** Offers alone fill a shard, and one more is lost. */
  lemma {:induction false} OffersLead(hash: Address -> nat, g: Ingress, tx: Transaction, n: nat) returns (f: Ingress)
    requires g.shards != []
    requires |g.shards[ShardFor(hash, tx.from, |g.shards|)]| + n <= CAPACITY
    ensures Leads(hash, g, Offers(tx, n), f)
    ensures |f.shards| == |g.shards| && f.accepted == g.accepted + n && f.dropped == g.dropped && f.calls == g.calls + n
    ensures var k := ShardFor(hash, tx.from, |g.shards|);
      |f.shards[k]| == |g.shards[k]| + n
    decreases n
  {
    if n == 0 {
      f := g;
    } else {
      f := OffersLead(hash, After(hash, g, Offer(tx, false)), tx, n - 1);
      assert Offers(tx, n)[0] == Offer(tx, false) && Offers(tx, n)[1..] == Offers(tx, n - 1);
    }
  }

  lemma {:induction false} LeadsOn(hash: Address -> nat, g: Ingress, events: seq<Event>, f: Ingress, e: Event)
    requires Leads(hash, g, events, f) && f.shards != [] && Possible(f, e)
    ensures Leads(hash, g, events + [e], After(hash, f, e))
    decreases |events|
  {
    if events == [] {
      assert events + [e] == [e] && Leads(hash, After(hash, f, e), [e][1..], After(hash, f, e));
    } else {
      LeadsOn(hash, After(hash, g, events[0]), events[1..], f, e);
      assert (events + [e])[0] == events[0] && (events + [e])[1..] == events[1..] + [e];
    }
  }

  /** From every start, one sender's burst of one more than a shard holds is counted
      wrongly: every call is accepted, the last is dropped as well. */
  lemma BurstIsCountedTwice(hash: Address -> nat, g: Ingress, tx: Transaction) returns (f: Ingress)
    requires Started(g)
    ensures Leads(hash, g, Offers(tx, CAPACITY) + [Offer(tx, false)], f)
    ensures f.calls == CAPACITY + 1 && f.accepted == CAPACITY + 1 && f.dropped == 1
  {
    var full := OffersLead(hash, g, tx, CAPACITY);
    f := After(hash, full, Offer(tx, false));
    LeadsOn(hash, g, Offers(tx, CAPACITY), full, Offer(tx, false));
  }

  // ----- the gateway itself

  class Front {
    const hash: Address -> nat
    const fast: TokenBucket
    const normal: TokenBucket
    const slow: TokenBucket
    var shards: seq<seq<Transaction>>
    var accepted: nat
    var dropped: nat
    ghost var enqueued: seq<Transaction>
    ghost var validated: seq<Transaction>
    ghost var calls: nat

    ghost function Value(): Ingress
      reads this
    {
      Ingress(shards, accepted, dropped, enqueued, validated, calls)
    }

    ghost predicate Valid()
      reads this
    {
      shards != [] && fast != normal && fast != slow && normal != slow
    }

    function BucketOf(lane: Lane): TokenBucket {
      match lane
      case Fast => fast
      case Normal => normal
      case Slow => slow
    }

    /** Three lanes, and two shards per processor but no fewer than four. */
    constructor (hash: Address -> nat, cpus: nat, now: real)
      ensures Valid() && Started(Value()) && this.hash == hash
      ensures fresh(fast) && fresh(normal) && fresh(slow)
      ensures fast.Value() == Bucket(8000.0, now, 4000.0, 8000.0)
      ensures normal.Value() == Bucket(3600.0, now, 1800.0, 3600.0)
      ensures slow.Value() == Bucket(1200.0, now, 600.0, 1200.0)
      ensures |shards| == 2 * (if cpus < 2 then 2 else cpus)
    {
      this.hash := hash;
      fast := new TokenBucket(4000.0, 8000.0, now);
      normal := new TokenBucket(1800.0, 3600.0, now);
      slow := new TokenBucket(600.0, 1200.0, now);
      var n := if cpus < 2 then 2 else cpus;
      shards := seq(n * 2, _ => []);
      accepted, dropped := 0, 0;
      enqueued, validated, calls := [], [], 0;
    }

    /** Takes a transaction in: a public node asks the bucket of its lane first. The
        queues and counters change as one Offer, and no other lane pays. */
    method AcceptTx(public: bool, validators: seq<Validator>, tx: Transaction, now: real) returns (ok: bool)
      requires Valid()
      modifies this`shards, this`accepted, this`dropped, this`enqueued, this`calls, fast, normal, slow
      ensures Valid()
      ensures Value() == After(hash, old(Value()), Offer(tx, !ok))
      ensures var (lane, weight) := LaneOf(validators, tx);
        && (ok <==> !public || Allowed(old(BucketOf(lane).Value()), weight, now))
        && BucketOf(lane).Value() == (if public then AfterCall(old(BucketOf(lane).Value()), weight, now)
          else old(BucketOf(lane).Value()))
        && forall other: Lane | other != lane :: BucketOf(other).Value() == old(BucketOf(other).Value())
    {
      calls := calls + 1;
      if public {
        var lane, weight := LaneFor(validators, tx);
        var admitted := BucketOf(lane).Allow(weight, now);
        if !admitted {
          dropped := dropped + 1;
          return false;
        }
      }
      EnqueueShard(tx);
      accepted := accepted + 1;
      return true;
    }

    /** Appends to the sender's shard, or counts a drop when it is full. */
    method EnqueueShard(tx: Transaction)
      requires Valid()
      modifies this`shards, this`dropped, this`enqueued
      ensures Valid()
      ensures var k, was := ShardFor(hash, tx.from, |old(shards)|), old(Value());
        Value() == if HasRoom(hash, was, tx)
          then was.(shards := was.shards[k := was.shards[k] + [tx]], enqueued := was.enqueued + [tx])
          else was.(dropped := was.dropped + 1)
    {
      var idx := ShardFor(hash, tx.from, |shards|);
      if |shards[idx]| < CAPACITY {
        shards := shards[idx := shards[idx] + [tx]];
        enqueued := enqueued + [tx];
      } else {
        dropped := dropped + 1;
      }
    }

    /** One turn of a shard's consumer. */
    method Serve(k: nat) returns (tx: Transaction)
      requires Valid() && k < |shards| && shards[k] != []
      modifies this`shards, this`validated
      ensures Valid()
      ensures tx == old(shards)[k][0] && Value() == After(hash, old(Value()), Consume(k))
    {
      tx := shards[k][0];
      shards := shards[k := shards[k][1..]];
      validated := validated + [tx];
    }
  }
}
