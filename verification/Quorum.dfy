/** A lost quorum stays lost: after a failed vote no block is appended until a
    suspension lapses. */
module Quorum {
  import opened Accounts
  import opened Slashing
  import opened Election
  import opened Protocol
  import opened Rounds
  import opened Transactions

  /** Suspended from voting, beyond the given time. */
  predicate Silenced(status: Status, a: Address, until: int) {
    a in status && status[a].suspendedUntil > until && status[a].scope in {ScopeVote, ScopeAll}
  }

  function SilentVotes(validators: seq<Validator>, status: Status, until: int): nat {
    if validators == [] then 0
    else (if Silenced(status, validators[0].address, until) then 1 else 0) + SilentVotes(validators[1..], status, until)
  }

  /** So many are suspended until then that no vote can pass. */
  predicate QuorumLost(s: State, until: int) {
    3 * SilentVotes(s.economy.validators, s.status, until) >= |s.economy.validators|
  }

  lemma {:induction false} SilentDoNotVote(validators: seq<Validator>, status: Status, until: int, now: int)
    requires now <= until
    ensures SilentVotes(validators, status, until) + YesVotes(validators, status, now) <= |validators|
  {
    if validators != [] {
      SilentDoNotVote(validators[1..], status, until, now);
    }
  }

  /** No suspension from voting that is in force now lapses by then. */
  ghost predicate NoneLapses(s: State, until: int) {
    forall i | 0 <= i < |s.economy.validators| && !MayVote(s.status, s.economy.validators[i], s.clock) ::
      Silenced(s.status, s.economy.validators[i].address, until)
  }

  lemma {:induction false} SuspendedAreSilent(validators: seq<Validator>, status: Status, until: int, now: int)
    requires forall i | 0 <= i < |validators| && !MayVote(status, validators[i], now) ::
      Silenced(status, validators[i].address, until)
    ensures SilentVotes(validators, status, until) + YesVotes(validators, status, now) >= |validators|
  {
    if validators != [] {
      SuspendedAreSilent(validators[1..], status, until, now);
    }
  }

  /** A vote that fails now fails until then, if no suspension lapses. */
  lemma FailedVoteLosesQuorum(s: State, until: int)
    requires !Accepted(s.economy.validators, s.status, s.clock) && NoneLapses(s, until)
    ensures QuorumLost(s, until)
  {
    SuspendedAreSilent(s.economy.validators, s.status, until, s.clock);
  }

  // ----- steps that free a voter

  /** The new record keeps its validator from voting until then. */
  predicate Silences(scope: Scope, end: int, until: int) {
    scope in {ScopeVote, ScopeAll} && end > until
  }

  /** A slash that writes a suspension over a longer or stricter one. */
  predicate SlashFrees(s: State, offender: Address, params: Params, until: int) {
    && Silenced(s.status, offender, until)
    && Taken(s.economy, offender, params) > 0 && params.suspendFor > 0 && params.scope != ScopeNone
    && !Silences(params.scope, s.clock + params.suspendFor, until)
  }

  /** What one can see before a step of its freeing a silenced voter: its target is
      silenced, a record is really written, and the record does not silence until then. */
  predicate Frees(s: State, step: Step, until: int) {
    match step
    case SlashOutside(offender, params, _) => SlashFrees(s, offender, params, until)
    case SuspendOutside(a, scope, duration) =>
      Silenced(s.status, a, until) && !Silences(scope, s.clock + duration, until)
    case Punish(id) => id in s.calls && s.calls[id].Refused? && SlashFrees(s, s.calls[id].proposer, PENALTY, until)
    case _ => false
  }

  /** No round is past its vote. */
  ghost predicate BeforeVote(s: State) {
    var p := Round(s);
    p.Called? || p.Won? || p.NonEmpty? || p.Chosen? || p.Refused? || p.Leaving?
  }

  /** The same list of addresses, nobody voting who was silenced. */
  ghost predicate StillSilent(s: State, n: State, until: int) {
    && |n.economy.validators| == |s.economy.validators|
    && (forall i | 0 <= i < |n.economy.validators| ::
          n.economy.validators[i].address == s.economy.validators[i].address)
    && (forall a | Silenced(s.status, a, until) :: Silenced(n.status, a, until))
  }

  lemma {:induction false} MoreSilent(v: seq<Validator>, w: seq<Validator>, status: Status, later: Status, until: int)
    requires |v| == |w| && forall i | 0 <= i < |v| :: v[i].address == w[i].address
    requires forall a | Silenced(status, a, until) :: Silenced(later, a, until)
    ensures SilentVotes(v, status, until) <= SilentVotes(w, later, until)
  {
    if v != [] {
      MoreSilent(v[1..], w[1..], status, later, until);
    }
  }

  lemma SlashKeepsSilenceIff(s: State, offender: Address, params: Params, reporter: Address, until: int)
    ensures StillSilent(s, Slashed(s, offender, params, reporter), until) <==> !SlashFrees(s, offender, params, until)
  {
    SlashKeepsList(s.economy, offender, params, reporter);
    var n := Slashed(s, offender, params, reporter);
    assert forall a | a != offender :: Silenced(s.status, a, until) == Silenced(n.status, a, until);
  }

  lemma SuspendKeepsSilenceIff(env: Env, s: State, a: Address, scope: Scope, duration: int, until: int)
    ensures var step := SuspendOutside(a, scope, duration);
      StillSilent(s, Apply(env, s, step), until) <==> !Frees(s, step, until)
  {
    var n := Apply(env, s, SuspendOutside(a, scope, duration));
    assert forall b | b != a :: Silenced(s.status, b, until) == Silenced(n.status, b, until);
  }

  lemma OtherStepKeepsStatus(env: Env, s: State, step: Step)
    requires Enabled(env, s, step) && !step.SlashOutside? && !step.SuspendOutside? && !step.Punish?
    ensures var n := Apply(env, s, step);
      n.status == s.status && n.economy.validators == s.economy.validators
  {
    var n := Apply(env, s, step);
  }

  /** Exactly which steps keep every silenced voter silent. */
  lemma StepKeepsSilenceIff(env: Env, s: State, step: Step, until: int)
    requires Enabled(env, s, step)
    ensures StillSilent(s, Apply(env, s, step), until) <==> !Frees(s, step, until)
  {
    match step
    case SlashOutside(offender, params, reporter) => SlashKeepsSilenceIff(s, offender, params, reporter, until);
    case SuspendOutside(a, scope, duration) => SuspendKeepsSilenceIff(env, s, a, scope, duration, until);
    case Punish(id) => SlashKeepsSilenceIff(s, s.calls[id].proposer, PENALTY, Address(""), until);
    case _ => OtherStepKeepsStatus(env, s, step);
  }

  // ----- runs

  /** No step of the run frees a voter silenced until then. */
  ghost predicate NoneFreed(env: Env, s: State, steps: seq<Step>, until: int)
    decreases |steps|
  {
    steps != [] ==>
      && Enabled(env, s, steps[0]) && !Frees(s, steps[0], until)
      && NoneFreed(env, Apply(env, s, steps[0]), steps[1..], until)
  }

  lemma VoteIsRefused(env: Env, s: State, id: nat, until: int)
    requires Mutex(s) && Enabled(env, s, Vote(id)) && QuorumLost(s, until) && s.clock <= until
    ensures Round(Apply(env, s, Vote(id))).Refused?
    ensures Apply(env, s, Vote(id)).chain == s.chain && Apply(env, s, Vote(id)).nonces == s.nonces
  {
    SilentDoNotVote(s.economy.validators, s.status, until, s.clock);
  }

  lemma OtherStepStaysBeforeVote(env: Env, s: State, step: Step)
    requires Mutex(s) && Enabled(env, s, step) && BeforeVote(s) && !step.Vote?
    ensures BeforeVote(Apply(env, s, step))
    ensures Apply(env, s, step).chain == s.chain && Apply(env, s, step).nonces == s.nonces
  {
    var n := Apply(env, s, step);
  }

  lemma StepStaysBeforeVote(env: Env, s: State, step: Step, until: int)
    requires Mutex(s) && Enabled(env, s, step) && BeforeVote(s) && QuorumLost(s, until) && s.clock <= until
    ensures BeforeVote(Apply(env, s, step))
    ensures Apply(env, s, step).chain == s.chain && Apply(env, s, step).nonces == s.nonces
  {
    if step.Vote? {
      VoteIsRefused(env, s, step.id, until);
    } else {
      OtherStepStaysBeforeVote(env, s, step);
    }
  }

  lemma {:induction false} ClockRuns(env: Env, s: State, steps: seq<Step>, t: State)
    requires Reaches(env, s, steps, t)
    ensures s.clock <= t.clock
    decreases |steps|
  {
    if steps != [] {
      ClockRuns(env, Apply(env, s, steps[0]), steps[1..], t);
    }
  }

  /** With too many silenced for a quorum, and none of them freed on the way, no vote
      passes, no block is appended and no nonce moves. */
  lemma {:induction false} LostQuorumStaysLost(env: Env, s: State, steps: seq<Step>, t: State, until: int)
    requires Mutex(s) && BeforeVote(s) && QuorumLost(s, until)
    requires Reaches(env, s, steps, t) && NoneFreed(env, s, steps, until) && t.clock <= until
    ensures BeforeVote(t) && QuorumLost(t, until)
    ensures t.chain == s.chain && t.nonces == s.nonces
    ensures StillSilent(s, t, until)
    decreases |steps|
  {
    if steps != [] {
      var n := Apply(env, s, steps[0]);
      ClockRuns(env, s, steps, t);
      ClockRuns(env, n, steps[1..], t);
      StepKeepsMutex(env, s, steps[0]);
      StepKeepsSilenceIff(env, s, steps[0], until);
      StepStaysBeforeVote(env, s, steps[0], until);
      MoreSilent(s.economy.validators, n.economy.validators, s.status, n.status, until);
      LostQuorumStaysLost(env, n, steps[1..], t, until);
    }
  }

  /** Failed rounds are absorbing: take a state in which no round is past its vote and a
      vote would fail. As long as no suspension from voting that is in force lapses and no
      step frees a suspended voter, whatever else is admitted, credited, slashed, suspended
      or called, and for however long, no vote passes, no block is appended, no nonce
      moves, and nobody starts voting again. */
  lemma FailedVoteIsAbsorbing(env: Env, s: State, steps: seq<Step>, t: State)
    requires Mutex(s) && BeforeVote(s)
    requires !Accepted(s.economy.validators, s.status, s.clock)
    requires Reaches(env, s, steps, t) && NoneFreed(env, s, steps, t.clock)
    requires NoneLapses(s, t.clock)
    ensures !Accepted(t.economy.validators, t.status, t.clock)
    ensures t.chain == s.chain && t.nonces == s.nonces
    ensures forall i | 0 <= i < |t.economy.validators| && MayVote(t.status, t.economy.validators[i], t.clock) ::
      i < |s.economy.validators| && t.economy.validators[i].address == s.economy.validators[i].address
      && MayVote(s.status, s.economy.validators[i], s.clock)
  {
    FailedVoteLosesQuorum(s, t.clock);
    LostQuorumStaysLost(env, s, steps, t, t.clock);
    SilentDoNotVote(t.economy.validators, t.status, t.clock, t.clock);
    forall i | 0 <= i < |t.economy.validators| && MayVote(t.status, t.economy.validators[i], t.clock)
      ensures MayVote(s.status, s.economy.validators[i], s.clock)
    {
      NobodyStartsVoting(s, t, i);
    }
  }

  lemma NobodyStartsVoting(s: State, t: State, i: nat)
    requires StillSilent(s, t, t.clock) && NoneLapses(s, t.clock) && i < |t.economy.validators|
    ensures MayVote(t.status, t.economy.validators[i], t.clock) ==> MayVote(s.status, s.economy.validators[i], s.clock)
  {
    if !MayVote(s.status, s.economy.validators[i], s.clock) {
      assert Silenced(s.status, s.economy.validators[i].address, t.clock);
    }
  }

  /** A refused round costs its proposer stake, if it has any, and only then: the total
      stake falls by what it holds, up to ten. */
  lemma RefusedRoundLowersStake(env: Env, s: State, id: nat)
    requires NonNegativeStakes(s.economy.validators) && Enabled(env, s, Punish(id))
    ensures var v := s.economy.validators;
      var i := Find(v, s.calls[id].proposer);
      StakeSum(Apply(env, s, Punish(id)).economy.validators)
      == StakeSum(v) - (if i == |v| then 0 else if v[i].stake < 10 then v[i].stake else 10)
  {
    SlashLowersStake(s.economy, s.calls[id].proposer, PENALTY, Address(""));
  }

  // ----- measures that free nobody

  /** Nobody is suspended by hand, and slashes outside a round ban from everything for
      at least a day. */
  predicate Harsh(step: Step) {
    match step
    case SlashOutside(_, params, _) => params.scope == ScopeAll && params.suspendFor >= DAY
    case SuspendOutside(_, _, _) => false
    case _ => true
  }

  ghost predicate AllHarsh(steps: seq<Step>) {
    forall i | 0 <= i < |steps| :: Harsh(steps[i])
  }

  lemma {:induction false} HarshRunFreesNobody(env: Env, s: State, steps: seq<Step>, t: State, until: int)
    requires Reaches(env, s, steps, t) && AllHarsh(steps) && until < s.clock + DAY
    ensures NoneFreed(env, s, steps, until)
    decreases |steps|
  {
    if steps != [] {
      var n := Apply(env, s, steps[0]);
      assert Harsh(steps[0]);
      ReachesOne(env, s, steps[0]);
      ClockRuns(env, s, [steps[0]], n);
      HarshRunFreesNobody(env, n, steps[1..], t, until);
    }
  }

  /** Under harsh measures alone a failed vote is absorbing for up to a day. */
  lemma HarshRunIsAbsorbing(env: Env, s: State, steps: seq<Step>, t: State)
    requires Mutex(s) && BeforeVote(s)
    requires !Accepted(s.economy.validators, s.status, s.clock)
    requires Reaches(env, s, steps, t) && AllHarsh(steps)
    requires NoneLapses(s, t.clock) && t.clock < s.clock + DAY
    ensures !Accepted(t.economy.validators, t.status, t.clock)
    ensures t.chain == s.chain && t.nonces == s.nonces
  {
    HarshRunFreesNobody(env, s, steps, t, t.clock);
    FailedVoteIsAbsorbing(env, s, steps, t);
  }

  // ----- measures that do

  /** A downtime slash replaces a validator's full suspension by a mere ban from
      proposing, so it votes again. */
  lemma DowntimeSlashRestoresVote(s: State, v: Validator)
    requires NonNegativeStakes(s.economy.validators)
    requires Find(s.economy.validators, v.address) < |s.economy.validators|
    requires s.economy.validators[Find(s.economy.validators, v.address)].stake > 0
    requires IsSuspended(s.status, v.address, ScopeAll, s.clock)
    ensures !MayVote(s.status, v, s.clock)
    ensures MayVote(Slashed(s, v.address, DOWNTIME_POLICY, Address("")).status, v, s.clock)
  {
    SlashLowersStake(s.economy, v.address, DOWNTIME_POLICY, Address(""));
  }

  /** A lone validator banned from voting by hand for ten days. */
  function BannedState(p: Address, tx: Transaction): State {
    State(Economy(map[tx.from := tx.Cost()], [Validator(p, 20)], 0, 0), map[], [], [],
      map[p := Runtime(10 * DAY, ScopeVote)], 0, false, 0, map[], map[], 0, 0)
  }

  lemma LoneValidatorIsChosen(p: Address, status: Status, hash: nat, now: int)
    ensures SelectEligible([Validator(p, 20)], status, hash, now) == Validator(p, 20)
  {
    var validators := [Validator(p, 20)];
    assert StakeSum(validators) == 20;
    SelectNeverFallsBack(validators, hash);
  }

  lemma BannedRoundIsRejected(env: Env, p: Address, tx: Transaction, seed: nat)
    requires p in env.wallets
    ensures Decide(env, BannedState(p, tx).(mempool := [tx]), seed) == Rejected(p)
    ensures !Accepted(BannedState(p, tx).economy.validators, BannedState(p, tx).status, 0)
  {
    LoneValidatorIsChosen(p, BannedState(p, tx).status, seed, 0);
    assert YesVotes([Validator(p, 20)], BannedState(p, tx).status, 0) == 0;
  }

  lemma BannedPunishment(p: Address, tx: Transaction)
    ensures var n := Slashed(BannedState(p, tx).(mempool := [tx]), p, PENALTY, Address(""));
      && n.status == map[p := Runtime(DAY, ScopeAll)]
      && |n.economy.validators| == 1 && n.economy.validators[0].address == p
  {
    var s := BannedState(p, tx);
    SlashKeepsList(s.economy, p, PENALTY, Address(""));
    assert Find(s.economy.validators, p) == 0;
    assert s.status[p := Runtime(DAY, ScopeAll)] == map[p := Runtime(DAY, ScopeAll)];
  }

  function PunishedState(p: Address, tx: Transaction): State {
    Slashed(BannedState(p, tx).(mempool := [tx]), p, PENALTY, Address(""))
  }

  lemma BannedRun(env: Env, p: Address, tx: Transaction, seed: nat) returns (steps: seq<Step>)
    requires p in env.wallets && env.verify(tx) && tx.nonce == 1
    ensures Reaches(env, BannedState(p, tx), steps, PunishedState(p, tx))
  {
    var s := BannedState(p, tx);
    var pending := s.(mempool := [tx]);
    AdmissionIsARun(env, s, tx);
    assert s.mempool + [tx] == [tx];
    BannedRoundIsRejected(env, p, tx, seed);
    RejectedRan(env, pending, Choices(seed, 0, 0));
    var round :| Reaches(env, pending, round, PunishedState(p, tx));
    steps := [Submit(0, tx), ReadNonce(0), ReadBalance(0), Admit(0)] + round;
    ReachesConcat(env, s, [Submit(0, tx), ReadNonce(0), ReadBalance(0), Admit(0)], pending, round,
      PunishedState(p, tx));
  }

  lemma VotesAfterADay(p: Address, tx: Transaction)
    ensures Accepted(PunishedState(p, tx).economy.validators, PunishedState(p, tx).status, DAY)
  {
    BannedPunishment(p, tx);
    var n := PunishedState(p, tx);
    assert n.economy.validators == [n.economy.validators[0]];
    assert YesVotes(n.economy.validators, n.status, DAY) == 1;
  }

  /** Beyond a day the rounds' own penalty frees a voter: a lone proposer banned by hand
      for ten days fails a vote, the penalty's day replaces the ten, and on the second day
      the vote passes although no suspension in force at the start has lapsed. */
  lemma PunishmentRestoresVote(env: Env, p: Address, tx: Transaction, seed: nat) returns (steps: seq<Step>, t: State)
    requires p in env.wallets && env.verify(tx) && tx.nonce == 1
    ensures var s := BannedState(p, tx);
      && Init(env, s) && Mutex(s) && BeforeVote(s) && Reaches(env, s, steps, t)
      && !Accepted(s.economy.validators, s.status, s.clock) && NoneLapses(s, t.clock)
      && Accepted(t.economy.validators, t.status, t.clock)
  {
    var before := BannedRun(env, p, tx, seed);
    BannedRoundIsRejected(env, p, tx, seed);
    VotesAfterADay(p, tx);
    t := PunishedState(p, tx).(clock := DAY);
    ReachesOne(env, PunishedState(p, tx), Tick(DAY));
    ReachesConcat(env, BannedState(p, tx), before, PunishedState(p, tx), [Tick(DAY)], t);
    steps := before + [Tick(DAY)];
  }
}
