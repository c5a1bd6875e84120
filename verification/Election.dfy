/** Choosing a proposer by stake and deciding by a two-thirds vote. */
module Election {
  import opened Accounts
  import opened Arithmetic
  import opened Slashing

  // ----- stake-weighted choice

  /** What the ledger returns when there is no stake at all. */
  const NOBODY := Validator(Address(""), 0)

  /** The entry whose stretch of the cumulated stakes contains the residue. */
  function Pick(validators: seq<Validator>, r: int): (i: nat)
    ensures i <= |validators|
  {
    if validators == [] || r < validators[0].stake then 0
    else 1 + Pick(validators[1..], r - validators[0].stake)
  }

  function Select(validators: seq<Validator>, hash: nat): Validator {
    if StakeSum(validators) == 0 then NOBODY
    else
      var i := Pick(validators, hash % StakeSum(validators));
      if i < |validators| then validators[i] else validators[0]
  }

  lemma {:induction false} SumNonNegative(validators: seq<Validator>)
    requires NonNegativeStakes(validators)
    ensures StakeSum(validators) >= 0
  {
    if validators != [] {
      SumNonNegative(validators[1..]);
    }
  }

  /** The fallback return is never reached, and no one without stake is ever picked. */
  lemma {:induction false} PickInRange(validators: seq<Validator>, r: int)
    requires NonNegativeStakes(validators) && 0 <= r < StakeSum(validators)
    ensures Pick(validators, r) < |validators|
    ensures validators[Pick(validators, r)].stake > 0
  {
    if r >= validators[0].stake {
      PickInRange(validators[1..], r - validators[0].stake);
    }
  }

  /** With non-negative stakes the choice falls on the picked entry, which has a stake. */
  lemma SelectNeverFallsBack(validators: seq<Validator>, hash: nat)
    requires NonNegativeStakes(validators) && StakeSum(validators) != 0
    ensures var i := Pick(validators, hash % StakeSum(validators));
      i < |validators| && Select(validators, hash) == validators[i] && validators[i].stake > 0
  {
    SumNonNegative(validators);
    PickInRange(validators, hash % StakeSum(validators));
  }

  lemma {:induction false} SumOfPrefix(validators: seq<Validator>, i: nat)
    requires i < |validators|
    ensures StakeSum(validators[..i + 1]) == StakeSum(validators[..i]) + validators[i].stake
  {
    if i > 0 {
      SumOfPrefix(validators[1..], i - 1);
      assert validators[..i + 1][1..] == validators[1..][..i];
      assert validators[..i][1..] == validators[1..][..i - 1];
    }
  }

  /** The choice, as the ledger's two loops make it. */
  method SelectValidatorVRF(validators: seq<Validator>, hash: nat) returns (v: Validator)
    ensures v == Select(validators, hash)
  {
    var total := 0;
    for i := 0 to |validators|
      invariant total == StakeSum(validators[..i])
    {
      SumOfPrefix(validators, i);
      total := total + validators[i].stake;
    }
    assert validators[..|validators|] == validators;
    if total == 0 {
      return NOBODY;
    }
    var r := hash % total;
    var acc := 0;
    for i := 0 to |validators|
      invariant acc == StakeSum(validators[..i])
      invariant Pick(validators, r) == i + Pick(validators[i..], r - acc)
    {
      SumOfPrefix(validators, i);
      acc := acc + validators[i].stake;
      if r < acc {
        return validators[i];
      }
      assert validators[i..][1..] == validators[i + 1..];
    }
    return validators[0];
  }

  /** The proposer: the choice by stake, or the first who may propose, or the choice
      after all. */
  function SelectEligible(validators: seq<Validator>, status: Status, hash: nat, now: int): Validator {
    var pick := Select(validators, hash);
    if !IsSuspended(status, pick.address, ScopePropose, now) then pick
    else
      var i := FirstEligible(validators, status, now);
      if i < |validators| then validators[i] else pick
  }

  function FirstEligible(validators: seq<Validator>, status: Status, now: int): (i: nat)
    ensures i <= |validators|
    ensures i < |validators| ==> !MayNotPropose(status, validators[i].address, now)
    ensures forall j | 0 <= j < i :: MayNotPropose(status, validators[j].address, now)
  {
    if validators == [] || !IsSuspended(status, validators[0].address, ScopePropose, now) then 0
    else 1 + FirstEligible(validators[1..], status, now)
  }

  /** Proposes as the ledger does, and the proposer is the one the stakes and the records
      determine. */
  method SelectValidatorVRFEligible(validators: seq<Validator>, status: Status, hash: nat, now: int)
    returns (v: Validator)
    ensures v == SelectEligible(validators, status, hash, now)
    ensures NonNegativeStakes(validators) && StakeSum(validators) > 0 ==>
      IsProposer(validators, status, hash % StakeSum(validators), now, v)
    ensures MayNotPropose(status, v.address, now) ==>
      forall j | 0 <= j < |validators| :: MayNotPropose(status, validators[j].address, now)
  {
    if NonNegativeStakes(validators) && StakeSum(validators) > 0 {
      SelectEligibleIsProposer(validators, status, hash, now);
    }
    var pick := SelectValidatorVRF(validators, hash);
    if !IsSuspended(status, pick.address, ScopePropose, now) {
      return pick;
    }
    for i := 0 to |validators|
      invariant forall j | 0 <= j < i :: IsSuspended(status, validators[j].address, ScopePropose, now)
    {
      if !IsSuspended(status, validators[i].address, ScopePropose, now) {
        FirstIs(validators, status, now, i);
        return validators[i];
      }
    }
    return pick;
  }

  lemma FirstIs(validators: seq<Validator>, status: Status, now: int, i: nat)
    requires i < |validators| && !MayNotPropose(status, validators[i].address, now)
    requires forall j | 0 <= j < i :: MayNotPropose(status, validators[j].address, now)
    ensures FirstEligible(validators, status, now) == i
  {
    var f := FirstEligible(validators, status, now);
    assert f >= i;
  }

  /** The residue lies in the stretch of cumulated stake of entry i. */
  ghost predicate InStretch(validators: seq<Validator>, i: nat, r: int) {
    i < |validators| && StakeSum(validators[..i]) <= r < StakeSum(validators[..i]) + validators[i].stake
  }

  /** Entry k may propose, and no entry before it. */
  ghost predicate IsFirstFree(validators: seq<Validator>, status: Status, now: int, k: nat) {
    && k < |validators| && !MayNotPropose(status, validators[k].address, now)
    && forall j | 0 <= j < k :: MayNotPropose(status, validators[j].address, now)
  }

  ghost predicate NoneFree(validators: seq<Validator>, status: Status, now: int) {
    forall j | 0 <= j < |validators| :: MayNotPropose(status, validators[j].address, now)
  }

  /** Given that entry i's stretch holds the residue, who proposes: entry i if it may, else
      the first that may, else entry i after all. */
  ghost predicate ProposesFor(validators: seq<Validator>, status: Status, now: int, i: nat, v: Validator)
    requires i < |validators|
  {
    if !MayNotPropose(status, validators[i].address, now) then v == validators[i]
    else if NoneFree(validators, status, now) then v == validators[i]
    else exists k: nat :: IsFirstFree(validators, status, now, k) && v == validators[k]
  }

  ghost predicate IsProposer(validators: seq<Validator>, status: Status, r: int, now: int, v: Validator) {
    exists i: nat :: InStretch(validators, i, r) && ProposesFor(validators, status, now, i, v)
  }

  lemma PickIsInStretch(validators: seq<Validator>, r: int)
    requires NonNegativeStakes(validators) && 0 <= r < StakeSum(validators)
    ensures InStretch(validators, Pick(validators, r), r)
    ensures forall i: nat :: InStretch(validators, i, r) ==> i == Pick(validators, r)
  {
    PickInRange(validators, r);
    PickStretch(validators, r, Pick(validators, r));
    forall i: nat | InStretch(validators, i, r) ensures i == Pick(validators, r) {
      PickStretch(validators, r, i);
    }
  }

  lemma EligibleProposes(validators: seq<Validator>, status: Status, hash: nat, now: int)
    requires NonNegativeStakes(validators) && StakeSum(validators) > 0
    requires Pick(validators, hash % StakeSum(validators)) < |validators|
    ensures ProposesFor(validators, status, now, Pick(validators, hash % StakeSum(validators)),
      SelectEligible(validators, status, hash, now))
  {
    var f := FirstEligible(validators, status, now);
    if f < |validators| {
      assert IsFirstFree(validators, status, now, f);
    }
  }

  lemma SelectEligibleIsProposer(validators: seq<Validator>, status: Status, hash: nat, now: int)
    requires NonNegativeStakes(validators) && StakeSum(validators) > 0
    ensures IsProposer(validators, status, hash % StakeSum(validators), now,
      SelectEligible(validators, status, hash, now))
  {
    PickIsInStretch(validators, hash % StakeSum(validators));
    EligibleProposes(validators, status, hash, now);
  }

  lemma FirstFreeIsUnique(validators: seq<Validator>, status: Status, now: int, k: nat, l: nat)
    requires IsFirstFree(validators, status, now, k) && IsFirstFree(validators, status, now, l)
    ensures k == l
  {
    assert k >= l && l >= k;
  }

  /** Stakes and records determine the proposer: it is whoever the ledger selects, and nobody
      else. */
  lemma SelectedIffProposer(validators: seq<Validator>, status: Status, hash: nat, now: int, v: Validator)
    requires NonNegativeStakes(validators) && StakeSum(validators) > 0
    ensures v == SelectEligible(validators, status, hash, now) <==>
      IsProposer(validators, status, hash % StakeSum(validators), now, v)
  {
    SelectEligibleIsProposer(validators, status, hash, now);
    if IsProposer(validators, status, hash % StakeSum(validators), now, v) {
      PickIsInStretch(validators, hash % StakeSum(validators));
      EligibleProposes(validators, status, hash, now);
      var i: nat :| InStretch(validators, i, hash % StakeSum(validators)) && ProposesFor(validators, status, now, i, v);
      OneProposesFor(validators, status, now, i, v, SelectEligible(validators, status, hash, now));
    }
  }

  lemma OneProposesFor(validators: seq<Validator>, status: Status, now: int, i: nat, v: Validator, w: Validator)
    requires i < |validators|
    requires ProposesFor(validators, status, now, i, v) && ProposesFor(validators, status, now, i, w)
    ensures v == w
  {
    if MayNotPropose(status, validators[i].address, now) && !NoneFree(validators, status, now) {
      var k: nat :| IsFirstFree(validators, status, now, k) && v == validators[k];
      var l: nat :| IsFirstFree(validators, status, now, l) && w == validators[l];
      FirstFreeIsUnique(validators, status, now, k, l);
    }
  }

  // ----- exact proportionality

  /** Where the stretch of entry i begins and ends. */
  lemma {:induction false} PickStretch(validators: seq<Validator>, r: int, i: nat)
    requires NonNegativeStakes(validators) && 0 <= r < StakeSum(validators) && i < |validators|
    ensures Pick(validators, r) == i <==>
      StakeSum(validators[..i]) <= r < StakeSum(validators[..i]) + validators[i].stake
  {
    if i == 0 {
    } else {
      assert validators[..i][1..] == validators[1..][..i - 1];
      if r >= validators[0].stake {
        PickStretch(validators[1..], r - validators[0].stake, i - 1);
      } else {
        SumNonNegative(validators[1..][..i - 1]);
      }
    }
  }

  /** How many of the hash values below n choose entry i. */
  ghost function Chosen(validators: seq<Validator>, n: nat, i: nat): nat
    requires StakeSum(validators) > 0
  {
    if n == 0 then 0
    else (if Pick(validators, (n - 1) % StakeSum(validators)) == i then 1 else 0) + Chosen(validators, n - 1, i)
  }

  /** The number of hash values below n that choose entry i, exactly: a full stake for
      every whole round of the total, and what the last round covers of its stretch. */
  lemma {:induction false} ChosenExactly(validators: seq<Validator>, n: nat, i: nat)
    requires NonNegativeStakes(validators) && StakeSum(validators) > 0 && i < |validators|
    ensures Chosen(validators, n, i) == Hits(n, StakeSum(validators), StakeSum(validators[..i]), validators[i].stake)
  {
    if n == 0 {
      SumNonNegative(validators[..i]);
    } else {
      ChosenExactly(validators, n - 1, i);
      OneMoreChosen(validators, n, i);
    }
  }

  lemma OneMoreChosen(validators: seq<Validator>, n: nat, i: nat)
    requires NonNegativeStakes(validators) && StakeSum(validators) > 0 && i < |validators| && n > 0
    ensures var t, s, lo := StakeSum(validators), validators[i].stake, StakeSum(validators[..i]);
      Hits(n, t, lo, s) == Hits(n - 1, t, lo, s) + (if Pick(validators, (n - 1) % t) == i then 1 else 0)
  {
    var t, s, lo := StakeSum(validators), validators[i].stake, StakeSum(validators[..i]);
    SumNonNegative(validators[..i]);
    StretchFits(validators, i);
    PickStretch(validators, (n - 1) % t, i);
    OneMoreHit(n, t, lo, s);
  }

  lemma {:induction false} StretchFits(validators: seq<Validator>, i: nat)
    requires NonNegativeStakes(validators) && i < |validators|
    ensures StakeSum(validators[..i]) + validators[i].stake <= StakeSum(validators)
  {
    if i == 0 {
      SumNonNegative(validators[1..]);
    } else {
      StretchFits(validators[1..], i - 1);
      assert validators[..i][1..] == validators[1..][..i - 1];
    }
  }

  /** The number of values of a 256-bit hash. */
  const HASHES: nat := 0x1_0000000000000000_0000000000000000_0000000000000000_0000000000000000

  /** Selection is proportional to stake: over the residues exactly, over all 256-bit
      hash values up to one extra stake. */
  lemma ProportionalToStake(validators: seq<Validator>, i: nat)
    requires NonNegativeStakes(validators) && StakeSum(validators) > 0 && i < |validators|
    ensures var t, s := StakeSum(validators), validators[i].stake;
      && Chosen(validators, t, i) == s
      && (HASHES / t) * s <= Chosen(validators, HASHES, i) <= (HASHES / t) * s + s
  {
    var t, s := StakeSum(validators), validators[i].stake;
    ChosenExactly(validators, t, i);
    ChosenExactly(validators, HASHES, i);
    DivisionUnique(t, t, 1, 0);
    SumNonNegative(validators[..i]);
  }

  // ----- how often an entry proposes

  /** The entry that proposes for this hash value. */
  function ProposerIndex(validators: seq<Validator>, status: Status, hash: nat, now: int): nat
    requires StakeSum(validators) > 0
  {
    var p, f := Pick(validators, hash % StakeSum(validators)), FirstEligible(validators, status, now);
    if p < |validators| && MayNotPropose(status, validators[p].address, now) && f < |validators| then f else p
  }

  lemma ProposerIndexProposes(validators: seq<Validator>, status: Status, hash: nat, now: int)
    requires NonNegativeStakes(validators) && StakeSum(validators) > 0
    ensures var i := ProposerIndex(validators, status, hash, now);
      i < |validators| && SelectEligible(validators, status, hash, now) == validators[i]
  {
    PickInRange(validators, hash % StakeSum(validators));
  }

  /** How many of the hash values below n make entry i the proposer. */
  ghost function Elected(validators: seq<Validator>, status: Status, now: int, n: nat, i: nat): nat
    requires StakeSum(validators) > 0
  {
    if n == 0 then 0
    else
      (if ProposerIndex(validators, status, n - 1, now) == i then 1 else 0) + Elected(validators, status, now, n - 1, i)
  }

  /** The hash values below n that choose one of the first k entries which may not propose. */
  ghost function Passed(validators: seq<Validator>, status: Status, now: int, n: nat, k: nat): int
    requires NonNegativeStakes(validators) && StakeSum(validators) > 0 && k <= |validators|
  {
    if k == 0 then 0
    else
      Passed(validators, status, now, n, k - 1)
      + (if MayNotPropose(status, validators[k - 1].address, now)
         then Hits(n, StakeSum(validators), StakeSum(validators[..k - 1]), validators[k - 1].stake) else 0)
  }

  lemma {:induction false} PassedNone(validators: seq<Validator>, status: Status, now: int, k: nat)
    requires NonNegativeStakes(validators) && StakeSum(validators) > 0 && k <= |validators|
    ensures Passed(validators, status, now, 0, k) == 0
  {
    if k > 0 {
      PassedNone(validators, status, now, k - 1);
      SumNonNegative(validators[..k - 1]);
    }
  }

  lemma {:induction false} OneMorePassed(validators: seq<Validator>, status: Status, now: int, n: nat, k: nat)
    requires NonNegativeStakes(validators) && StakeSum(validators) > 0 && k <= |validators| && n > 0
    ensures var p := Pick(validators, (n - 1) % StakeSum(validators));
      Passed(validators, status, now, n, k) == Passed(validators, status, now, n - 1, k)
        + (if p < k && MayNotPropose(status, validators[p].address, now) then 1 else 0)
  {
    if k > 0 {
      OneMorePassed(validators, status, now, n, k - 1);
      OneMoreChosen(validators, n, k - 1);
    }
  }

  /** How often an entry that may propose does, exactly: for every hash value that chooses it
      by stake, and, if it is the first that may, for every value that chooses one that may
      not. */
  lemma {:induction false} ElectedExactly(validators: seq<Validator>, status: Status, now: int, n: nat, i: nat)
    requires NonNegativeStakes(validators) && StakeSum(validators) > 0
    requires i < |validators| && !MayNotPropose(status, validators[i].address, now)
    ensures Elected(validators, status, now, n, i)
      == Hits(n, StakeSum(validators), StakeSum(validators[..i]), validators[i].stake)
         + (if FirstEligible(validators, status, now) == i then Passed(validators, status, now, n, |validators|) else 0)
  {
    if n == 0 {
      PassedNone(validators, status, now, |validators|);
      SumNonNegative(validators[..i]);
    } else {
      ElectedExactly(validators, status, now, n - 1, i);
      OneMoreChosen(validators, n, i);
      OneMorePassed(validators, status, now, n, |validators|);
      PickInRange(validators, (n - 1) % StakeSum(validators));
      assert FirstEligible(validators, status, now) <= i;
    }
  }

  // ----- the vote

  predicate MayVote(status: Status, v: Validator, now: int) {
    !IsSuspended(status, v.address, ScopeVote, now) && !IsSuspended(status, v.address, ScopeAll, now)
  }

  /** Who votes is whoever no record in force bars from it. */
  lemma MayVoteIff(status: Status, v: Validator, now: int)
    ensures MayVote(status, v, now) <==> !MayNotVote(status, v.address, now)
  {
  }

  /** How many entries of the list vote; every vote cast is a yes. */
  function YesVotes(validators: seq<Validator>, status: Status, now: int): (yes: nat)
    ensures yes <= |validators|
  {
    if validators == [] then 0
    else (if MayVote(status, validators[0], now) then 1 else 0) + YesVotes(validators[1..], status, now)
  }

  /** More than two thirds of all entries, suspended ones included. */
  predicate Accepted(validators: seq<Validator>, status: Status, now: int) {
    3 * YesVotes(validators, status, now) > 2 * |validators|
  }

  lemma {:induction false} YesVotesOfPrefix(validators: seq<Validator>, status: Status, now: int, i: nat)
    requires i < |validators|
    ensures YesVotes(validators[..i + 1], status, now)
         == YesVotes(validators[..i], status, now) + (if MayVote(status, validators[i], now) then 1 else 0)
  {
    if i > 0 {
      YesVotesOfPrefix(validators[1..], status, now, i - 1);
      assert validators[..i + 1][1..] == validators[1..][..i];
      assert validators[..i][1..] == validators[1..][..i - 1];
    }
  }

  /** The vote. Goroutines run in any order, so the next one to send is chosen
      arbitrarily; the channel has room for every entry, so no send blocks. */
  method BftVote(validators: seq<Validator>, status: Status, now: int) returns (accepted: bool)
    ensures accepted <==> Accepted(validators, status, now)
    ensures accepted <==> 3 * (|validators| - YesVotes(validators, status, now)) < |validators|
  {
    var spawned: set<nat> := {};
    for i := 0 to |validators|
      invariant forall j | j in spawned :: j < i
      invariant |spawned| == YesVotes(validators[..i], status, now) <= i
    {
      YesVotesOfPrefix(validators, status, now, i);
      var a := validators[i].address;
      if !(IsSuspended(status, a, ScopeVote, now) || IsSuspended(status, a, ScopeAll, now)) {
        spawned := spawned + {i};
      }
    }
    assert validators[..|validators|] == validators;
    var capacity := |validators|;
    var results: seq<bool> := [];
    while spawned != {}
      invariant |results| + |spawned| == YesVotes(validators, status, now) <= capacity
      invariant forall j | 0 <= j < |results| :: results[j]
      decreases |spawned|
    {
      var voter :| voter in spawned;
      spawned := spawned - {voter};
      assert |results| < capacity;
      results := results + [true];
    }
    var yes := 0;
    for j := 0 to |results|
      invariant yes == j
    {
      if results[j] {
        yes := yes + 1;
      }
    }
    var threshold := |validators| * 2 / 3 + 1;
    accepted := yes >= threshold;
  }

  /** The addresses that vote. */
  ghost function Voters(validators: seq<Validator>, status: Status, now: int): set<Address> {
    set i | 0 <= i < |validators| && MayVote(status, validators[i], now) :: validators[i].address
  }

  ghost function Addresses(validators: seq<Validator>): set<Address> {
    set i | 0 <= i < |validators| :: validators[i].address
  }

  ghost predicate DistinctAddresses(validators: seq<Validator>) {
    forall i, j | 0 <= i < j < |validators| :: validators[i].address != validators[j].address
  }

  lemma HeadAndTail(validators: seq<Validator>, status: Status, now: int)
    requires validators != []
    ensures Addresses(validators) == {validators[0].address} + Addresses(validators[1..])
    ensures Voters(validators, status, now)
         == (if MayVote(status, validators[0], now) then {validators[0].address} else {})
           + Voters(validators[1..], status, now)
  {
    assert forall i | 1 <= i < |validators| :: validators[i] == validators[1..][i - 1];
  }

  lemma {:induction false} CountVoters(validators: seq<Validator>, status: Status, now: int)
    requires DistinctAddresses(validators)
    ensures |Voters(validators, status, now)| == YesVotes(validators, status, now)
    ensures |Addresses(validators)| == |validators|
    ensures Voters(validators, status, now) <= Addresses(validators)
  {
    if validators != [] {
      HeadAndTail(validators, status, now);
      CountVoters(validators[1..], status, now);
      assert validators[0].address !in Addresses(validators[1..]);
    }
  }

  lemma SubsetIsSmaller(a: set<Address>, b: set<Address>)
    requires a <= b
    ensures |a| <= |b|
  {
    assert b == a + (b - a);
  }

  /** Quorum intersection: two accepting votes over the same list, under whatever
      suspensions and times, share more than a third of the validators. */
  lemma QuorumsIntersect(validators: seq<Validator>, status1: Status, now1: int, status2: Status, now2: int)
    requires DistinctAddresses(validators)
    requires Accepted(validators, status1, now1) && Accepted(validators, status2, now2)
    ensures 3 * |Voters(validators, status1, now1) * Voters(validators, status2, now2)| > |validators|
  {
    CountVoters(validators, status1, now1);
    CountVoters(validators, status2, now2);
    var a, b := Voters(validators, status1, now1), Voters(validators, status2, now2);
    SubsetIsSmaller(a + b, Addresses(validators));
    assert |a| + |b| == |a + b| + |a * b|;
  }
}
