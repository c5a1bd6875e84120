# A verified model of the hyperlux-chain ledger core

The project models the part of the node where money, nonces and blocks change hands, and proves
what it keeps over every run:

- **Batch execution** (`Batch`, `WorkerPool`, `Pending`): a mempool snapshot is partitioned by
  sender, each partition is sorted by nonce and simulated by one of a pool of workers, the accepted
  lists are gathered in whatever order they arrive and committed in one go. The parallel form is
  proved to refine execution one transaction at a time.
- **Blocks** (`Encoding`, `Transactions`, `Merkle`, `Chain`): the texts that are hashed and their
  parsers, the Merkle tree that pairs an odd node with itself, the hash-linked chain.
- **Slashing and election** (`Slashing`, `Penalties`, `Election`, `Quorum`): stake cuts, the division
  of what was cut, suspensions, stake-weighted choice, the two-thirds vote. `Penalties` says of each
  place and account what a slash does to it, in amounts; `Election` says who proposes, in stakes and
  records.
- **The protocol** (`Protocol`): one transition system in which racy admissions, overlapping commit
  calls, airdrops, slashes and suspensions interleave lock region by lock region. A step carries the
  choices its transition makes (slot hash, clock, arrival order), so state and step determine the
  next state. `NonceSafety`, `ChainSafety`, `HeadOfLine`, `Economics`, `Ledger` and `Quorum`
  prove its properties over whole runs.
- **The code's own form** (`Node`, `Rounds`, `Gateway`): a class whose fields are the ledger's
  globals, with the loops of the source, each method proved against the functions that the protocol
  is built from. `Rounds.EffectIsARun` closes the circle: what `Node.CommitBlock` does when nobody
  interferes is a run of the protocol, and `Rounds.AdmissionIsARun` does the same for admissions.

`Accounts` holds addresses and balance tables, `Arithmetic` the facts about division and real products.

How the environment enters:

- SHA-256 is an arbitrary function from texts to 32-byte digests. No theorem assumes it injective;
  those that need it ask for the absence of a collision on a named finite set of texts, those that
  were really hashed (`NoCollision`, `HashedTexts`, `ChainTexts`).
- Signature checking is an arbitrary predicate on transactions. Only the theorems about the tip hash
  use that a signature that passes has 128 hexadecimal digits; this is what keeps transaction texts
  longer than the 64 bytes of an inner node, as the tree has no prefixes that separate them.
  `ChainSafety.SeparatorHidesParties` uses that it sees the signed text, signature and key only.
- Clock readings, the slot hash and the order in which goroutines run are parameters or arbitrary
  choices. Maps are iterated in any order.
- Amounts, fees and stakes may be negative, as in the source, unless a theorem says otherwise.

What the model shows about the code that its comments do not say:

- Two payments made by one sender before the next block carry the same nonce and are both admitted.
  If the sender can pay for each, the next approved round takes one of them, and one with another
  hash stays pending for good and shuts out its sender (`HeadOfLine.TwinPaymentsHappen`,
  `HeadOfLine.TwinPaymentsShutOutTheirSender`). A pending transaction with a spent nonce blocks its
  sender exactly when the round in flight can neither serve the sender any more nor will purge the
  transaction (`HeadOfLine.ShutOutIffBlocked`); the transactions just committed are such spent ones
  too until their round purges them (`HeadOfLine.CommittedIsSpentUntilPurged`).
- A transaction that passes the limiter and finds its shard full is counted both as dropped and as
  accepted. The two counters add up to the number of calls exactly when every call that passes the
  limiter finds room (`Gateway.CountersAddUpIff`, `Gateway.BurstIsCountedTwice`).
- A later suspension replaces an earlier one even if it is milder or shorter. A downtime slash gives
  a fully suspended validator its vote back (`Quorum.DowntimeSlashRestoresVote`), and the penalty for
  a failed vote cuts a longer ban from voting to a day, after which votes pass again
  (`Quorum.PunishmentRestoresVote`). `Quorum.StepKeepsSilenceIff` says which steps do so.
- With a separator in an address, a transfer between other parties has the same hashed text, and
  two different chains the same tip hash (`Transactions.TextDeterminesIffPlain`,
  `ChainSafety.SeparatorHidesParties`).

## Model

| member | source | states |
|---|---|---|
| Accounts.TotalWithout | ledger/state.go:11-14 | the grand total of a balance map does not depend on iteration order |
| Accounts.TotalCredit | ledger/transaction.go:218-219 | crediting one account changes the grand total by exactly that amount, missing accounts included |
| Encoding.ParseSignedInvertsSigned | ledger/block.go:58 | `%d` of any signed integer is read back by the parser |
| Encoding.CutInvertsField | ledger/block.go:58 | a field without the separator can be split off whatever text follows it |
| Encoding.UnhexInvertsHex | ledger/transaction.go:268 | hexadecimal text determines the bytes it was made from |
| Encoding.HexInjective | ledger/transaction.go:268 | different bytes have different hexadecimal texts |
| Transactions.ParseTxInvertsTxText | ledger/transaction.go:264-267 | splitting and parsing the hashed text returns every hashed field, if addresses hold no separator |
| Transactions.TxTextInjective | ledger/transaction.go:264-267 | equal texts exactly for equal hashed fields (fee and public key are not hashed) |
| Transactions.TxTextAmbiguousWithBar | ledger/transaction.go:265-266 | every transfer with a separator in an address has one between other parties, equal in all else, with the same text |
| Transactions.TextDeterminesIffPlain | ledger/transaction.go:264-267 | the text determines the hashed fields exactly when no address holds a separator |
| Transactions.TxHashInjective | ledger/transaction.go:264-269 | equal hashes exactly for equal hashed fields, unless the hash collides on the two texts |
| Merkle.HeightIsCeilLog | ledger/block.go:40-53 | the number of levels is the logarithm of the number of leaves, rounded up |
| Merkle.PaddedRow | ledger/block.go:46-50 | the bottom row starts with the leaves in order, every later entry copies an earlier one |
| Merkle.PaddedLevel | ledger/block.go:42-51 | padding commutes with hashing one level: the odd node paired with itself is the padding |
| Merkle.RootIsPerfectRoot | ledger/block.go:39-54 | the level-by-level loop yields the root of the perfect binary tree over the padded row |
| Merkle.HashLevel | ledger/block.go:41-51 | one pass of the inner loop pairs neighbours and the odd last node with itself |
| Merkle.HashLeaves | ledger/block.go:32-38 | the leaves are the transaction hashes in order, taken back from hexadecimal |
| Merkle.ComputeMerkleRoot | ledger/block.go:28-55 | terminates and computes the root in hexadecimal, the empty text for no transactions |
| Merkle.PaddedInjective | ledger/block.go:46-50 | padding hides the length of a list only if the list has repetitions |
| Merkle.SameHeightSameRow | ledger/block.go:40-53 | without collisions, trees of one height and one root have the same bottom row |
| Merkle.LeafInsideTallerTree | ledger/block.go:40-53 | equal roots of different heights force a leaf of one to be an inner node of the other |
| Merkle.EqualRootsIffEqualRows | ledger/block.go:28-55 | two batches have the same root exactly when their padded rows are the same |
| Merkle.MerkleBinding | ledger/block.go:28-55 | two batches without a repeated (sender, nonce) have the same root exactly when they are the same list |
| Merkle.RepeatedLastKeepsRoot | ledger/block.go:46-50 | for every hash, repeating the last of three transactions keeps the root: binding needs distinctness |
| Chain.ParseHeaderInvertsHeaderText | ledger/block.go:57-61 | the header text determines index, time, link, root and proposer |
| Chain.ChainTxsOfAppended | ledger/block.go:123-131 | appending a block, genesis included if needed, adds exactly its batch to the chain's transactions |
| Chain.AppendedBlock | ledger/block.go:123-131 | the new block field by field: its own clock reading, no proposer, the batch, the link; a genesis block only on an empty chain, older blocks stay |
| Chain.AppendedIsValid | ledger/block.go:123-131 | the append keeps index, link, root and hash of every block right |
| Chain.EqualHashSameBlock | ledger/block.go:57-80 | equal block hashes mean equal headers and equal batches, up to the fields not hashed |
| Chain.TipHashFixesChain | ledger/block.go:57-80 | two valid chains with the same tip hash have the same length, headers and transactions |
| Chain.SameTextSameTip | ledger/block.go:57-80 | batches of one transaction with one text give chains with one tip hash, the same only for the same fields |
| Batch.AcceptIsLongestAffordablePrefix | ledger/transaction.go:177-195 | a worker accepts the longest prefix that runs on the sender's snapshot nonce and balance |
| Batch.AffordableNonces | ledger/transaction.go:182-193 | what is accepted carries the next nonces in order and good signatures |
| Batch.CommitAllNonces | ledger/transaction.go:217-221 | the commit leaves each sender the nonce of its last transaction, others unchanged |
| Batch.CommitAllTotal | ledger/transaction.go:217-221 | the commit takes exactly the fees out of the total, self-transfers included |
| Batch.OutcomePerSender | ledger/transaction.go:204-210 | whatever the arrival order, each sender has in the result exactly what its worker accepted |
| Batch.OutcomeSelfFinanced | ledger/transaction.go:175-198 | every sender's part of the result runs on the snapshot alone |
| Batch.OutcomeMembers | ledger/transaction.go:128-132 | the result only holds transactions of the snapshot |
| Batch.OutcomeExists | ledger/transaction.go:123-227 | every snapshot has a result |
| Batch.SoleOutcome | ledger/transaction.go:123-227 | a lone transaction that could be executed now is the whole result |
| Batch.SelfFinancedExecutes | ledger/transaction.go:213-224 | a self-financed batch executes one by one in any interleaving, on any balances at least the budget |
| Batch.ParallelRefinesSequential | ledger/transaction.go:123-227 | the parallel result replayed one by one never fails a check, ends as the commit does, never goes negative, even after other credits |
| Batch.AtMostOnePerSender | ledger/transaction.go:181-195 | if nobody runs ahead of the next nonce, a batch takes at most one transaction per sender |
| Batch.SpentNonceBlocks | ledger/transaction.go:133-137 | one pending transaction with a spent nonce keeps its whole sender out of the batch |
| Batch.BatchServesSenderIff | ledger/transaction.go:175-198 | exactly when a sender whose next transactions would pass is served |
| Batch.ServedExactlyOnce | ledger/transaction.go:175-198 | several ready transactions with one nonce: exactly one is taken |
| Batch.ServedOnlyIf | ledger/transaction.go:175-198 | whoever is served has nothing spent in the snapshot and a transaction that passes |
| Batch.OutcomeServing | ledger/transaction.go:133-137 | equal nonces sort in any order: any passing transaction of a sender with nothing else but its next nonce can be the one served |
| Batch.CommitIgnoresSenderOrder | ledger/transaction.go:213-224 | the committed state depends only on each sender's own list |
| Batch.ScheduleInvisible | ledger/transaction.go:200-224 | for fixed sorted partitions, accepted lists and state do not depend on the schedule |
| Batch.OutcomesAgree | ledger/transaction.go:129-137 | if sender and nonce identify a transaction, neither map order nor sort order shows either |
| WorkerPool.StepKeepsCopies | ledger/transaction.go:175-198 | no scheduling step loses or duplicates a job |
| WorkerPool.SendsAreSafe | ledger/transaction.go:196 | no send on a closed result channel, and a send always finds room |
| WorkerPool.StepsTerminate | ledger/transaction.go:175-211 | every step does some of a finite amount of work |
| WorkerPool.StuckMeansDone | ledger/transaction.go:163-211 | no deadlock: what cannot move has closed the channel, ended all workers, collected one result per partition |
| WorkerPool.EveryScheduleYieldsOutcome | ledger/transaction.go:163-211 | every schedule works each partition once and ends with a result of the executor |
| WorkerPool.EveryRunFinishes | ledger/transaction.go:163-211 | from the start every run is bounded, and one that cannot be extended has ended all workers, closed the channel and gathered a result |
| Slashing.Find | ledger/validator.go:195-202 | the first entry with the address, or none |
| Slashing.CutLeavesStakes | ledger/validator.go:204-217 | what is cut leaves the stakes, clamped so that none gets negative, and moves nobody in the list |
| Slashing.PolicyPot | ledger/validator.go:223-227 | the parts never exceed the total; the honest pot is its twentieth, plus less than three |
| Slashing.SharesBounds | ledger/validator.go:255-263 | the remainders of all shares sum to less than one divisor per positive stake |
| Slashing.DustBound | ledger/validator.go:245-269 | rounding leaves at most k-1 units for k others with stake, none for k = 0 |
| Slashing.DistributeWorth | ledger/validator.go:219-269 | any fair division brings back everything that was cut, except the dust |
| Slashing.SlashConserves | ledger/validator.go:312-350 | a slash conserves stakes, balances, treasury and burned supply together, up to the bounded dust |
| Slashing.SlashCreditsOnly | ledger/validator.go:312-350 | a slash never debits a balance |
| Slashing.SlashLowersStake | ledger/validator.go:312-334 | the total stake falls by what was taken, and something is taken exactly from a listed positive stake |
| Slashing.SlashKeepsList | ledger/validator.go:204-217 | a slash keeps the list of addresses |
| Slashing.ClusterConserves | ledger/validator.go:294-309 | a joint penalty loses no more than the dust of its two slashes |
| Slashing.SuspendedIff | ledger/validator.go:103-123 | who is suspended from proposing, voting or everything, by the fields of the record: until when and with which scope |
| Penalties.SlashCutsOffenderOnly | ledger/validator.go:204-217 | a slash takes what is asked from the first entry of the offender, down to nothing, and from no other entry |
| Penalties.AskedOfBase | ledger/validator.go:323-325 | a positive multiplier other than one scales what is asked, rounded down |
| Penalties.BaseOfParams | ledger/validator.go:313-322 | an absolute amount if there is one, else the part of the stake, rounded down but at least one |
| Penalties.DowntimeTakes | ledger/validator.go:179-193 | a downtime slash takes a ten-thousandth of the stake, rounded down but at least one, nothing without stake |
| Penalties.SlashSuspends | ledger/validator.go:346-350 | a slash that takes something leaves exactly its suspension on the offender, whatever the old record, and no other record changes; otherwise none does |
| Penalties.DowntimeBarsFromProposing | ledger/validator.go:276-279 | after a downtime slash no proposing for exactly five minutes, and voting at once |
| Penalties.SafetyBarsForADay | ledger/validator.go:281-288 | after a safety slash neither voting nor proposing for exactly a day |
| Penalties.PaySharesAt | ledger/validator.go:255-263 | the redistribution loop gives each account the sum of its entries' floor shares, and the offender nothing |
| Penalties.DistributePays | ledger/validator.go:219-269 | any fair division, place by place: burned, treasury, and every single account |
| Penalties.SafetySlashPays | ledger/validator.go:219-269 | of a safety slash 70 percent are burned, 15 go to the treasury, 10 to the reporter or the treasury, the rest to the others by stake or the treasury; every account named |
| Penalties.DowntimeSlashBurnsAll | ledger/validator.go:338-341 | a downtime slash burns all it takes; treasury and balances stay |
| Penalties.NothingTakenNothingMoved | ledger/validator.go:326-334 | a slash that takes nothing moves no money |
| Penalties.ClusterCuts | ledger/validator.go:294-309 | every stake after a joint penalty: 40 percent, rounded down, from the main validator, the rest from its partner, also if the two are one |
| Penalties.PartsSuspend | ledger/validator.go:300-308 | a joint penalty suspends exactly those it hits, for a day, and nobody else |
| Election.SelectNeverFallsBack | consensus/consensus.go:159-167 | with stakes not negative the fallback is unreachable and whoever is chosen has a stake |
| Election.SelectValidatorVRF | consensus/consensus.go:147-168 | the two loops compute the entry whose stretch of cumulated stake holds the residue |
| Election.PickStretch | consensus/consensus.go:161-166 | entry i is chosen exactly for the residues of its own stretch |
| Election.ChosenExactly | consensus/consensus.go:148-166 | how many of the hash values below n choose entry i, exactly |
| Election.ProportionalToStake | consensus/consensus.go:147-168 | exactly stake-many residues, and of all 256-bit values the proportional number up to one stake |
| Election.FirstEligible | consensus/consensus.go:176-180 | the first entry without a record in force that covers proposing |
| Election.SelectValidatorVRFEligible | consensus/consensus.go:171-182 | returns the entry whose stretch of cumulated stake holds the residue if it may propose, else the first that may, else that entry after all |
| Election.SelectedIffProposer | consensus/consensus.go:171-182 | stakes, residue and records determine the proposer: it is whoever is selected, and nobody else |
| Election.ElectedExactly | consensus/consensus.go:147-182 | how many of the hash values below n make an entry the proposer: those of its stretch, and for the first that may propose those of all stretches that may not |
| Election.MayVoteIff | consensus/consensus.go:223-226 | who votes is whoever no record in force with scope vote or all bars |
| Election.BftVote | consensus/consensus.go:218-258 | in every goroutine order: accepted exactly when 3 yes > 2 n, equally when 3 suspended < n; no send blocks |
| Election.CountVoters | consensus/consensus.go:223-226 | with distinct addresses the yes votes count the voters |
| Election.QuorumsIntersect | consensus/consensus.go:249-255 | two accepting votes over one list share more than a third of the validators |
| Pending.KeptCounts | ledger/transaction.go:106-111 | what is not dropped is kept as often as it was there |
| Pending.RoundConservesPending | ledger/transaction.go:91-113 | each pending transaction stays or shares a hash with a committed one; later arrivals survive; order is kept |
| Pending.CollectHashes | ledger/transaction.go:95-98 | the deletion table holds exactly the hashes of the committed transactions |
| Pending.Mempool.Append | ledger/transaction.go:76 | adds at the end, in place or in a larger array |
| Pending.Mempool.Snapshot | ledger/transaction.go:83-89 | a fresh copy that later changes do not reach |
| Pending.Mempool.FilterInPlace | ledger/transaction.go:106-112 | no element is overwritten before it is read: the result is the kept subsequence |
| Pending.Mempool.RemoveCommitted | ledger/transaction.go:91-113 | exactly the transactions that share a hash with a committed one go, the order stays |
| Pending.Mempool.Clear | ledger/transaction.go:115-119 | an empty mempool in a new slice |
| Protocol.StepKeepsMutex | consensus/consensus.go:69-72 | a call past the guard is the one that holds it |
| Protocol.MempoolGrows | ledger/transaction.go:75-77 | only a purge takes anything out of the mempool, only an admission adds to it |
| Protocol.RoundInherits | consensus/consensus.go:107-112 | the snapshot of a round is the mempool it was taken from and stays with the round |
| NonceSafety.ExecuteRaisesNonces | ledger/transaction.go:217-221 | a commit raises each nonce by the number of the sender's transactions, which carry the nonces in between |
| NonceSafety.StepKeepsPendingBound | ledger/transaction.go:55-79 | stale reads in an admission cannot let a transaction run ahead |
| NonceSafety.StepKeepsInv | consensus/consensus.go:67-123 | every step of the protocol keeps guard, snapshots, nonce counts, proper batches and the valid chain |
| NonceSafety.NoReplay | consensus/consensus.go:67-123 | in every run each sender's nonces along the chain are exactly 1, 2, ..., its table entry, in order |
| NonceSafety.NoPairTwice | consensus/consensus.go:106-112 | at every moment chain and batch in flight hold no (sender, nonce) twice |
| NonceSafety.OnePendingNonceAhead | ledger/transaction.go:55-79 | in every reachable state pending nonces are at most the next one, and each block has at most one transaction per sender |
| NonceSafety.EveryTransactionIsSigned | ledger/transaction.go:55-79 | in every reachable state no transaction without a good signature is pending or on the chain |
| ChainSafety.OneRoundAtATime | consensus/consensus.go:69-72 | overlapping calls: at most one is past the guard |
| ChainSafety.RunIsExecuted | ledger/block.go:123-131 | in every run index, link, root and hash are right and batches are free of repetition |
| ChainSafety.TipHashFixesRun | ledger/block.go:57-80 | two runs with the same tip hash built the same chain, unless the hash collides |
| ChainSafety.SeparatorHidesParties | ledger/block.go:57-80 | plain addresses are needed: otherwise two runs reach one tip hash with different chains, whatever the hash |
| ChainSafety.RoundCanStep | consensus/consensus.go:67-123 | a round is never stuck |
| ChainSafety.RoundAdvances | consensus/consensus.go:67-123 | its own steps move a round on or release the guard, other steps do not touch it |
| HeadOfLine.PlainBatchIsApart | ledger/transaction.go:264-269 | when a pending transaction cannot be purged for another sender's: plain addresses, no collision |
| HeadOfLine.SpentNonceBlocksForGood | ledger/transaction.go:133-137 | in every later state a blocked spent transaction is pending, its sender has committed nothing more and its nonce stands still |
| HeadOfLine.ShutOutIffBlocked | ledger/transaction.go:133-137 | a pending spent nonce shuts its sender out for good exactly when the round in flight can neither serve the sender nor will purge it |
| HeadOfLine.CommittedIsSpentUntilPurged | consensus/consensus.go:107-112 | from every start a state is reachable in which a committed transaction is pending with a spent nonce, and is purged |
| HeadOfLine.TwinsArePending | ledger/transaction.go:29-51 | two payments that could each be executed now are both admitted, one after the other |
| HeadOfLine.LeftPendingIffTwins | ledger/transaction.go:91-113 | a batch leaves a ready sender something pending exactly when two of its pending transactions have different hashes |
| HeadOfLine.TwinPaymentsShutOutTheirSender | consensus/consensus.go:107-112 | in any interleaving, executing a snapshot with two such payments commits one, and one shuts out the sender in every later state |
| HeadOfLine.TwinPaymentsHappen | consensus/consensus.go:67-123 | from every start this state is reached by two admissions and an approved call |
| HeadOfLine.RoundConservesMempool | consensus/consensus.go:107-112 | in every run each snapshot transaction is in the block, shares a hash with one, or stays pending; later ones stay |
| Economics.MoneyConserved | ledger/block.go:133-140 | in every run: balances, stakes, treasury and burned equal the start plus 5 per block plus airdrops minus dust |
| Economics.DustOverRun | ledger/validator.go:255-263 | over a run rounding loses at most one unit per slash and validator |
| Economics.StepOnlyCredits | ledger/validator.go:245-264 | without negative inputs no step but a commit lowers any balance, and no stake ever gets negative |
| Economics.EveryCommitIsSequential | ledger/transaction.go:123-227 | in every run without negative inputs each commit is a sequential execution and no balance is ever negative |
| Ledger.ChooseElects | consensus/consensus.go:84-94 | in any state of the protocol the choice falls on the one whom stakes and records determine, and on nobody if there is no wallet for it |
| Ledger.DecideElects | consensus/consensus.go:67-104 | a whole call approves or rejects that one, by more than two thirds, exactly when nothing stops it before |
| Ledger.EveryProposerHasWallet | consensus/consensus.go:89-94 | in every run whoever proposes has a wallet here |
| Ledger.PunishBarsForADay | consensus/consensus.go:100-104 | a refused proposer loses up to ten of its stake and can neither vote nor propose for exactly a day, whatever its record was |
| Ledger.StepChanges | ledger/transaction.go:213-224 | what each protocol step does to each account |
| Ledger.BalanceIsSumOfChanges | ledger/transaction.go:213-224 | every account at every moment of every run: the start plus payments, fees, airdrops, rewards and shares of slashes |
| Ledger.BatchPaysProposer | ledger/block.go:133-140 | an approved call, account by account: what the batch moves, and fees plus 5 for the proposer alone |
| Quorum.StepKeepsSilenceIff | ledger/validator.go:125-132 | a step keeps every silenced voter silent exactly when it does not write a milder or shorter suspension over a silenced one |
| Quorum.LostQuorumStaysLost | consensus/consensus.go:100-104 | too many silenced for a quorum and none freed on the way: no vote passes, no block, no nonce moves |
| Quorum.FailedVoteIsAbsorbing | consensus/consensus.go:100-104 | after a failed vote no block is appended until a suspension lapses or a step frees a voter, and the eligible voters only shrink |
| Quorum.HarshRunIsAbsorbing | consensus/consensus.go:100-104 | rounds, admissions and safety slashes free nobody within a day |
| Quorum.RefusedRoundLowersStake | consensus/consensus.go:100-104 | a failed round lowers the total stake by what its proposer holds, up to ten |
| Quorum.DowntimeSlashRestoresVote | ledger/validator.go:125-132 | a milder suspension replaces a stricter one: the validator votes again |
| Quorum.PunishmentRestoresVote | consensus/consensus.go:100-104 | the penalty of a failed round shortens a longer ban: a run in which the vote passes again though nothing has lapsed |
| Gateway.TokenBucket.constructor | network/network.go:70-72 | a full bucket |
| Gateway.TokenBucket.Allow | network/network.go:74-90 | the tokens afterwards, plus one if admitted, are the smaller of the scaled burst and old tokens plus elapsed x rate x weight; admitted exactly when that is a whole token |
| Gateway.CallExactly | network/network.go:74-90 | the same of the bucket function on values |
| Gateway.IdleBucketAdmits | network/network.go:74-90 | a bucket idle for 1/rate admits the next call |
| Gateway.SpacedCallsAdmitted | network/network.go:74-90 | over any calls: those at least 1/rate apart are all admitted, from a bucket that holds a token |
| Gateway.OneCall | network/network.go:74-90 | one call neither overfills the bucket nor admits without a whole token |
| Gateway.AdmittedBound | network/network.go:74-90 | over any calls: 0 <= tokens <= 4 bursts, and admitted <= tokens at the start + 4 rate x time |
| Gateway.LaneFor | network/network.go:270-285 | lane and weight as LaneCases says, weight always from 1 to 4 |
| Gateway.LaneCases | network/network.go:261-285 | the first entry of the sender gives the fast lane and its stake weight up to 4; others go slow below 1200, normal below 5000, fast from there, at weight 1 |
| Gateway.ShardFor | network/network.go:253-257 | a shard of the sender alone, within range |
| Gateway.SenderOrderKept | network/network.go:230-257 | each sender is validated in enqueue order; enqueued + dropped = calls |
| Gateway.CountedOnceIff | network/network.go:287-315 | accepted + dropped rise by one for a call exactly when it is limited or its shard has room |
| Gateway.CountersAddUpIff | network/network.go:287-315 | accepted + dropped = calls exactly when every call that passes the limiter finds room |
| Gateway.BurstIsCountedTwice | network/network.go:305-315 | from every start, one more offer than a shard holds is accepted every time and dropped once |
| Gateway.Front.constructor | network/network.go:230-251 | three full lanes, two empty shards per processor |
| Gateway.Front.AcceptTx | network/network.go:287-303 | rate limit on public nodes only, of the transaction's lane only, then enqueue; counters as in the source |
| Gateway.Front.EnqueueShard | network/network.go:305-315 | appends to the sender's shard or drops when full, never blocks |
| Gateway.Front.Serve | network/network.go:243-247 | a consumer takes the oldest of its shard |
| Rounds.EffectIsARun | consensus/consensus.go:67-123 | what an undisturbed call does is a run of the protocol that takes its steps from entry to exit |
| Rounds.AdmissionIsARun | ledger/transaction.go:55-79 | an undisturbed admission is a run of the protocol and admits exactly what could be executed now |
| Rounds.LoneTransactionCommits | consensus/consensus.go:67-123 | one admission and one approved call put an executable transaction on the chain |
| Node.SortByNonce | ledger/transaction.go:134-136 | some permutation in nonce order |
| Node.Partition | ledger/transaction.go:129-132 | one partition per sender, in snapshot order |
| Node.SortPartitions | ledger/transaction.go:133-137 | every partition sorted, nothing lost |
| Node.RunJob | ledger/transaction.go:177-195 | the worker's loop accepts what Accept accepts |
| Node.Collect | ledger/transaction.go:200-211 | one result per partition, in an arbitrary order |
| Node.MakeBlock | ledger/block.go:63-80 | header, root and hash of a block with an empty proposer |
| Node.Node.constructor | ledger/state.go:11-32 | an empty ledger with these balances and validators |
| Node.Node.ValidateAndAddToMempool | ledger/transaction.go:55-79 | admits exactly what could be executed now, and changes nothing else |
| Node.Node.ProcessTxListParallel | ledger/transaction.go:123-227 | returns some outcome of the snapshot and commits it |
| Node.Node.ProcessMempoolParallel | ledger/transaction.go:229-232 | the same for the current mempool, which stays |
| Node.Node.CommitBatch | ledger/transaction.go:213-224 | the commit loop |
| Node.Node.AddBlockWithTxs | ledger/block.go:123-150 | genesis if needed, the block, and fees plus 5 to the validator |
| Node.Node.AppendBlock | ledger/block.go:124-131 | genesis if needed, then the block on the tip |
| Node.TotalFees | ledger/block.go:134-137 | the fee loop |
| Node.Node.FindValidator | ledger/validator.go:195-202 | the linear search |
| Node.Node.SlashSingle | ledger/validator.go:204-217 | cuts the stake in place and returns what was taken |
| Node.Node.DistributeSlashed | ledger/validator.go:219-272 | sinks, whistleblower and honest validators; Penalties.DistributePays says how much each gets |
| Node.Node.PayHonestShares | ledger/validator.go:255-263 | the redistribution loop |
| Node.Node.SuspendValidator | ledger/validator.go:125-132 | writes the new record over the old one |
| Node.Node.ResolveAmount | ledger/validator.go:313-325 | the amount asked for, with the minimum of one and the multiplier |
| Node.Node.ApplySlash | ledger/validator.go:312-353 | money and suspensions after a slash, as Penalties.SafetySlashPays, DowntimeSlashBurnsAll and SlashSuspends spell out |
| Node.Node.SlashCluster | ledger/validator.go:294-309 | 40 percent to the main validator, the partner first; stakes and suspensions, as Penalties.ClusterCuts and PartsSuspend spell out |
| Node.Node.CommitBlock | consensus/consensus.go:67-123 | nothing, a slashed proposer, or a committed, chained, paid and purged batch; the guard is always released |

## Left out

- Slashing.PolicyPot: the percentages are exact (70, 15 and 10 hundredths, rounded down); a float product may fall on the other side of an integer. Slashing.DistributeWorth and Slashing.DustBound hold for any fair division.
- Penalties.SafetySlashPays: the percentages are exact, as in Slashing.PolicyPot; Penalties.DistributePays holds for any fair division.
- Penalties.DowntimeTakes: the ten-thousandth is exact; the float product may fall on the other side of an integer.
- Node.Node.ResolveAmount: percentage and multiplier are reals, without float rounding.
- Gateway.AdmittedBound: the bucket is computed on reals, without float rounding.
- Gateway.SpacedCallsAdmitted: on reals too; with floats a call exactly 1/rate after the last may find a little less than a token.
- Election.SelectedIffProposer: needs stakes that are not negative and a positive total, as the source takes for granted; Node.Node.CommitBlock covers all stakes.
- Election.BftVote: all suspensions are read at one clock reading.
- Node.Node.ApplySlash: happens at one clock reading and in one step of the protocol; the data races on the validator list and on the sinks, which the source does not lock, are not modelled.
- Gateway.SenderOrderKept: an offer changes queue and counters in one step, while the source enqueues and counts in separate atomic operations, so the tally holds between calls only.
- Gateway.CountersAddUpIff: holds between calls only, for the same reason.
- Gateway.ShardFor: any function of the sender to a natural number stands for the 32-bit FNV hash; a negative index from its sign on a 32-bit machine does not occur.
- Gateway.Front.constructor: starts the ingress at once; the unsynchronised start from within the first call to reach an unstarted ingress is not modelled.
- Node.SortByNonce: the library's sorting algorithm is not modelled, only that it may return any permutation in nonce order.
- Economics.EveryCommitIsSequential: needs amounts, fees, airdrops and stakes that are not negative, as the source checks none of them.
- Quorum.FailedVoteIsAbsorbing: needs that no step frees a voter who is suspended; Quorum.DowntimeSlashRestoresVote and Quorum.PunishmentRestoresVote are runs of the code in which one does.
- HeadOfLine.ShutOutIffBlocked: later batches, and a snapshot in hand, must not hold another sender's transaction with the same hash; HeadOfLine.PlainBatchIsApart says when they cannot.
- ChainSafety.TipHashFixesRun: speaks of transactions whose addresses hold no separator; ChainSafety.SeparatorHidesParties shows that this is needed.
- 64-bit wrap-around: integers are unbounded, so an overflow of `hon * v.Stake` or of a balance is not modelled.
- Ed25519, SHA-256 and JSON themselves; the fee is given data, not the size of an encoding.
- The hash chain that produces slot hashes: the slot hash is any number.
- The stored proposer is the empty text in every block, because the append passes no wallet on; nothing is claimed about it.
- Persistence: loading and saving are no-ops, and runs start from a state without pending or spent nonces.
- Blocks received by gossip and the legacy append, which both bypass the batch's checks.
- Delegates, checkpoints, metrics, peers, roles, wallets' files, command line, RPC and the execution stubs.
