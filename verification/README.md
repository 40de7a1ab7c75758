# QuorumCredit: verified model of the contract's state machines

QuorumCredit is a lending contract for the Soroban host. This project models the modules of the contract that
carry its protocols and its arithmetic, and proves what they promise over all inputs and all runs:

- **Audit trails.** `AuditCodec` is the binary archive format, `AuditTrail` the hot trail and its digest-protected
  archives, `VouchAudit` the simpler window-and-batches trail. Both stores refine a plain log of all events.
- **Rate limits and batches.** `RateLimit` is the token bucket with its two floor divisions. `CredentialBatch`
  validates a batch of operations on the two stores above before it applies any of them.
- **Numbers.** `IntegerSqrt` is Newton's method on fixed-width integers, `CreditScore` the stake-time score built on
  it, `OrderStatistics` the in-place exchange sort, and `EconomicSimulation` the risk metrics built on both.
- **Inheritance.** `InheritanceGraph` has the graph argument, `FieldPermissions` the contract's calls.
- **Value.** `Auction`, `BondProtection`, `CollateralPool`, `BatchTransfer` and `Appeal` keep or hand out money,
  `SlashVote` counts stake. `TokenLedger`, `Vouches` and `Sums` are the balances, vouch records and sums they share.

`Host` has what the contract receives from outside (accounts, integer ranges, outcomes of a call), `Sequences` and
`Chains` notions about lists and linked accounts and `Arith` facts about products and floor division.

Each module has the same shape. Values and transitions are datatypes and functions from a state to a state and a
result; a class keeps the contract's storage in fields, and its methods follow the code branch by branch and loop by
loop. The contract of a method equates the new storage and the result with a transition, for every outcome. Runs are
lists of operations with arbitrary arguments, and the main results are lemmas about all of them.

## What the host does

A call that returns `Err` leaves no trace, since the host discards the writes of a failing invocation
(src/credential_batch.rs:13-15). The contract is built with overflow checks (Cargo.toml:35), so an unchecked
operation that leaves its type aborts the call: the transitions report `Overflow` and keep the state. Checked and
saturating operations are modelled as written. Ledger time is a parameter of each call and does not run backwards.
Hashing is an arbitrary function. Whether a signature verifies, an account authorizes or a payer can pay is a
parameter, and the simulation's random draws are a list.

## Where the code does something other than its documentation says

The model follows the code. These differences are theorems:

- The rate limiter is documented to cap attempts for every configuration (src/credential_rate_limit.rs:3-6). A cap
  exists if and only if the limit does not lie strictly between the window's seconds and twice that number; in
  between, a refill earns one token per second but moves its clock by no second (`RateLimit.LimitsExactlyWhen`,
  `RateLimit.NeverCharged`). The setters accept such configurations, for example 100 attempts in 60 seconds. The
  promised number, `limit` more per window, is kept exactly when one of the two is a multiple of the other
  (`RateLimit.PromisedQuotaExactlyWhen`).
- Any fraction of a token is said to keep accruing (src/credential_rate_limit.rs:152-156). Polling can also gain
  tokens over refilling once, exactly when the window is neither a multiple of the limit nor one second more and the
  limit is no multiple of the window (`RateLimit.PollingNeutralExactlyWhen`).
- Bidders of cancelled auctions are said to be able to reclaim their funds (src/cross_chain_auction.rs:156-159,
  258-263). Cancelling marks the leader's bid refunded without a transfer, so the leader cannot
  (`Auction.CancelStrandsLeader`, `Auction.CancelledClaimExactlyWhen`).
- Delegations may change between votes, and a stake then counts in two votes if its voucher resolves to both voters at
  their times (`SlashVote.TallyIsExact`, `SlashVote.RedelegatedStakeCountsTwice`).
- A slash vote passes one basis point below the configured quorum, because the share is rounded up, while the doc
  comment describes a plain quotient (src/governance.rs:79, 313-318; `SlashVote.RoundingDecidesExactlyWhen`,
  `SlashVote.TwoOfThreePassesTheVoteOnly`).
  `execute_slash_vote` has no effect while vouches and quorum stay as they are: a vote that would pass its test is
  already marked executed (`SlashVote.ExecuteNeverSucceeds`). The branch that resets an executed vote
  (src/governance.rs:275-287) is behind a guard that has returned already (src/governance.rs:180-188).
- The change log of field permissions looks the old permission up after storing the new one, so it is right exactly
  when the call changes nothing (`FieldPermissions.HistoryOldRightExactlyWhen`).
- The circularity check, there to prevent circular inheritance (src/field_permissions.rs:184), stops after eleven
  accounts. An accepted call closes a cycle exactly when the child is an ancestor of the parent beyond those
  (`FieldPermissions.SetParentKeepsAcyclicExactlyWhen`); a ring of twelve passes, and a lookup in it does not end
  (`FieldPermissions.RingOfTwelveReachable`).
- A cast cuts stakes of 2^64 units and more in the credit score. A score is monotone exactly while no vouch that is at
  least a day old has such a stake (`CreditScore.ScoreMonoExactlyWhen`).
- A voucher may hold records in two tokens for one borrower (src/vouch.rs:260-263). Its own vote then casts only the
  first, while both count in the total (`SlashVote.CastsAllExactlyWhen`, `SlashVote.SecondRecordNotCast`).
- Neither negative slashes nor negative insured amounts are refused. Bonds and claims stay within their amounts exactly
  when no call gives back more than was used or insures a negative amount (`BondProtection.AlwaysGoodExactlyWhen`).
- A pool can be joined over a bridge that is registered for the contract's own chain, and pays out what was never
  paid in (`CollateralPool.CustodyExactlyWhen`).
- The mean of a simulation can saturate past its minimum or maximum, for large portfolios and for negative ones; the
  condition on the parameters is exact (`EconomicSimulation.RunInOrderExactlyWhen`).
- Queued transfers to the paying account itself are not equivalent to immediate ones; either can go through alone
  (`BatchTransfer.FlushEqualsImmediateExactlyWhen`, `BatchTransfer.SelfPaymentsDiffer`,
  `BatchTransfer.AggregatedMayNeedLess`).

`BPS_DENOMINATOR` and the two window constants of the vouch audit trail are used but not defined in src/types.rs; they
are not part of this model. The first is 10 000 here, the other two are parameters with the inequality that the code
asserts about them.

## Model

| member | source | states |
|---|---|---|
| AuditCodec.BigEndianRoundTrip | src/audit_trail_compression.rs:317-332 | reading a fixed-width big-endian number back gives the number that was written, for every number of that width |
| AuditCodec.BigEndianInverse | src/audit_trail_compression.rs:374-378 | writing the number read from any bytes gives those bytes again, so the number format is a bijection |
| AuditCodec.BigEndianFirst | src/audit_trail_compression.rs:317-332 | the first byte of a number counts most: a byte before others adds itself times 256 to their number |
| AuditCodec.RecordLayout | src/audit_trail_compression.rs:317-332 | a record is eight bytes that read as the timestamp, four that read as the length, and the event |
| AuditCodec.EncodeEntries | src/audit_trail_compression.rs:317-332 | yields the concatenated records of all entries, or `InvalidAuditEvent` as soon as one event is empty or over 256 bytes |
| AuditCodec.DecodeEntries | src/audit_trail_compression.rs:336-378 | on every byte string ends with the result of the recursive decoder, without a read outside the payload or a length below zero |
| AuditCodec.DecodeEncode | src/audit_trail_compression.rs:317-371 | decoding an encoded list of valid entries gives the list back |
| AuditCodec.DecodeAcceptsExactlyEncodings | src/audit_trail_compression.rs:336-371 | decoding yields a list if and only if the payload is the encoding of exactly that list and the count is its length; every other payload is `ArchiveCorrupted` |
| AuditCodec.PackedInjective | src/audit_trail_compression.rs:317-332 | two lists of valid entries with the same payload are the same list |
| AuditTrail.RunRefinesLog | src/audit_trail_compression.rs:80-280 | for every run with a clock that does not run backwards, the archives in id order followed by the hot trail read back exactly the events ever appended, and the bounds, digests and compression log are sound |
| AuditTrail.ReachableArchivesReadable | src/audit_trail_compression.rs:217-259 | in every reachable state the hot trail has at most 200 entries, every archive id below the counter reads back 1 to 50 entries, every other id is `ArchiveNotFound` |
| AuditTrail.ReachableCompressOutcome | src/audit_trail_compression.rs:128-204 | in every reachable state compression succeeds exactly when the oldest hot entry is old enough and an archive id is left, so encoding inside it never fails |
| AuditTrail.ReachableCompressEffect | src/audit_trail_compression.rs:128-204 | in every reachable state the entries that move are the oldest, below the cutoff and at most 50; they read back from an archive under the next number, stamped with the ledger time and their span, the rest stays hot, and the compression is logged after at most 99 others; a refusal changes nothing |
| AuditTrail.RetentionRespected | src/audit_trail_compression.rs:207-214 | in every reachable state compressing what expired moves only entries with `timestamp + period < now`; every entry within the period stays hot, and none that expired is passed over while the archive has room |
| AuditTrail.AppendOutcome | src/audit_trail_compression.rs:80-105 | an append succeeds exactly with an event of 1 to 256 bytes and fewer than 200 hot entries, and adds exactly that entry |
| AuditTrail.RetentionOutcome | src/audit_trail_compression.rs:262-280 | a period is accepted exactly from 604 800 to 157 680 000 seconds and is all that is stored; the default is ninety days |
| AuditTrail.ArchivesImmutable | src/audit_trail_compression.rs:168-186 | an archive, once written, is never changed or removed by any later run |
| AuditTrail.HistoryOrdered | src/audit_trail_compression.rs:80-105 | the history of a credential is in time order, which the code relies on when it takes a prefix |
| AuditTrail.SplitOfOrdered | src/audit_trail_compression.rs:140-149 | on a trail in time order the partition moves a prefix, as long as the age and the capacity of 50 allow |
| AuditTrail.AppendKeeps | src/audit_trail_compression.rs:80-105 | an append keeps a trail sound and extends its full history by the new entry exactly when it succeeds |
| AuditTrail.CompressKeeps | src/audit_trail_compression.rs:128-204 | compression keeps a trail sound and does not change its full history |
| AuditTrail.RetentionKeeps | src/audit_trail_compression.rs:262-280 | setting the retention period keeps a trail sound and does not change its full history |
| AuditTrail.DigestBinds | src/audit_trail_compression.rs:306-314 | two archives that differ in id, count or payload have the same digest only if the hash function collides on their two inputs |
| AuditTrail.TamperedArchiveRejected | src/audit_trail_compression.rs:232-259 | reading an archive whose id, count or payload was changed under its old digest is refused, or shows a collision of the hash function |
| AuditTrail.AuditStore.AppendEntry | src/audit_trail_compression.rs:80-105 | validates, refuses at 200 entries, else appends with the ledger time; no other credential changes |
| AuditTrail.AuditStore.Partition | src/audit_trail_compression.rs:140-149 | the loop splits the trail as the recursive definition does |
| AuditTrail.AuditStore.Seal | src/audit_trail_compression.rs:162-179 | the archive holds the encoded entries, their time span and the digest over id, count and payload |
| AuditTrail.AuditStore.CompressTrail | src/audit_trail_compression.rs:128-204 | the whole new storage of the credential and the result, in every branch; no other credential changes |
| AuditTrail.AuditStore.CompressExpired | src/audit_trail_compression.rs:207-214 | compresses what is older than the retention period, counted back from now and stopping at zero |
| AuditTrail.AuditStore.SetRetentionConfig | src/audit_trail_compression.rs:262-280 | stores a period between 7 days and 5 years and refuses every other |
| AuditTrail.AuditStore.GetArchiveEntries | src/audit_trail_compression.rs:249-259 | missing archive, failed digest and corrupt payload are told apart; otherwise the decoded entries |
| RateLimit.PollingNeverLoses | src/credential_rate_limit.rs:152-175 | refilling at `t1` and again at `t2` gives at least the tokens of refilling once at `t2` |
| RateLimit.PollingNeutralExactlyWhen | src/credential_rate_limit.rs:152-175 | polling changes nothing, for every bucket and all times, if and only if the window is a multiple of the limit or one second more, or the limit is a multiple of the window; in every other configuration some polling gains tokens |
| RateLimit.FullAfterWindow | src/credential_rate_limit.rs:157-175 | a bucket is full one window after its refill clock, however empty it was |
| RateLimit.RefillMeaning | src/credential_rate_limit.rs:157-175 | a refill adds the largest whole number of tokens that the elapsed seconds pay for and moves the clock by the whole seconds those cost; a bucket that fills up has its clock at the present |
| RateLimit.RefillStaysBehindClock | src/credential_rate_limit.rs:157-175 | the refill clock moves forward but not past now, and the tokens do not exceed the limit |
| RateLimit.RefillPotential | src/credential_rate_limit.rs:157-175 | the potential `s * tokens - clock` never rises in a refill when a token takes at least `s` seconds |
| RateLimit.QuotaBound | src/credential_rate_limit.rs:119-132 | for a limit up to the window's seconds, any attempts within `secs` seconds of a full bucket are granted at most `limit + secs / (window / limit)` times |
| RateLimit.CapFromTwiceWindow | src/credential_rate_limit.rs:119-132 | for a limit from twice the window's seconds, grants within `secs` seconds are at most `2 * limit * (secs + 1)` |
| RateLimit.NeverCharged | src/credential_rate_limit.rs:157-175 | for a limit strictly between, a drained bucket grants every one of any number of attempts in the next second |
| RateLimit.NoCapInBetween | src/credential_rate_limit.rs:119-175 | so no number caps the attempts of two seconds |
| RateLimit.LimitsExactlyWhen | src/credential_rate_limit.rs:48-175 | for every configuration the setters accept, attempts are capped if and only if the limit is not strictly between the window's seconds and twice that number |
| RateLimit.PromisedQuotaExactlyWhen | src/credential_rate_limit.rs:3-175 | for every configuration the setters accept, at most `limit` attempts more per window are granted after a full bucket, over every span of time, if and only if one of window and limit is a multiple of the other |
| RateLimit.QuotaFromAnyBucket | src/credential_rate_limit.rs:119-175 | for a limit up to the window's seconds, attempts within `secs` seconds are granted at most `limit + (secs + 1) / (window / limit)` times from any bucket, full or not |
| RateLimit.HolderIsolated | src/credential_rate_limit.rs:56-150 | in any run of the store that leaves a holder's configuration alone, its grants are those of its own attempts on its own bucket; without a bucket, on the defaults or not, on one that is full at its first attempt |
| RateLimit.StoreQuota | src/credential_rate_limit.rs:70-132 | the quota over every run of the store that follows setting a limit and leaves that holder's configuration alone |
| RateLimit.FirstUseQuota | src/credential_rate_limit.rs:56-150 | the quota of a holder that never set a limit, with the default window or one of its own, over every run of the store from any second on |
| RateLimit.ReachableQuota | src/credential_rate_limit.rs:56-175 | that quota over every run of the store from any reachable state, for a holder whose configuration is left alone |
| RateLimit.RunKeepsSound | src/credential_rate_limit.rs:48-175 | over every run, configurations stay valid, no bucket exceeds its limit and no refill clock passes the ledger's |
| RateLimit.RateLimitStore.SetVerificationRateLimit | src/credential_rate_limit.rs:70-93 | stores a valid limit with the old window and a full bucket, refuses every other limit |
| RateLimit.RateLimitStore.SetVerificationWindow | src/credential_rate_limit.rs:95-113 | stores a valid window and leaves the bucket as it is; refuses every other window |
| RateLimit.RateLimitStore.ConsumeVerificationAttempt | src/credential_rate_limit.rs:119-132 | takes a token from the refilled bucket of this holder or refuses, changing nothing else |
| RateLimit.SetLimitOutcome | src/credential_rate_limit.rs:70-93 | a limit is accepted exactly from 1 to 1000, stored with the window there was (an hour without one), with a full bucket; nothing changes for other holders |
| RateLimit.SetWindowOutcome | src/credential_rate_limit.rs:95-113 | a window is accepted exactly from 60 to 604 800 seconds, stored with the limit there was (ten without one), and every bucket stays as it is |
| RateLimit.ConsumeOutcome | src/credential_rate_limit.rs:119-150 | an attempt is granted exactly when the refilled bucket, full at first use, has a token; one token less stays, and a refusal changes nothing |
| CredentialBatch.CheckIffApplies | src/credential_batch.rs:98-168 | validation accepts a list if and only if its holders authorize it and applying the operations one after the other succeeds at every step |
| CredentialBatch.AppliesExactlyWhen | src/credential_batch.rs:110-122 | applying in sequence succeeds exactly when the inputs are valid and every holder's entries fit its trail together |
| CredentialBatch.BatchExtendsTrails | src/credential_batch.rs:110-122 | a holder's hot trail grows by exactly its own entries in batch order, and nothing else of its record changes |
| CredentialBatch.BatchSetsLimits | src/credential_batch.rs:110-122 | a holder ends with the last limit the batch sets for it and a full bucket; other holders keep theirs |
| CredentialBatch.AppliedAtMostOnce | src/credential_batch.rs:98-128 | in every run a batch is applied at most once, and never again if it was before |
| CredentialBatch.OperationsImmutable | src/credential_batch.rs:61-95 | the operations of a recorded batch stay the same in every run |
| CredentialBatch.ReachableExecuteOutcome | src/credential_batch.rs:98-128 | in every reachable state execution ends in exactly one of five ways, each with its condition, and the apply phase never fails |
| CredentialBatch.ExecutionApplies | src/credential_batch.rs:98-128 | a successful execution extends every holder's trail by its own entries of the batch in order, gives every holder for whom the batch sets a limit the last one with a full bucket, leaves the others' as they are, and marks the batch executed; a failed one changes nothing |
| CredentialBatch.CreateOutcome | src/credential_batch.rs:61-95 | a batch is recorded exactly with 1 to 20 operations, each with an event of 1 to 256 bytes or a limit of 1 to 1000, pending, under a fresh number; an empty or oversized list has its own error |
| CredentialBatch.BatchStore.CreateBatchOperation | src/credential_batch.rs:61-95 | refuses empty, oversized and invalid lists, else records the batch under the next id |
| CredentialBatch.BatchStore.CheckBatch | src/credential_batch.rs:145-168 | the counting pass returns the first complaint about authorization or input, or that some holder's trail would overflow, and writes nothing |
| CredentialBatch.BatchStore.ExecuteBatchOperation | src/credential_batch.rs:98-128 | all of a batch or nothing of it, although no write is taken back in the body |
| VouchAudit.RunRefinesLog | src/audit.rs:39-88 | after any run the batches followed by the hot window are the full log in order, every batch has exactly `trigger - maxHot` events, and batch count and window length are functions of the number of events |
| VouchAudit.LogKeeps | src/audit.rs:39-88 | logging keeps a trail sound and extends its full trail by the event exactly when it succeeds |
| VouchAudit.LogSucceeds | src/audit.rs:39-88 | logging fails only when a cut-over is due and the batch ids are used up |
| VouchAudit.CountDetermined | src/audit.rs:31-88 | the batch count after `n` events is 0 below the trigger and `(n - trigger) / (trigger - maxHot) + 1` from it |
| VouchAudit.VouchAuditStore.ShiftOldest | src/audit.rs:62-69 | the shifting loop moves exactly the oldest events, in order |
| VouchAudit.VouchAuditStore.LogVouchAuditEvent | src/audit.rs:39-88 | the whole new record of the vouch; no other vouch changes |
| TokenLedger.PayOutcome | src/batch_transfer.rs:56-64 | a list of payments, also to the payer itself, goes through if and only if the payer has what it needs of every token, where a payment to itself has to be there when it is made and is there again afterwards; the final balance of everyone is given |
| BatchTransfer.FlushEqualsImmediateExactlyWhen | src/batch_transfer.rs:22-68 | for every list of payments, queueing and flushing and paying each at once both succeed or both fail if and only if the payer covers the aggregated and the immediate list or neither; where both succeed all balances are equal; without payments to the payer itself they always agree, also when a queue overflows |
| BatchTransfer.DeferredOutcome | src/batch_transfer.rs:22-68 | queueing and flushing goes through if and only if no pair's sum overflows and the payer covers the aggregated payments; the balances are those of the sums |
| BatchTransfer.QueueAllOutcome | src/batch_transfer.rs:27-44 | queueing succeeds if and only if every pair's sum stays in the type |
| BatchTransfer.AggregatedNeed | src/batch_transfer.rs:49-68 | what the aggregated list needs of a token: the sum of the payments to others or, if that is more, the payer's whole sum to itself plus the pairs queued before it |
| BatchTransfer.FlushTransfersOncePerKey | src/batch_transfer.rs:49-68 | a flush makes exactly one transfer for each token and recipient with a positive sum, of that sum, and no other |
| BatchTransfer.PendingIsSum | src/batch_transfer.rs:22-45 | between flushes the pending amount of a pair is the sum queued for it, and the key list has exactly the pairs with a positive sum |
| BatchTransfer.QueueKeepsSound | src/batch_transfer.rs:22-45 | the key list stays free of duplicates and in step with the pending amounts, which stay positive |
| BatchTransfer.FlushEmptiesQueue | src/batch_transfer.rs:49-68 | after a successful flush nothing is pending and a second flush moves nothing |
| BatchTransfer.SelfPaymentsDiffer | src/batch_transfer.rs:22-68 | two payments of 10 to the paying account go through at once on a balance of 10 and not aggregated |
| BatchTransfer.AggregatedMayNeedLess | src/batch_transfer.rs:22-68 | 5 to itself, 10 to another and 5 to itself go through aggregated on a balance of 10 and not at once |
| BatchTransfer.TransferQueue.QueueTransfer | src/batch_transfer.rs:22-45 | ignores amounts that are not positive, else adds to the pending amount and lists a new key once |
| BatchTransfer.TransferQueue.FlushTransfers | src/batch_transfer.rs:49-68 | pays every listed key its pending amount and clears the queue, or fails as a whole |
| IntegerSqrt.NewtonLoop | src/credit_score.rs:164-175 | for every positive number below the type's maximum the loop ends with the floor of the square root, and no sum in it overflows |
| IntegerSqrt.SqrtU64 | src/credit_score.rs:164-175 | the floor of the square root for every 64-bit number but the largest, on which the first sum overflows |
| IntegerSqrt.SqrtU128 | src/economic_simulation.rs:297-311 | the same on 128 bits |
| IntegerSqrt.NewtonStaysAbove | src/credit_score.rs:168-173 | a Newton step from any positive number is not below the root |
| IntegerSqrt.NewtonStops | src/credit_score.rs:168-173 | when a step no longer decreases a number, its square is at most the radicand |
| IntegerSqrt.RootUnique | src/credit_score.rs:161-175 | `r` with `r * r <= n < (r + 1) * (r + 1)` is unique |
| CreditScore.Score | src/credit_score.rs:95-153 | a score that is computed lies in 0 to 1000 |
| CreditScore.WeightMeaning | src/credit_score.rs:105-137 | from a stake of 1 000 000 and an age of a day on, a vouch weighs its whole units, cut to 64 bits, times its whole days, saturating; below either, nothing |
| CreditScore.ContributionMeaning | src/credit_score.rs:137-145 | a vouch contributes the floor of the square root of its weight, and 100 exactly from a weight of 10 000 on |
| CreditScore.ScoreMeaning | src/credit_score.rs:95-153 | the score is ten times the sum of the contributions, at most 1000; it aborts exactly when some weight is the largest number of 64 bits |
| CreditScore.ScoreMonoExactlyWhen | src/credit_score.rs:95-153 | a computed score is at least that of every earlier list (fewer vouches, lower stakes, less time), which is computed too, if and only if the cast keeps the stake of every vouch that is at least a day old |
| CreditScore.LowerStake | src/credit_score.rs:118-153 | where the cast cuts such a stake, the list with a lower stake in its place has no score |
| CreditScore.CutStakeScoresLess | src/credit_score.rs:126-130 | a cut stake can also be computed and score less than a far smaller one |
| CreditScore.CalculateVouchingScore | src/credit_score.rs:95-153 | the loop with its skipped vouches, saturating sums and caps computes the score; it aborts exactly when some weight saturates |
| OrderStatistics.ExchangeSort | src/economic_simulation.rs:225-237 | the in-place exchanges leave the array sorted with the same elements |
| OrderStatistics.RankedUnique | src/economic_simulation.rs:225-237 | a list has only one sorted rearrangement, so the sort is determined by its input |
| OrderStatistics.BelowAtIndex | src/economic_simulation.rs:245-249 | in a sorted list the number at an index is below a level if and only if more numbers than the index are |
| EconomicSimulation.MetricsInOrder | src/economic_simulation.rs:214-294 | without saturation, minimum <= CVaR <= VaR <= maximum and minimum <= mean <= maximum |
| EconomicSimulation.FiguresMeaning | src/economic_simulation.rs:239-286 | when nothing saturates, the value at risk is the outcome ranked at a twentieth, CVaR the exact mean of the outcomes ranked up to it, the mean that of all, the largest loss the smallest outcome less the portfolio, and the loss probability the exact share |
| EconomicSimulation.DeviationMeaning | src/economic_simulation.rs:264-278 | while the exact sum of the squared distances from the mean fits the type, the deviation is the floor of the root of their mean |
| EconomicSimulation.MetricsOutcome | src/economic_simulation.rs:214-294 | a report fails exactly without outcomes or when an outcome's distance from the mean leaves the type, which never happens while no outcome is negative |
| EconomicSimulation.PeriodExact | src/economic_simulation.rs:168-211 | while nothing saturates, a period ends with the portfolio, less for each default its loan beyond the recovery, plus the interest of every other of its loans; the defaults are the draws below the rate |
| EconomicSimulation.RunMeaning | src/economic_simulation.rs:135-165 | a run without periods is refused; the loss probability is the exact share of the periods that end below the portfolio's value |
| EconomicSimulation.MetricsInOrderExactlyWhen | src/economic_simulation.rs:239-262 | the metrics of all lists of `n` outcomes between two bounds, of any sign, are in order if and only if `n` times each bound fits the type |
| EconomicSimulation.RunInOrderExactlyWhen | src/economic_simulation.rs:135-294 | for every setting of the parameters, whatever is drawn every successful report is in order if and only if the number of periods times the end value of the worst period and times that of the best one fit the type; both are computed from the parameters |
| EconomicSimulation.PeriodBetween | src/economic_simulation.rs:168-211 | every period ends between the one in which all loans draw worst and the one in which all draw best |
| EconomicSimulation.EqualOutcomesOutOfOrder | src/economic_simulation.rs:239-271 | equal outcomes whose sum leaves the type make a successful report that is out of order |
| EconomicSimulation.NonNegativeRunInOrder | src/economic_simulation.rs:135-294 | a single successful run on a portfolio that is not negative is in order if and only if its own minimum times the number of periods fits the type |
| EconomicSimulation.VarBelowExactlyWhen | src/economic_simulation.rs:245-249 | the value at risk is below a level if and only if more outcomes than the tail index are |
| EconomicSimulation.VarShowsLossExactlyWhen | src/economic_simulation.rs:151-280 | a run's value at risk is below the portfolio value if and only if the loop counted more losing periods than the tail index, which ties it to the reported loss probability on both sides of five per cent |
| EconomicSimulation.EndValueNonNegative | src/economic_simulation.rs:168-211 | a period on a portfolio that is not negative ends no lower than the portfolio less the value of its defaulting loans, which is not below zero |
| EconomicSimulation.SimulateSinglePeriod | src/economic_simulation.rs:168-211 | the loop over the loans computes the end value of the period from its draws, with saturation |
| EconomicSimulation.CalculatePortfolioMetrics | src/economic_simulation.rs:214-294 | all figures of the report, or `InvalidInput` or an overflow, from the outcomes and the number of losses |
| EconomicSimulation.CalculateVariance | src/economic_simulation.rs:265-271 | the saturating mean of the squared deviations, unless a deviation leaves the type |
| EconomicSimulation.RunMonteCarloSimulation | src/economic_simulation.rs:135-165 | the report over the end values of all periods with the exact number of losing ones |
| InheritanceGraph.SetParentKeepsCyclesLong | src/field_permissions.rs:166-226 | if all cycles have at least twelve members, so they have after a parent was set that the check lets pass |
| InheritanceGraph.FewParentsAcyclic | src/field_permissions.rs:196-226 | with fewer than twelve parents such a graph has no cycle |
| InheritanceGraph.StaysAcyclicExactlyWhen | src/field_permissions.rs:166-226 | a new parent keeps an acyclic graph acyclic if and only if the child is neither the parent nor one of its ancestors, of which there are no more than parents in the graph |
| FieldPermissions.ReachableCyclesAreLong | src/field_permissions.rs:166-226 | in every reachable inheritance graph no account is its own ancestor in fewer than twelve steps |
| FieldPermissions.FewParentsLookupEnds | src/field_permissions.rs:108-135 | whenever fewer than twelve credentials have a parent, there is no cycle and every lookup ends |
| FieldPermissions.PermissionIsNearest | src/field_permissions.rs:108-135 | a lookup that ends returns the nearest explicit permission on the chain of ancestors, else the default of the chain's root, 0 without a matrix |
| FieldPermissions.PermissionUnique | src/field_permissions.rs:108-135 | the result does not depend on the bound that shows that the lookup ends |
| FieldPermissions.SetParentKeepsAcyclicExactlyWhen | src/field_permissions.rs:166-226 | an accepted call keeps an acyclic graph acyclic if and only if the child is no ancestor of the parent beyond the tenth further one |
| FieldPermissions.RunAcyclicExactlyWhen | src/field_permissions.rs:166-226 | a run from an acyclic graph has no cycle at any point if and only if none of its accepted calls closes one in that way |
| FieldPermissions.LookupEndsExactlyWhen | src/field_permissions.rs:108-135 | a lookup ends if and only if it ends within as many steps as there are parents |
| FieldPermissions.AcyclicLookupEnds | src/field_permissions.rs:108-135 | in an acyclic graph every lookup ends |
| FieldPermissions.RingOfTwelveReachable | src/field_permissions.rs:196-226 | the bound of twelve is tight: twelve accepted calls build a ring of twelve in which no lookup ends |
| FieldPermissions.HistoryOldRightExactlyWhen | src/field_permissions.rs:54-105 | the newest entry of the change log names the permission that was in force before the call if and only if the call sets that same permission; it always names the new one, which a lookup then gives |
| FieldPermissions.SetPermissionOutcome | src/field_permissions.rs:54-105 | a permission from 0 to 3 is stored for one field of one credential: every other explicit permission, matrix and log stays, the credential keeps its parent and default and counts a field more, and its log keeps its latest 99 changes before the new one |
| FieldPermissions.SetParentOutcome | src/field_permissions.rs:166-193 | a parent is accepted exactly when the credential is neither it nor one of its next ten ancestors, and is all that is stored |
| FieldPermissions.SetDefaultOutcome | src/field_permissions.rs:262-288 | a default from 0 to 3 is accepted and is all that is stored |
| FieldPermissions.PermissionStore.CheckCircularInheritance | src/field_permissions.rs:196-226 | the loop tells whether the child is the proposed parent or one of its ten nearest further ancestors |
| FieldPermissions.PermissionStore.SetFieldPermissionInheritance | src/field_permissions.rs:166-193 | stores the parent unless the check finds the child among its ancestors |
| FieldPermissions.PermissionStore.GetFieldPermission | src/field_permissions.rs:108-135 | the recursion returns the permission of the chain whenever it ends |
| FieldPermissions.PermissionStore.SetFieldPermissions | src/field_permissions.rs:54-105 | stores a permission up to 3 and logs it, dropping the oldest log entry at the bound |
| FieldPermissions.PermissionStore.SetDefaultFieldPermission | src/field_permissions.rs:262-288 | stores a default up to 3, keeping parent and explicit permissions |
| Auction.Solvent | src/cross_chain_auction.rs:205-310 | over every run with fresh auction ids, tokens in minus tokens out are the unrefunded bids plus what cancellations stranded; so they cover those bids, and equal them without a cancellation |
| Auction.RefundAlwaysCovered | src/cross_chain_auction.rs:303-307 | no refund fails for want of tokens, in any run |
| Auction.NonLeaderClaimsOnce | src/cross_chain_auction.rs:265-310 | in every reachable state a bidder who does not lead and has an unrefunded bid can claim it at once and then not again |
| Auction.RefundedUntilNextBid | src/cross_chain_auction.rs:280-301 | a refunded bid cannot be claimed again in any run in which its bidder does not bid anew |
| Auction.CancelStrandsLeader | src/cross_chain_auction.rs:470-507 | cancelling transfers nothing, takes the whole highest bid off the unrefunded bids and leaves the leader without a claim |
| Auction.CancelledClaimExactlyWhen | src/cross_chain_auction.rs:258-310 | right after a cancellation, in every reachable state, a bidder with an unrefunded bid can reclaim it if and only if it did not lead |
| Auction.LeaderHoldsHighestBid | src/cross_chain_auction.rs:198-252 | in every reachable state the highest bid bounds every recorded bid, and before settlement or cancellation it is the leader's unrefunded bid and meets the reserve |
| Auction.BidOutcome | src/cross_chain_auction.rs:160-255 | in every reachable state a bid is accepted exactly with a positive amount, a cleared origin, an open auction, an amount that meets the reserve and exceeds every recorded bid strictly, a transfer that passes and room in the count; it then leads and replaces the bidder's record alone, and the bidder has paid in what it adds to an unrefunded bid of its own; each refusal has its error and changes nothing |
| Auction.CreateOutcome | src/cross_chain_auction.rs:98-146 | an auction is refused exactly without collateral, without duration, with a negative reserve or past the last second; else it is open from now for the duration, without bids |
| Auction.ClaimOutcome | src/cross_chain_auction.rs:265-310 | in every reachable state a bidder reclaims exactly an unrefunded bid that does not lead, or leads an auction cancelled before it was made; the whole amount is paid and the bid marked |
| Auction.ExtendOutcome | src/cross_chain_auction.rs:436-467 | the end moves exactly to a later one, of an auction without bids or before its end, and nothing else changes |
| Auction.CancelOutcome | src/cross_chain_auction.rs:470-507 | exactly an unsettled auction is cancelled: settled without a winner, with the leader's bid alone marked refunded and no token moved |
| Auction.SettleOutcome | src/cross_chain_auction.rs:313-380 | in every reachable state settling succeeds exactly on an ended, unsettled auction with a bid whose eighty-fold fits the type; it records the leader as the winner, four fifths of the bid rounded down for the vouchers and the rest for the treasury |
| Auction.SettledRejectsAll | src/cross_chain_auction.rs:160-507 | once settled with a winner, no bid, extension, cancellation or second settlement succeeds and the winner has no refund |
| Auction.SettledIsFinal | src/cross_chain_auction.rs:326-372 | over every later run the settlement and the winner's bid stay as they are, and the bid equals voucher payout plus treasury payout |
| Auction.AuctionHouse.CreateCrossChainAuction | src/cross_chain_auction.rs:98-146 | refuses non-positive collateral, zero duration and negative reserve, else opens an auction without bids under the ledger time |
| Auction.AuctionHouse.PlaceBidOn | src/cross_chain_auction.rs:160-255 | every refusal in its order, with bridge and attestation first for a bid from another chain; else the auction, the bid record and the tokens held, which grow by what the bidder had not yet escrowed |
| Auction.AuctionHouse.RecordBid | src/cross_chain_auction.rs:198-252 | the new auction and bid record and the amount due; every other auction stays the same |
| Auction.AuctionHouse.ClaimRefundOf | src/cross_chain_auction.rs:265-310 | marks the bid refunded and pays its amount, or refuses the leader, a repeated claim and a missing bid |
| Auction.AuctionHouse.SettleAuction | src/cross_chain_auction.rs:313-380 | settles an ended auction with its payouts, or leaves everything as it was |
| Auction.AuctionHouse.ExtendAuction | src/cross_chain_auction.rs:436-467 | moves the end later, of any auction that has no bids or has not ended; whether it was settled or cancelled is not read |
| Auction.AuctionHouse.CancelAuction | src/cross_chain_auction.rs:470-507 | marks an unsettled auction settled and its leader's bid refunded, without a transfer |
| SlashVote.ResolveMeaning | src/governance.rs:18-42 | over any delegation map, the resolved account is the last of at most ten distinct delegates, before the chain ends or meets itself |
| SlashVote.TallyIsExact | src/governance.rs:243-318 | after any sequence of votes, under delegations that may change in between, each side is the sum of what its voters cast at their times, and the vote is executed exactly when its quorum test passes; the sides together are the stake of the records cast, and so within the total, if and only if no voucher resolved to two voters at the times they voted |
| SlashVote.TallyUnderFixedDelegations | src/governance.rs:243-318 | while delegations stay the same the two sides are what the voters on each cast, together within the total; they are all the stake that resolves to the voters if and only if none of these has a second record |
| SlashVote.RedelegatedStakeCountsTwice | src/governance.rs:82-160 | a stake delegated anew between two votes counts in both: two vouchers with half of the stake behind them pass a quorum of two thirds |
| SlashVote.CastsAllExactlyWhen | src/governance.rs:243-261 | voters that vote for themselves cast all the stake that resolves to them if and only if none of them has records in two tokens |
| SlashVote.SecondRecordNotCast | src/governance.rs:237-261 | the sole voucher of a borrower, with records in two tokens, casts only the first of them and misses the quorum |
| SlashVote.OwnPlusDelegated | src/governance.rs:237-261 | a voter casts the stake of its first own record plus all stake that others delegated to it, over any list of records |
| SlashVote.CastOutcome | src/governance.rs:170-353 | a vote counts, on either side, exactly when the slash is not executed, the voter votes for itself, has a record, no recorded voter resolves to it and the sums fit, with the error of every other case; then its first record and all delegated stake go to its side, it joins the voters, and the vote is executed if and only if `approve * 10000 > (quorum - 1) * total`; any other vote changes nothing |
| SlashVote.ExecuteOutcome | src/governance.rs:383-434 | executing succeeds exactly on a recorded vote that is not executed and has `approve * 10000 >= quorum * total`, while that product fits, and only marks it |
| SlashVote.VoteQuorumMeaning | src/governance.rs:313-318 | the rounded-up test passes if and only if `approve * 10000 > (quorum - 1) * total` |
| SlashVote.ExecutionQuorumMeaning | src/governance.rs:411-422 | the execution test passes if and only if `approve * 10000 >= quorum * total`, while the product fits |
| SlashVote.QuorumsCompared | src/governance.rs:313-422 | the execution test implies the voting test, which is weaker by less than one basis point of the total stake |
| SlashVote.RoundingDecidesExactlyWhen | src/governance.rs:79-318 | the test made differs from the documented quotient if and only if the approving share is below the quorum by less than one basis point |
| SlashVote.TwoOfThreePassesTheVoteOnly | src/governance.rs:76-79 | two of three equal stakes pass a quorum of 6667 basis points although their share is below it |
| SlashVote.ExecuteNeverSucceeds | src/governance.rs:383-434 | after any sequence of votes and executions with fixed vouches and quorum, however delegations change, executing fails |
| SlashVote.SlashVoting.ResolveVoteDelegation | src/governance.rs:18-42 | the loop over hops and visited accounts resolves as the recursive definition does |
| SlashVote.SlashVoting.CountStakes | src/governance.rs:243-261 | the loop yields the total stake and the stake that the voter casts, the second within the first |
| SlashVote.SlashVoting.FindVouch | src/governance.rs:237-241 | the first vouch of the voter, if any |
| SlashVote.SlashVoting.CheckVoted | src/governance.rs:289-292 | whether some recorded voter now resolves to this one |
| SlashVote.SlashVoting.AddStake | src/governance.rs:294-318 | the two sides together grow by exactly the stake cast and the other side stays; the vote is executed if and only if the approving stake exceeds the share one basis point below the quorum |
| SlashVote.SlashVoting.VoteSlash | src/governance.rs:170-353 | every refusal in its order; else the new record of this borrower, and no other record changes |
| SlashVote.SlashVoting.ExecuteSlashVote | src/governance.rs:383-434 | refuses a missing, executed or insufficient vote, else marks it executed; no other record changes |
| Appeal.DistributionIsFair | src/governance.rs:1751-1778 | for stakes that are not negative with a positive total, payouts add up to exactly the escrow, none is negative, each but the last is at most its exact pro-rata share and less than `escrow / 10000 + 1` below it, and the last is at least its own |
| Appeal.PaysOutExactly | src/governance.rs:1751-1778 | the payouts add up to the escrow for any stakes |
| Appeal.ShareNearExact | src/governance.rs:1762-1765 | one share against the exact quotient, over both truncating divisions |
| Appeal.LastGetsRemainder | src/governance.rs:1758-1761 | the last of `n` vouchers gets at least its exact share and less than `(n - 1) * (escrow / 10000 + 1)` more |
| Appeal.QuorumMeaning | src/governance.rs:1733-1735 | an appeal is upheld if and only if there is stake and `10000 * approve >= 6667 * total` |
| Appeal.PaySharesOutcome | src/governance.rs:1751-1778 | paying the shares succeeds exactly when their products fit and the contract has the escrow; every account then has received the sum of its payouts, the contract has paid the escrow, and no other token moved |
| Appeal.FinalizeConserves | src/governance.rs:1700-1812 | finalizing succeeds exactly on a pending, recorded appeal whose sums fit, with the escrow held or room in the treasury; with `10000 * approve >= 6667 * total` the escrow goes from the contract to the vouchers, each of whom receives its payouts, and is marked approved, else it is added to the treasury and marked rejected; it cannot happen twice, and a refusal changes nothing |
| Appeal.AppealCourt.TotalStake | src/governance.rs:1730-1730 | the sum of the stakes |
| Appeal.AppealCourt.Distribute | src/governance.rs:1751-1778 | the loop with its running total makes the payments that the definition lists, or fails |
| Appeal.AppealCourt.FinalizeAppeal | src/governance.rs:1700-1812 | every refusal in its order; else the escrow's new status and the ledger or the treasury |
| BondProtection.PremiumRefundInRange | src/bond_protection.rs:23-41 | the refund is between nothing and the premium: all of it at once, nothing after the term |
| BondProtection.PremiumRefundAntitone | src/bond_protection.rs:23-41 | a later release does not refund more |
| BondProtection.PremiumRefundExact | src/bond_protection.rs:23-41 | the refund is the premium times the unused seconds of thirty days over thirty days, rounded down; an error exactly when the product leaves the type |
| BondProtection.CapitalConserved | src/bond_protection.rs:94-426 | over every run of stake, insure, cover, release and re-stake, with any amounts, the capital ever bonded is what was used, is still bonded or was paid back, and the active bonds are the unreleased ones |
| BondProtection.RecordsKeptExactlyWhen | src/bond_protection.rs:66-426 | a call keeps every bond and insurance within its amount if and only if it fails, or its slash gives back no more than was used and its insured amount is not negative |
| BondProtection.AlwaysGoodExactlyWhen | src/bond_protection.rs:66-426 | the records of a voucher stay within their bounds over a whole run if and only if every call on them is of that kind where it is made |
| BondProtection.SensibleRunHarmless | src/bond_protection.rs:159-339 | every run without negative slashes and insured amounts is of that kind |
| BondProtection.BoundsKept | src/bond_protection.rs:94-426 | over such runs no bond is used and no insurance claimed beyond its amount, and the capital used is within the capital bonded |
| BondProtection.UtilizationNeedsNoClamp | src/bond_protection.rs:53-62 | over such runs the exact rate is in 0 to 10000, so the clamp changes nothing |
| BondProtection.CoverageWithinSlash | src/bond_protection.rs:228-339 | a coverage call pays the slash or all that bond and active insurance have left, whichever is less; that is between nothing and the slash if and only if the slash is not negative |
| BondProtection.UsedIsCovered | src/bond_protection.rs:228-339 | between staking and release, the used amount of a bond is the sum of what coverage calls took from it |
| BondProtection.BondLifetime | src/bond_protection.rs:66-426 | from staking to release, coverage taken from a bond plus the principal paid back is the bonded amount, whatever else happens in between |
| BondProtection.ReleasePaysBack | src/bond_protection.rs:343-426 | a release pays the unused principal plus a refund between nothing and the premium, nothing without insurance or after a claim |
| BondProtection.StakeOutcome | src/bond_protection.rs:66-156 | a bond is staked exactly with a positive amount of at most half of what it protects, without a live bond on the loan and while the totals have room; it starts active, unused and uninsured |
| BondProtection.InsureOutcome | src/bond_protection.rs:159-224 | exactly an existing bond without insurance is insured, while the sums fit; the premium is three per cent, rounded toward zero, and the insured amount is the coverage |
| BondProtection.CoverOutcome | src/bond_protection.rs:228-339 | exactly a live bond covers a slash, while the totals have room: the bond pays up to what is left of it, then the insurance up to what is left of that, both remember it, and each is marked used up exactly when nothing is left |
| BondProtection.ReleaseOutcome | src/bond_protection.rs:343-426 | exactly an unreleased bond is released, while refund and sum fit; later releases and coverage of it are refused, and insurance that was not used up ends |
| BondProtection.BondStore.StakeBond | src/bond_protection.rs:66-156 | refuses amounts that are not positive, over half the protected stake or on top of a live bond; else a new bond and the totals; no other voucher changes |
| BondProtection.BondStore.PurchaseInsurance | src/bond_protection.rs:159-224 | insures a bond once at three per cent; no other voucher changes |
| BondProtection.BondStore.InsurancePayout | src/bond_protection.rs:275-287 | what an active insurance pays towards a shortfall |
| BondProtection.BondStore.ApplyBondCoverage | src/bond_protection.rs:228-339 | bond, insurance and totals after a coverage call and what it pays, in every branch; no other voucher changes |
| BondProtection.BondStore.ReleaseBond | src/bond_protection.rs:343-426 | bond, insurance and totals after a release and what it pays back, in every branch; no other voucher changes |
| BondProtection.BondStore.GetBondUtilizationRate | src/bond_protection.rs:457-461 | a rate between 0 and 10000, which for capital used within the bonded capital is the exact quotient rounded down; an error without totals or when the product overflows |
| CollateralPool.InCustody | src/collateral_pool.rs:57-260 | over every run, with bridge validations and allowed tokens changing between calls, the tokens held are the native stakes of the pools in that token less what was bridged in as native; so custody holds if and only if nothing was, and nothing was while nobody was validated for the native chain |
| CollateralPool.CustodyExactlyWhen | src/collateral_pool.rs:164-209 | under a setting, custody holds in all runs if and only if nobody is bridge-validated for the native chain |
| CollateralPool.NativeBridgeBreaksCustody | src/vouch.rs:1913-1926 | one such validation, which the setter does not refuse, lets a run of two calls break custody |
| CollateralPool.JoinCrossChainAndCustody | src/collateral_pool.rs:164-209 | a join over a bridge changes the balance of tokens and native stakes by its stake if the chain is the native one, else not at all |
| CollateralPool.WithdrawalAlwaysCovered | src/collateral_pool.rs:253-257 | no withdrawal fails for want of tokens after a run that bridged nothing in as native in the pool's token |
| CollateralPool.JoinThenLeave | src/collateral_pool.rs:114-260 | joining and leaving again restores pools, reverse index and tokens held |
| CollateralPool.ActivePoolFrozen | src/collateral_pool.rs:128-275 | an active pool is the same after every run |
| CollateralPool.AssignOutcome | src/collateral_pool.rs:263-291 | a pool is assigned exactly while inactive, to a borrower without a loan; it is then active for that borrower with the members, stakes, chains and token it had, and no other pool changes |
| CollateralPool.AssignmentLocks | src/collateral_pool.rs:114-291 | after an assignment and every later run the pool is as it was assigned, and every join, cross-chain join, leave and assignment of it is refused |
| CollateralPool.CreateOutcome | src/collateral_pool.rs:57-111 | a pool is created exactly with a positive stake that arrives in full, an allowed token and a number left; it has its creator as its one native member and the next number |
| CollateralPool.JoinOutcome | src/collateral_pool.rs:114-160 | every refusal in its order; else the account is appended with its stake on the native chain, listed, and its stake is held |
| CollateralPool.JoinCrossChainOutcome | src/collateral_pool.rs:164-209 | every refusal in its order, validation for the chain first; else the account is appended with its stake and chain, and nothing is transferred |
| CollateralPool.LeaveOutcome | src/collateral_pool.rs:212-260 | an inactive pool is left exactly by a member whose native stake is held; the member goes from all three lists and the index, the others keep order, stake and chain, and a native stake is paid out in full |
| CollateralPool.StepKeepsSound | src/collateral_pool.rs:57-291 | every call keeps the lists in step, the members distinct, the stakes positive and the reverse index exact |
| CollateralPool.ChainStakeWithout | src/collateral_pool.rs:231-241 | rebuilding the lists without a member takes exactly its stake off its chain |
| CollateralPool.PoolStore.CreatePool | src/collateral_pool.rs:57-111 | every refusal in its order; else a pool of one native member under the next id and the tokens held |
| CollateralPool.PoolStore.MemberIndex | src/collateral_pool.rs:44-51 | the first position of a member, if any |
| CollateralPool.PoolStore.JoinPool | src/collateral_pool.rs:114-160 | every refusal in its order; else one more native member and its stake in the tokens held |
| CollateralPool.PoolStore.JoinPoolCrossChain | src/collateral_pool.rs:164-209 | every refusal in its order; else one more member of that chain, without a transfer |
| CollateralPool.PoolStore.Rebuild | src/collateral_pool.rs:231-241 | the loop removes one position from the three lists and keeps the order |
| CollateralPool.PoolStore.LeavePool | src/collateral_pool.rs:212-260 | refuses unknown and active pools and non-members; else removes the member and pays a native stake back |
| CollateralPool.PoolStore.AssignPoolToBorrower | src/collateral_pool.rs:263-291 | activates an inactive pool for a borrower without a loan |
| CollateralPool.PoolStore.GetPoolChainStake | src/collateral_pool.rs:319-333 | the sum of the stakes from one chain, or `StakeOverflow` exactly when it leaves the type |
| CollateralPool.PoolStore.GetPoolTotalStake | src/collateral_pool.rs:303-316 | the total stake of a pool is its native stake, or `StakeOverflow` exactly when that leaves the type |

## Left out

- FieldPermissions.PermissionStore.GetFieldPermission: has a result only where the chain of parents ends; in a ring the contract's recursion runs into the host's limits, which are not modelled.
- Auction.Solvent: assumes that no two auctions are created at the same ledger time, because the time is the id and a second auction would overwrite the first (src/cross_chain_auction.rs:123).
- SlashVote.TallyIsExact: takes vouches and a quorum up to 10000 as fixed, and stakes as positive: vouching asks for that, and a full withdrawal removes the record.
- EconomicSimulation.NonNegativeRunInOrder: speaks of a single run only for a portfolio that is not negative; the condition for every portfolio, over all draws, is that of RunInOrderExactlyWhen.
- SlashVote.SlashVoting.VoteSlash: the pause, cooldown and loan guards before the tally and the record of a pending slash are not modelled.
- SlashVote.SlashVoting.ExecuteSlashVote: the slash that follows the quorum test is not modelled.
- Appeal.AppealCourt.FinalizeAppeal: takes stakes and escrow as not negative, which holds of records that vouching and slashing store; the code does not check it again.
- RateLimit.RateLimitStore.ConsumeVerificationAttempt: takes stored configurations as valid, which RunKeepsSound shows of every run.
- BatchTransfer.TransferQueue.FlushTransfers: takes the queue as sound, which QueueKeepsSound and FlushEmptiesQueue show of every run.
- CollateralPool.PoolStore.LeavePool: takes the three lists of a pool as in step, which StepKeepsSound shows of every run; so do the two readers.
- EconomicSimulation.SimulateSinglePeriod: the totals of interest and defaults, which no metric uses, are not modelled; random draws are arbitrary, so nothing is said about the generator or its seed.
- Authentication, admin approval, pausing, events and storage lifetimes: calls into the host. The expiry of temporary storage between queueing and flushing is part of this.
- The inside of token contracts, Ed25519 and SHA-256, and the consumption of attestation nonces.
- Acyclicity of stored vote delegations: `delegate_vote` can store a loop of two, so delegation is resolved over arbitrary maps.
- The path from `execute_slash` to `appeal_slash`: the two store different shapes under one key; the distribution is proved on given inputs.
- Floating-point score components, tiers, decay and the stake-only score in src/credit_score.rs.
- `check_field_permission`, the formatting and paging readers in src/audit.rs, and `stress_test_scenarios`: single reads over what is modelled.
- Admin, circuit breaker, arbitrage, dynamic interest, treasury, cache, detection, lazy slash and attestor modules: guards, counters and single-formula clamps that would only add easy members.
- Vote weights in src/governance_token.rs and the chain quorum in src/cross_chain_governance.rs.
