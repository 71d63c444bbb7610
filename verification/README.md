# bloom-broker in Dafny

A model of the durable core of the Bloom Broker: the approval and reservation
ledger, by-key stops, Signer revocation, result publication, and the signed audit
chain with its verified-tail cache. Beside it stand four smaller algorithms of the
same repository: the mutation quota, the Solana message binding, the committed
derivation paths and the secret scan of captured artifacts.

## How it is built

Every durable write of the Broker is one SQLite commit. In the model each commit is
a function from `Tables` to new `Tables` or a refusal (`Tables.dfy`). `Step` lists the
commits that write these tables, and one step, `Log`, for every commit that writes only
other tables (quota, provenance, accounts, key scopes, ceremony sessions, policy
deletion) and appends an uncorrelated audit entry. `Run` plays any sequence of them, and
a refused step leaves the tables unchanged. A crash between two commits is therefore just a shorter run, and every
theorem about `Reachable` tables or about "every continuation" covers it.

`History.Extends` is the relation between the tables before and after any number of
commits. It holds of every step from every tables value, reachable or not, and it
composes. Most theorems over whole runs are an invariant plus this relation.

The classes are the source's own form. `BrokerStore.Store` has one field per table
and one method per mutation, with the loops the source has; each method is proved to
do what its transaction function says, to write nothing else and to keep the store
reachable, so that every theorem about reachable tables holds of the object. Flows of several
commits (advancing an epoch, reconciling with the Signer) are proved to end in the
state their comment names. `AuditLog.Connection` is the journal's connection with its
verified-tail cache, and `MutationQuota.Quota` is the quota table.

`Acceptance.dfy` says, on the tables and the request alone, exactly when each commit goes
through and what it then writes. `Authority.dfy` carries that over whole runs: where every
charge and every active approval came from. `Evidence.dfy` says what a verified log is
evidence of, and `Degradation.dfy` that disabled mutations stay disabled.

All limits are stated with one sum. `Used(measure, scope, rows)` adds operations,
signatures or an asset's value over the reservations a scope selects.

Foreign calls are parameters. The hash is an arbitrary function, so tamper evidence
is stated as "the logs agree or the hash collides on two of their entries". A
signature verifies what it signed. Canonical JSON of a payload is an object and
parses back.

## Results that differ from the plain reading of the code

- A sliding window of length `d` at time `t` is computed from `t - d` with saturation.
  Charges at time zero are then outside every window that reaches below zero.
  `Accounting.SaturatedWindowExact` gives the exact condition under which the computed
  window is the interval `(t - d, t]`, and `Instants.ChargesAtZeroEscape` reaches a
  state with any number of operations under a window of one.
- A rolling value limit is skipped at a charge that does not carry its asset. After a
  renewal with a smaller limit such a charge can stand inside a window its ancestor has
  overrun (`Instants.UnmovedAssetEscapes`). `Limits.WindowsExactAtCharge` says exactly
  when a reviewed window holds at a new charge, and that it then holds for good.
- An approval without windows may be charged before the durable clock is initialized, at
  any time. Such an ancestor may lie ahead of the clock, and at its instant the window of
  its renewal can be overrun (`Instants.UnclockedAncestorEscapes`).
  `Instants.LineageInstantsExact` is the exact condition: a lineage keeps a reviewed window
  at every instant if and only if it keeps it at the instants of its ancestors' charges.
  `Instants.LineageHoldsAtEveryInstant` is the case in which the clock came first.
- The recursive lineage query is a `UNION ALL`, which drops no row it has had before. On
  a table where an approval renews itself, directly or around a cycle, it never ends
  (`Renewals.SelfRenewalNeverEnds`). `Renewals.LineageEndsExactly` says that it ends if and
  only if no row comes twice, and `Renewals.LineageEndsWhenReachable` that it always ends
  on the tables the Broker reaches, because `renewal_of` names an earlier record.
- The verified-tail cache trusts the Broker's own writes after a foreign change was
  verified. A foreign rewrite that puts an approval back to its ceremony, clears its
  activation identifier and leaves the grant in place verifies, and the next activation then breaks the log without being
  noticed. `OwnRuns.InconsistentRewriteEscapes` is the run;
  `TailCache.TransactionExact` is the exact condition for one transaction, and
  `TailCache.CacheExact` the exact condition for whole runs with arbitrary foreign
  writers; `TailCache.CacheRefinesVerification` is the case of writers that leave those
  columns as the Broker writes them.
- The mutation quota counts in fixed windows. While the clock does not step back, the
  rate over any interval of one window's length is bounded by `2 * maximum - 1`, which is
  reached. Under every clock whatever the bound holds if and only if the maximum is one
  (`MutationQuota.AnyClockExact`).
- The audit preimage joins event name and payload without a separator. Injectivity
  needs the payload's opening brace: with bare numbers two different logs are accepted under
  one head without a collision (`Tamper.UnseparatedSplitIsAmbiguous`). Everything the
  Broker logs has the brace (`Tamper.OwnLogSeparable`).

## Model

| member | source | states |
|---|---|---|
| `History.StepExtends` | crates/bloom-broker/src/journal.rs:878-926 | no durable write takes back reviewed terms, an activation, an operation's identity, a result, a charge's amounts, a tombstone, a stop or clock time |
| `History.RunExtends` | crates/bloom-broker/src/journal.rs:878-926 | the same over every run from any tables |
| `Lifecycle.SigningFollowsTheTable` | crates/bloom-broker/src/journal.rs:3396-3420 | in every run the states of a signing operation, publication included, are a path of the transition table up to its present state |
| `Lifecycle.OneWayToSucceed` | crates/bloom-broker/src/journal.rs:3396-3420 | in every run a signing operation has succeeded if and only if it went through every stage once, in order |
| `Lifecycle.DispatchedIsNeverDenied` | crates/bloom-broker/src/journal.rs:1334-1390 | no continuation, from any tables, denies or cancels a dispatched signing operation |
| `Lifecycle.ApprovalsFollowTheTable` | crates/bloom-broker/src/journal.rs:3373-3394 | in every run the states of an approval start with its ceremony and follow the transition table |
| `Lifecycle.OneWayToActivate` | crates/bloom-broker/src/journal.rs:767-876 | in every run an approval is active if and only if its whole history is ceremony, then active |
| `Lifecycle.TerminalIsFinal` | crates/bloom-broker/src/journal.rs:3373-3394 | the five final states are exactly those nothing leaves and exactly those a stop leaves alone |
| `Lifecycle.FinishedForever` | crates/bloom-broker/src/journal.rs:878-926 | a finished approval keeps its state in every continuation, from any tables |
| `Budget.FoldPreservesMeaning` | crates/bloom-broker/src/authority.rs:4021-4078 | folding operation and signature windows per duration accepts a request exactly when every reviewed window accepts by itself, counters not overflowing; repeated durations included |
| `Budget.FoldExact` | crates/bloom-broker/src/authority.rs:4021-4078 | where 64-bit counters fit, the folded limits and the separate windows decide alike |
| `Budget.BudgetLimitsFor` | crates/bloom-broker/src/authority.rs:4021-4078 | the loop yields exactly the folded limits, one per duration in ascending order, with lifetime and rolling value limits |
| `Budget.RollingMembers` | crates/bloom-broker/src/authority.rs:4021-4078 | the rolling limits are exactly the reviewed value windows under their assets |
| `Budget.AccountDeclaredValues` | crates/bloom-broker/src/authority.rs:3907-3982 | the loop over debits and fee, the fee compared by chain and asset, answers the declared totals or the first refusal with its own code |
| `Budget.DeclaredValuesMean` | crates/bloom-broker/src/authority.rs:3907-3982 | the charge of a claim is, per asset, the exact sum of debits and fee below 2^256; refused exactly for a fee mismatch, a total of 2^256 or an asset outside the limits |
| `Budget.AddValue` | crates/bloom-broker/src/authority.rs:4004-4019 | adding one debit keeps the totals exact or reports that one has overflowed |
| `Accounting.CheckLimits` | crates/bloom-broker/src/journal.rs:1400-1553 | the four checks with their queries and checked counters give the verdict defined by sums over the ledger, first refusal first |
| `Accounting.CheckRates` | crates/bloom-broker/src/journal.rs:3214-3289 | each sliding rate is judged on the lineage's unreleased rows in its window, in order, overflow counting as refusal |
| `Accounting.CheckValues` | crates/bloom-broker/src/journal.rs:3098-3136 | accepted exactly when every charged asset is limited and stays within its lifetime sum |
| `Accounting.CheckRolling` | crates/bloom-broker/src/journal.rs:3291-3347 | each rolling value window is judged on the lineage's unreleased rows |
| `Accounting.RateVerdictMeaning` | crates/bloom-broker/src/journal.rs:3214-3289 | acceptance is exactly that every limit is positive and admits the request |
| `Accounting.LifetimeMeaning` | crates/bloom-broker/src/journal.rs:1470-1504 | lifetime acceptance is exactly that both counts fit, and a refusal names operations exactly when they do not |
| `Accounting.VerdictMeaning` | crates/bloom-broker/src/journal.rs:1470-1550 | the limit checks together accept exactly the requests within every lifetime, rate and value limit, window by window |
| `Acceptance.GateExact` | crates/bloom-broker/src/authority.rs:2352-2628 | the gate passes exactly requests of stored, untombstoned, active authority within its validity and of its wallet's reconciled epoch |
| `Acceptance.GateReasons` | crates/bloom-broker/src/authority.rs:2352-2628 | which of the three refusals live authority meets, and exactly when |
| `Acceptance.ClockCheckExact` | crates/bloom-broker/src/journal.rs:3138-3180 | a reservation stands at the persisted instant, and where windows are reviewed only on a clock that is neither untrusted nor frozen |
| `Acceptance.ClockGatesAgree` | crates/bloom-broker/src/journal.rs:1978-2143 | a rate-limited reading is answered yes exactly when a windowed charge at it passes the reservation clock |
| `Acceptance.ReserveExact` | crates/bloom-broker/src/journal.rs:1400-1553 | exactly when a charge is taken, and the one row it adds |
| `Acceptance.AuthorizeExact` | crates/bloom-broker/src/authority.rs:2352-2734 | exactly when an authorization is accepted |
| `Acceptance.PrepareExact` | crates/bloom-broker/src/authority.rs:1573-1731 | exactly when a preparation is accepted, on any tables |
| `Acceptance.PrepareWrites` | crates/bloom-broker/src/authority.rs:1573-1731 | a new preparation adds one row awaiting its ceremony and touches no other; a repetition writes nothing |
| `Acceptance.ActivateExact` | crates/bloom-broker/src/authority.rs:1827-1988 | exactly when an activation is accepted, on any tables |
| `Acceptance.ApprovalTableExact` | crates/bloom-broker/src/journal.rs:3373-3394 | what a pending, an orphaned and an active approval may become; nothing else moves |
| `Acceptance.StopStateExact` | crates/bloom-broker/src/authority.rs:3231-3245 | stopping fails exactly the pending, revokes exactly the orphaned and active, and leaves the rest |
| `Acceptance.AdmitExact` | crates/bloom-broker/src/journal.rs:1208-1282 | exactly when a by-key stop is admitted |
| `Acceptance.AdmitWrites` | crates/bloom-broker/src/authority.rs:2054-2150 | an admission fails exactly the pending ceremonies of the key and records exactly its bound approvals |
| `Acceptance.TombstonesExact` | crates/bloom-broker/src/authority.rs:3081-3161 | a union is stored exactly when it loses and contradicts nothing, and adds exactly its new members under the wallet |
| `Acceptance.ReconcileExact` | crates/bloom-broker/src/authority.rs:2958-3044 | reconciliation leaves the larger epoch, reconciled exactly when the Signer was not behind |
| `Acceptance.AdvanceExact` | crates/bloom-broker/src/authority.rs:3163-3211 | a local advance needs the expected epoch and a larger one, and leaves it unreconciled |
| `Acceptance.AttemptExact` | crates/bloom-broker/src/journal.rs:995-1143 | exactly when an attempt is accepted, first or retried |
| `Acceptance.AttemptWritesRows` | crates/bloom-broker/src/journal.rs:995-1143 | a first attempt adds the operation as received, any accepted attempt leaves its digest recorded, and nothing else is written |
| `Acceptance.OperationTableExact` | crates/bloom-broker/src/journal.rs:3396-3420 | the operation table is one stage forward, or out: refused before dispatch, quarantined after, failed at any stage but the last |
| `Acceptance.MoveExact` | crates/bloom-broker/src/journal.rs:1334-1390 | exactly unpublished signing operations move, along the table, in their state only |
| `Acceptance.FinalizeExact` | crates/bloom-broker/src/journal.rs:1555-1613 | exactly when a settlement is accepted, and that it moves one row only |
| `Acceptance.PublishExact` | crates/bloom-broker/src/journal.rs:1651-1732 | exactly when a result is published: committed operation, open charge and the receipt that names both, or the identical result again |
| `Acceptance.PublishWrites` | crates/bloom-broker/src/journal.rs:1651-1732 | a first publication writes the result, success and the one committed charge |
| `Acceptance.BatchExact` | crates/bloom-broker/src/journal.rs:1734-1887 | exactly when a batch is published: as a result, for an operation admitted as a batch, with one to thirty-two derived and unused child identifiers |
| `Acceptance.RepairExact` | crates/bloom-broker/src/journal.rs:2145-2203 | repair needs an initialized clock, never moves it back, and leaves trusted time available |
| `Authority.NewChargeMeans` | crates/bloom-broker/src/authority.rs:2352-2734 | from any tables, a new ledger row comes from an authorization under usable authority, an admitting clock and room in every limit |
| `Authority.EveryChargeWasAuthorized` | crates/bloom-broker/src/authority.rs:2352-2734 | every row of every run was added by one of its steps, and just before that step its approval was usable at the row's instant and the charge fitted |
| `Authority.ChargesWithinValidity` | crates/bloom-broker/src/authority.rs:2372-2379 | in every reachable state every charge lies within the validity of its approval |
| `Authority.WindowedChargesNeedTrust` | crates/bloom-broker/src/journal.rs:3138-3180 | from any tables, a new charge of an approval with a sliding window finds the persisted clock at its instant, neither untrusted nor frozen |
| `Authority.ActivationMeans` | crates/bloom-broker/src/authority.rs:1827-1988 | from any tables, an approval becomes active only by an activation that finds it awaiting its ceremony, untombstoned and of its wallet's reconciled epoch |
| `Authority.EveryActivationWasCurrent` | crates/bloom-broker/src/authority.rs:1827-1988 | every active approval of every run was made active by one of its steps under those conditions |
| `Authority.LineageStaysInWallet` | crates/bloom-broker/src/authority.rs:1573-1731 | in every reachable state stored limits are well formed and a whole lineage is of one wallet |
| `Authority.AdvancedWalletGivesNothing` | crates/bloom-broker/src/authority.rs:3163-3211 | after a local advance nothing of the wallet is prepared, activated or charged in any continuation without a reconciliation of it |
| `Accounting.SaturatedWindowExact` | crates/bloom-broker/src/journal.rs:3252-3262 | the saturated window equals the interval (t - d, t] if and only if t >= d or nothing was charged at time zero |
| `Accounting.ApprovalLimitState` | crates/bloom-broker/src/journal.rs:944-993 | the operation counters are the ledger's partition by state, the signature counters the same stopped at the largest 64-bit number |
| `Limits.WindowsHoldAcrossRenewals` | crates/bloom-broker/src/journal.rs:3214-3347 | in every reachable state, at every unreleased charge, every reviewed rate window, and every value window of an asset the charge moves, stays within its maximum over the whole renewal lineage |
| `Limits.WindowsExactAtCharge` | crates/bloom-broker/src/journal.rs:3291-3347 | right after any charge each reviewed window holds over the lineage if and only if it is a rate window, the charge moves its asset, or the lineage was within it before; and it then holds at that charge in every continuation |
| `Limits.LifetimesHold` | crates/bloom-broker/src/journal.rs:1458-1504 | in every reachable state every approval is within its lifetime operations, signatures and values, and reservation keys are unique |
| `Limits.LimitStateOf` | crates/bloom-broker/src/journal.rs:944-993 | in reachable states the published counters are exactly the partition by state, add up to the approval's unreleased use and stay within the lifetime limits |
| `Instants.WindowsHoldAtEveryInstant` | crates/bloom-broker/src/journal.rs:3214-3347 | an approval's own charges keep every reviewed window at every instant, not only when it charges |
| `Instants.LineageInstantsExact` | crates/bloom-broker/src/journal.rs:3214-3347 | in every reachable state the whole lineage keeps a reviewed window at every instant if and only if it keeps it at the instants at which the approval's ancestors were charged |
| `Instants.LineageHoldsAfterOwnCharge` | crates/bloom-broker/src/journal.rs:3214-3347 | at any instant where a charge of the approval is the latest of its lineage's charges in the window, the lineage keeps the window, whatever the clock did |
| `Instants.LineageHoldsAtEveryInstant` | crates/bloom-broker/src/journal.rs:3214-3347 | with the clock initialized before the lineage is charged, that is the case at every instant whose window holds a charge of the approval itself |
| `Instants.UnmovedAssetEscapes` | crates/bloom-broker/src/journal.rs:3304-3306 | a reachable state in which a charge that moves nothing stands in a value window its lineage has overrun by any amount |
| `Instants.UnclockedAncestorEscapes` | crates/bloom-broker/src/journal.rs:3138-3179 | a reachable state in which an ancestor charged without a clock puts two operations into its renewal's window of one |
| `Instants.ChargesAtZeroEscape` | crates/bloom-broker/src/journal.rs:3252-3262 | a reachable state with any number of charges at time zero under a window of one operation |
| `Renewals.RenewalsFormChains` | crates/bloom-broker/src/journal.rs:767-876 | no approval has two successors that ever activated, and everything an activated approval renews is retired in every continuation |
| `Renewals.LineageEndsExactly` | crates/bloom-broker/src/journal.rs:3222-3234 | on any table the recursive query ends if and only if none of its rows comes twice |
| `Renewals.LineageEndsWhenReachable` | crates/bloom-broker/src/journal.rs:3222-3234 | in every reachable state the query ends, for a stored approval within its own row number, because what it renews was stored before it |
| `Renewals.SelfRenewalNeverEnds` | crates/bloom-broker/src/journal.rs:3222-3234 | on a table where an approval renews itself every row of the query is that approval again |
| `Renewals.LineageIsItsRows` | crates/bloom-broker/src/journal.rs:3222-3234 | on any table the lineage holds exactly the approvals among the query's rows |
| `Renewals.LineageQuery` | crates/bloom-broker/src/journal.rs:3222-3234 | where the query ends, reading it row after row yields exactly the renewal lineage |
| `Renewals.RetiredForever` | crates/bloom-broker/src/journal.rs:3373-3394 | retirement is permanent |
| `Stops.StoppedKeysStayStopped` | crates/bloom-broker/src/authority.rs:2054-2150 | after a stop commits, every continuation by either activation path leaves the key's active Petal approvals within those active then |
| `Stops.StopReplay` | crates/bloom-broker/src/authority.rs:2054-2150 | a replay at any later time writes nothing, keeps the first targets, which are the approvals then bound to the key, and refuses other parameters |
| `Stops.ReplayAnswersTheList` | crates/bloom-broker/src/authority.rs:2054-2150 | the first execution and every replay answer one and the same target list, sorted by approval and naming exactly the approvals then bound |
| `Stops.ListTargets` | crates/bloom-broker/src/journal.rs:1149-1189 | the recorded targets, each once, sorted by approval |
| `Revocation.EndedForever` | crates/bloom-broker/src/authority.rs:2352-2734 | authority ended by a tombstone or a newer epoch is refused by every later authorization and never charged again, at every crash point |
| `Revocation.RevocationGrows` | crates/bloom-broker/src/authority.rs:3081-3161 | the tombstone union only grows, unchanged, and no wallet epoch decreases |
| `Revocation.EpochReachable` | crates/bloom-broker/src/authority.rs:1573-1731 | no stored approval is ahead of its wallet's epoch |
| `BrokerStore.ReconciliationMeans` | crates/bloom-broker/src/authority.rs:2958-3044 | after a reconciliation everything named is tombstoned and dead, the epoch is the larger one, reconciled exactly when the Signer was not behind, and an adopted epoch leaves only approvals of that epoch live |
| `Publication.ResultsMeanCommitment` | crates/bloom-broker/src/journal.rs:1651-1732 | in every reachable state a stored result means success, a retained receipt and a committed charge |
| `Publication.PublishedOnce` | crates/bloom-broker/src/journal.rs:1651-1732 | after publication every continuation keeps the result and its committed charge, republishing writes nothing, and no other result is ever accepted |
| `Publication.SingleIsNoBatch` | crates/bloom-broker/src/journal.rs:1734-1887 | a result published by itself is refused as a batch in every continuation |
| `Publication.BatchPublishedOnce` | crates/bloom-broker/src/journal.rs:1734-1906 | after a batch every continuation holds its result, its committed charge and its children in published order; republishing writes nothing; no other parent or child list is accepted by either publication; there were no children before |
| `Publication.ChildrenNameOneResult` | crates/bloom-broker/src/journal.rs:1734-1887 | in every reachable state a child belongs to a published batch and its identifier names no other child |
| `Identity.AttemptsAgree` | crates/bloom-broker/src/journal.rs:995-1143 | accepted attempts of one operation agree on digest, batch flag, binding and receipt |
| `Identity.RetriesAgree` | crates/bloom-broker/src/journal.rs:2484-2503 | two accepted attempts agree on every request field but the six retry fields, or the hash collides |
| `Identity.ChargedOnce` | crates/bloom-broker/src/journal.rs:1400-1553 | a repeated reservation declares the same amounts, writes nothing and keeps the first row and its time, in every continuation |
| `Identity.EveryChargeWasDeclared` | crates/bloom-broker/src/authority.rs:2352-2734 | every row of every reachable ledger is the charge of one accepted authorization of the run, and its values are exactly the sums that claim declares |
| `AuditChain.VerifiedChains` | crates/bloom-broker/src/journal.rs:2545-2695 | the verifier accepts exactly the chains that link, hash and verify and whose key changes only at a rotation completed by the next entry |
| `AuditChain.AcceptedEntriesAreSigned` | crates/bloom-broker/src/journal.rs:2545-2695 | every accepted entry carries a trusted key's signature over the hash of its number, predecessor and content |
| `AuditChain.RotationsAreConfirmed` | crates/bloom-broker/src/journal.rs:2545-2695 | at every rotation of an accepted chain the old key names its successor, which signs the confirmation and the completion |
| `AuditChain.SegmentsOfAcceptedChain` | crates/bloom-broker/src/journal.rs:2545-2695 | an accepted chain is a sequence of single-key segments ending in the current key |
| `AuditChain.AppendVerifies` | crates/bloom-broker/src/journal.rs:2505-2543 | an append keeps a chain acceptable |
| `AuditChain.RotateVerifies` | crates/bloom-broker/src/journal.rs:583-639 | a rotation keeps a chain acceptable under the new key |
| `Correlation.CorrelatedStays` | crates/bloom-broker/src/journal.rs:2697-2844 | what a logged event refers to is written once, so a correlated entry stays correlated |
| `Correlation.EventsFit` | crates/bloom-broker/src/journal.rs:2697-2844 | the events a transaction writes match the tables it leaves |
| `TailCache.TransactionExact` | crates/bloom-broker/src/journal.rs:2697-2844 | an own transaction keeps a verified database verified if and only if its grant agrees with every logged activation and its batch had no children |
| `TailCache.CacheExact` | crates/bloom-broker/src/journal.rs:2235-2391 | over any interleaving with other writers that may leave any database, every successful lock or checkpoint along the way stands for a verified chain and its true head, if and only if every own transaction committed under a trusted tail is clean |
| `TailCache.CacheRefinesVerification` | crates/bloom-broker/src/journal.rs:2235-2391 | the same for every run in which foreign writers leave the grant and child columns as the Broker writes them |
| `Degradation.LookupsExact` | crates/bloom-broker/src/journal.rs:2235-2356 | while the cached tail stands for what it says, lock and checkpoint answer exactly what full verification would, and a lock disables mutations exactly when the log does not verify |
| `Degradation.RefusedLockLatches` | crates/bloom-broker/src/journal.rs:2235-2247 | a lock leaves mutations disabled exactly when it is refused |
| `Degradation.DegradedForever` | crates/bloom-broker/src/journal.rs:2235-2247 | a degraded Broker stays degraded and has every lock refused after any actions, foreign ones included |
| `Degradation.RefusedOnceRefusedForever` | crates/bloom-broker/src/journal.rs:2235-2247 | a lock refused once is refused at every later moment, whatever came before and comes after |
| `Degradation.GuardedIsActions` | crates/bloom-broker/src/journal.rs:2235-2356 | a mutation between its lock and its checkpoint is a run of the connection's actions, so every result about runs covers it |
| `Degradation.DegradedWritesNothing` | crates/bloom-broker/src/journal.rs:565-577 | no guarded transaction or rotation of a degraded Broker changes the database, whoever else writes it |
| `OwnRuns.OwnStepsNeverDegrade` | crates/bloom-broker/src/journal.rs:2235-2391 | without foreign writers, whatever own commits append uncorrelated entries in between, the log always verifies and no lock or checkpoint fails |
| `OwnRuns.CheckpointsNeverGoBack` | crates/bloom-broker/src/journal.rs:2294-2356 | checkpoints are heads of ever longer prefixes of the log as it is now |
| `OwnRuns.InconsistentRewriteEscapes` | crates/bloom-broker/src/journal.rs:2294-2356 | a run in which another writer puts an activated approval back to its ceremony and clears its activation identifier, grant and log untouched, and the next activation is checkpointed with a log that no longer verifies |
| `CryptoSample.SampleIsSound` | crates/bloom-broker/src/journal.rs:2505-2543 | the assumptions on digests, signatures and payload texts can be met together, by an encoding that parses back |
| `Tamper.SameHeadSameLog` | crates/bloom-broker/src/journal.rs:2970-2983 | two accepted non-empty logs with one head hash agree entry by entry, or two of their entries collide |
| `Tamper.PreimageInjective` | crates/bloom-broker/src/journal.rs:2970-2983 | equal preimages of separable entries are equal entries |
| `Tamper.OwnLogSeparable` | crates/bloom-broker/src/journal.rs:2505-2543 | every entry a Broker logs by itself is separable |
| `Tamper.UnseparatedSplitIsAmbiguous` | crates/bloom-broker/src/journal.rs:2970-2983 | without the opening brace two logs are accepted under one key with one head, differ, and involve no collision |
| `Evidence.CorrelatedAgree` | crates/bloom-broker/src/journal.rs:2697-2844 | two sets of tables that match one entry agree on the receipt, result, children or grant it names, or the values collide |
| `Evidence.VerifiedDatabasesAgree` | crates/bloom-broker/src/journal.rs:2545-2844 | two verified databases with the same log agree on everything the log names, or the values collide |
| `Evidence.OwnLogIsComplete` | crates/bloom-broker/src/journal.rs:2505-2543 | the log of a Broker that ran by itself names every signing operation, result, child list and grant it holds |
| `Evidence.ReplacementsAreEvident` | crates/bloom-broker/src/journal.rs:2545-2844 | whatever verified database shares the head of a Broker that ran by itself holds the same receipts, results, children and grants, or exhibits a collision |
| `AuditLog.VerifyAuditChain` | crates/bloom-broker/src/journal.rs:2545-2695 | the one-pass loop with its running variables answers exactly whether the database verifies; what that is evidence of is `Evidence.VerifiedDatabasesAgree` |
| `AuditLog.CheckCorrelation` | crates/bloom-broker/src/journal.rs:2697-2844 | the dispatch on the event answers exactly whether the entry matches the live rows; two sets of rows it matches agree on what it names (`Evidence.CorrelatedAgree`) |
| `AuditLog.Connection.CachedAuditHead` | crates/bloom-broker/src/journal.rs:2358-2373 | answers from the cache only while data version and change counter match, verifies in full otherwise |
| `AuditLog.Connection.Lock` | crates/bloom-broker/src/journal.rs:2235-2247 | success under a sound cache means a verified log and its true head, refusal that mutations were disabled or the log does not verify; a refusal leaves mutations disabled, and disabled mutations are always refused |
| `AuditLog.Connection.Checkpoint` | crates/bloom-broker/src/journal.rs:2294-2356 | under a sound cache it checkpoints the true head if the log verifies and refuses if it does not |
| `AuditLog.Connection.AppendAudit` | crates/bloom-broker/src/journal.rs:2505-2543 | the new row continues the last one; refused exactly when its sequence leaves the 64-bit range |
| `AuditLog.Connection.RotateKey` | crates/bloom-broker/src/journal.rs:583-639 | refused for the same key or an exhausted sequence, otherwise both rotation rows are written and the new key is current; a sound cache stays sound |
| `BrokerStore.Store.PrepareApproval` | crates/bloom-broker/src/authority.rs:1573-1731 | accepted if and only if it repeats a stored record or everything a new one names is in order; then one new row awaiting its ceremony, or nothing; the store stays reachable |
| `BrokerStore.Store.ActivateApproval` | crates/bloom-broker/src/authority.rs:1827-1988 | both activation paths, only the ceremony path reading the stop table; accepted if and only if the approval is untombstoned and of its wallet's reconciled epoch, and awaits its ceremony with what it renews active, or repeats its activation; the store stays reachable |
| `BrokerStore.Store.ActivateRecord` | crates/bloom-broker/src/journal.rs:767-876 | the commit inside an activation: one compare-and-set that also revokes the renewed approval, or nothing |
| `BrokerStore.Store.TransitionApproval` | crates/bloom-broker/src/journal.rs:878-926 | the state moves along the transition table or nothing moves; retiring authority keeps the store reachable |
| `BrokerStore.Store.StopApproval` | crates/bloom-broker/src/authority.rs:3231-3245 | pending fails, live is revoked, the rest stays; it cannot fail, and the store stays reachable |
| `BrokerStore.Store.KeyRevocationTargets` | crates/bloom-broker/src/journal.rs:1149-1189 | nothing for a fresh identifier, the sorted recorded targets, or a conflict for reuse |
| `BrokerStore.Store.AdmitKeyRevocation` | crates/bloom-broker/src/authority.rs:2054-2150 | identity, targets, marker and fences are written together, or nothing; the store stays reachable |
| `BrokerStore.ApprovalsForKey` | crates/bloom-broker/src/authority.rs:2031-2049 | the loop collects exactly the approvals bound to the wallet and key |
| `BrokerStore.InsertTargets` | crates/bloom-broker/src/journal.rs:1211-1280 | one row per bound approval, refused exactly when a primary key is taken |
| `BrokerStore.Store.CompleteKeyRevocation` | crates/bloom-broker/src/journal.rs:1284-1308 | a received operation succeeds, anything else is untouched; the store stays reachable for the by-key stops its one caller passes |
| `BrokerStore.Store.InstallPolicy` | crates/bloom-broker/src/authority.rs:792-796 | a first installation opens the wallet at a reconciled epoch zero, later ones leave the epoch alone; the store stays reachable |
| `BrokerStore.Store.StoreSignerTombstones` | crates/bloom-broker/src/authority.rs:3081-3161 | the union replaces nothing: it is stored or refused whole; the store stays reachable |
| `BrokerStore.UnionKeepsHistory` | crates/bloom-broker/src/authority.rs:3081-3161 | accepted exactly when no stored tombstone of the wallet is missing or differs |
| `BrokerStore.InsertTombstones` | crates/bloom-broker/src/authority.rs:3081-3161 | each tombstone is inserted, kept, or refused when it conflicts |
| `BrokerStore.Store.RevokeOlderApprovals` | crates/bloom-broker/src/authority.rs:3213-3229 | exactly the wallet's approvals below the epoch are stopped, one commit each |
| `BrokerStore.Store.AdvanceLocalEpoch` | crates/bloom-broker/src/authority.rs:3163-3211 | a stale or non-increasing epoch writes nothing; otherwise afterwards every live approval of the wallet carries the new epoch |
| `BrokerStore.Store.ReconcileRevocation` | crates/bloom-broker/src/authority.rs:2958-3044 | refused whole, or tombstones, stops, epoch and sweep in that order, each a commit |
| `BrokerStore.Store.BeginSignAttempt` | crates/bloom-broker/src/journal.rs:995-1143 | a first attempt admits the operation, a retry must match it, a conflicting attempt writes nothing; the store stays reachable |
| `BrokerStore.Store.TransitionOperation` | crates/bloom-broker/src/journal.rs:1334-1390 | an unpublished signing operation moves along the transition table or nothing moves; the store stays reachable |
| `BrokerStore.Store.Reserve` | crates/bloom-broker/src/journal.rs:1400-1553 | the commit inside an authorization, on any tables whose lineage query ends: accepted if and only if the approval is active, the clock admits the instant and the charge repeats an open row or fits every limit; one row is added or nothing |
| `BrokerStore.Store.PassGate` | crates/bloom-broker/src/authority.rs:2352-2628 | passes if and only if the approval is stored, untombstoned, active, within its validity and of its wallet's reconciled epoch and the request's own checks hold; answers the reviewed limits, or the first refusal in the source's order |
| `BrokerStore.Store.Authorize` | crates/bloom-broker/src/authority.rs:2352-2734 | accepted if and only if the gate passes, the claim is accounted and approved, the identity matches and the ledger takes the charge; checks in the source's order; the store stays reachable |
| `BrokerStore.Store.FinalizeReservation` | crates/bloom-broker/src/journal.rs:1555-1613 | an open reservation is settled once; repeating the same settlement is accepted; the store stays reachable |
| `BrokerStore.Store.PublishResult` | crates/bloom-broker/src/journal.rs:1651-1732 | result, success and committed charge are written together; a replay must be identical; the store stays reachable |
| `BrokerStore.Store.PublishBatch` | crates/bloom-broker/src/journal.rs:1734-1887 | the parent and its ordered children are written together; a replay must match both; the store stays reachable |
| `BrokerStore.Store.BatchChildren` | crates/bloom-broker/src/journal.rs:1889-1906 | the parent's children in ordinal order |
| `BrokerStore.InsertChildren` | crates/bloom-broker/src/journal.rs:1734-1887 | the rows are inserted exactly when both unique keys admit all of them |
| `BrokerStore.Store.ObserveTime` | crates/bloom-broker/src/journal.rs:1978-2143 | the decision is persisted and time does not go back; a rate-limited caller is then refused an untrusted or frozen reading that stays committed; the store stays reachable |
| `BrokerStore.Store.RepairClock` | crates/bloom-broker/src/journal.rs:2145-2203 | repair needs an initialized clock and never moves it back; the store stays reachable |
| `MutationQuota.Quota.ConsumeMutation` | crates/bloom-broker/src/authority.rs:2894-2956 | the principal's window is advanced, or the request refused with nothing written |
| `MutationQuota.QuotaBoundsRate` | crates/bloom-broker/src/authority.rs:2894-2956 | for any clock-ordered interleaving of principals, a window admits at most the maximum and any interval of one window's length less than twice it |
| `MutationQuota.QuotaBoundIsTight` | crates/bloom-broker/src/authority.rs:2894-2956 | for every window above one and every maximum the interval bound is reached |
| `MutationQuota.AnyClockExact` | crates/bloom-broker/src/authority.rs:2894-2956 | every sequence of clock readings keeps the interval bound if and only if the maximum is one |
| `MutationQuota.SteppedBackClockEscapes` | crates/bloom-broker/src/authority.rs:2894-2956 | for every maximum above one, under a clock that steps back one interval can admit any number |
| `MutationQuota.PrincipalsAreIndependent` | crates/bloom-broker/src/authority.rs:2894-2956 | serving everyone is, for each principal, serving that principal alone |
| `SolanaBinding.NormalizedMessage` | crates/bloom-broker-api/src/solana_review.rs:21-63 | the in-place blanking yields the normal form exactly for messages whose blockhash is found |
| `SolanaBinding.NormalizeStable` | crates/bloom-broker-api/src/solana_review.rs:21-63 | blanking never moves the parsed offset and is idempotent |
| `SolanaBinding.NormalFormsAgree` | crates/bloom-broker-api/src/solana_review.rs:21-63 | two messages have one normal form if and only if they differ only in the blockhash |
| `SolanaBinding.BindingsAgree` | crates/bloom-broker-api/src/solana_review.rs:21-63 | they bind alike exactly then, or the hash collides |
| `SolanaBinding.OneEncodingPerCount` | crates/bloom-broker-api/src/solana_review.rs:21-63 | a count of at most 256 is read if and only if its single encoding stands there |
| `SolanaBinding.LaidOutIsAccepted` | crates/bloom-broker-api/src/solana_review.rs:21-63 | every message laid out as version, header, counted keys, blockhash and rest within the size limit is accepted at its blockhash |
| `SolanaBinding.AcceptedIsLaidOut` | crates/bloom-broker-api/src/solana_review.rs:21-63 | every accepted message is laid out like this around the blockhash found |
| `DerivationPath.PathMatches` | crates/bloom-broker/src/authority.rs:3480-3510 | the loop answers segment-wise agreement with the template and the effective account |
| `DerivationPath.CanonicalIndexes` | crates/bloom-broker/src/authority.rs:3512-3537 | canonical index segments are exactly the printed 32-bit numbers |
| `DerivationPath.EvmPathsArePrinted` | crates/bloom-broker/src/authority.rs:3480-3510 | an EVM path matches an account exactly when it is the template printed with it and an index |
| `DerivationPath.SolanaPinnedPath` | crates/bloom-broker/src/authority.rs:3480-3510 | a Solana path matches a pinned account exactly when it is the template printed with it |
| `DerivationPath.SolanaPathsArePrinted` | crates/bloom-broker/src/authority.rs:3480-3510 | without a pinned account, exactly the template printed with some account below 2^31 matches |
| `DerivationPath.OneSpellingPerAccount` | crates/bloom-broker/src/authority.rs:3468-3510 | a path is accepted with number n if and only if n is in range and the path is the template printed with n |
| `ArtifactScan.ScanFile` | crates/bloom-broker-debug-driver/src/artifact_scan.rs:435-498 | keeping one byte less than the longest needle between reads, a secret is found exactly when it occurs in the whole file; clean exactly when it does not and the file did not change |
| `ArtifactScan.OverlapSuffices` | crates/bloom-broker-debug-driver/src/artifact_scan.rs:435-498 | the bytes kept between reads show every occurrence the next read completes |

## Left out

- SQLite itself, WAL and locking, schema migration and the legacy stores.
- Ed25519, SHA-256, canonical JSON, base64 and identifier parsing: these are the parameters of `Crypto` and `Codec`.
- The trusted-time evaluator is not part of this model; a decision below the persisted time is refused, as the durable clock floor (README.md:321-322) promises.
- The host-wall-clock reservation profile; only the durable-clock profile is modelled.
- Claim, policy, provenance and grant validation inside prepare, activate and authorize; each arrives as a boolean of the request.
- Clear-signing, EVM and Solana review, assurance verification and address derivation.
- TransitionApproval: keeps the store reachable only when it retires authority, because transitions into ACTIVE or back to a ceremony are allowed by the table but asked for by no caller.
- CompleteKeyRevocation: keeps the store reachable unless it completes a received signing operation, which the statement would do but its one caller never asks for; runs take the step for by-key stops only.
- `stop_key`, the two-commit form of a by-key stop without an operation identity.
- Reserve: requires that the lineage query ends, because on a table where it does not the source gives no answer; every reachable store meets it.
- Authorize: a value refusal that names the declared fee asset keeps the code of the ledger, because its renaming to FEE_LIMIT_EXCEEDED depends on the wording of the message.
- Acceptance rules of the external checkpoint store and its own failure path.
- Members of audit payloads that verification does not read are one opaque text.
- Fault hooks, logging, configuration, network and user interface.
