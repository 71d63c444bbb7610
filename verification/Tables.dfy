/**
  The durable tables of one Broker and the transactions over them. Every
  function below is one SQLite transaction: it returns the new tables, or the
  refusal that leaves them as they were. Checks that the source settles outside
  these tables (signatures, policy, provenance, claim validation) arrive as
  booleans of the request.
*/
module Tables {
  import opened Wrappers
  import opened Accounting
  import opened Budget

  // --------------------------------------------------------------- approvals

  datatype ApprovalState =
    Prepared | AwaitingCeremony | Orphaned | Active | Exhausted | Expired | Revoked | Cancelled | Failed

  datatype Selector = Exact | Petal

  datatype Terms = Terms(
    wallet: string,
    keyRef: string,
    selector: Selector,
    limits: ApprovalLimits,
    epoch: U64,
    notBeforeMs: U64,
    expiresAtMs: U64,
    renewalOf: Option<string>,
    rest: string)

  /** One row of `approvals` joined with `approval_metadata`; `row` is its insertion order. */
  datatype Approval = Approval(
    row: nat,
    terms: Terms,
    review: string,
    claim: Option<string>,
    state: ApprovalState,
    activationOp: Option<string>,
    grant: Option<string>)

  // -------------------------------------------------------------- operations

  datatype OperationState =
    Received | Validated | OpReserved | Dispatched | DownstreamAccepted | OpCommitted
    | Succeeded | Denied | OpCancelled | OpFailed | OpQuarantined

  datatype Kind = Signing | KeyRevocation

  datatype Receipt = Receipt(approval: string, operationDigest: string, rest: string)

  datatype SigningResult = SigningResult(
    operation: string, digest: string, signerReceipt: string, brokerReceipt: string, rest: string)

  datatype Operation = Operation(
    digest: string,
    binding: string,
    state: OperationState,
    isBatch: bool,
    result: Option<SigningResult>,
    receipt: Option<Receipt>,
    kind: Kind)

  /** A row of `operation_attempts`: a signing attempt, or a target of a by-key stop. */
  datatype Mark = SignAttempt(digest: string) | StopTarget(outer: string, approval: string)

  // ------------------------------------------------------------------- clock

  datatype ClockCondition = Healthy | ForwardJumpRejected | Untrusted | RollbackFrozen | Repaired

  datatype Clock = Clock(effectiveMs: U64, condition: ClockCondition)

  // -------------------------------------------------------------- revocation

  datatype Tombstone = Tombstone(wallet: string, text: string)

  datatype Epoch = Epoch(value: U64, reconciled: bool)

  datatype Tables = Tables(
    approvals: map<string, Approval>,
    rows: nat,
    operations: map<string, Operation>,
    attempts: map<(string, string), Mark>,
    children: map<(string, nat), SigningResult>,
    reservations: seq<Reservation>,
    clock: Option<Clock>,
    stops: map<(string, string), string>,
    tombstones: map<string, Tombstone>,
    epochs: map<string, Epoch>)

  const EMPTY := Tables(map[], 0, map[], map[], map[], [], None, map[], map[], map[])

  // ----------------------------------------------------------------- lineage

  /**
    Row `n` of the recursive lineage query: the approval itself, then what the row
    before it renews. The query is a `UNION ALL`, so it drops no row it has had before.
  */
  function LineageRow(approvals: map<string, Approval>, id: string, n: nat): Option<string>
  {
    if n == 0 then Some(id)
    else
      match LineageRow(approvals, id, n - 1)
      case None => None
      case Some(row) => if row in approvals then approvals[row].terms.renewalOf else None
  }

  /** The query ends when it runs out of rows. */
  ghost predicate Ends(approvals: map<string, Approval>, id: string)
  {
    exists n: nat :: LineageRow(approvals, id, n).None?
  }

  /** The approvals among the query's rows: an approval and everything it renews, at any distance. */
  function Lineage(approvals: map<string, Approval>, id: string): set<string>
  {
    LineageFrom(approvals, id, {})
  }

  /** The rows from one approval on, as a set; `seen` only bounds this definition, the query has no such set. */
  function LineageFrom(approvals: map<string, Approval>, id: string, seen: set<string>): set<string>
    decreases approvals.Keys - seen
  {
    if id in approvals && id !in seen && approvals[id].terms.renewalOf.Some?
    then {id} + LineageFrom(approvals, approvals[id].terms.renewalOf.value, seen + {id})
    else {id}
  }

  // -------------------------------------------------------- approval lifecycle

  predicate Pending(s: ApprovalState)
  {
    s == Prepared || s == AwaitingCeremony
  }

  /** `valid_approval_transition`. */
  predicate ValidApprovalTransition(current: ApprovalState, next: ApprovalState)
  {
    match current
    case Prepared => next in {AwaitingCeremony, Cancelled, Failed, Expired}
    case AwaitingCeremony => next in {Active, Orphaned, Cancelled, Failed, Expired}
    case Orphaned => next in {Active, Revoked, Failed}
    case Active => next in {Exhausted, Expired, Revoked}
    case _ => false
  }

  /** `ensure_key_not_stopped`: only reusable Petal authority is stopped with its key. */
  predicate Stopped(t: Tables, terms: Terms)
  {
    terms.selector == Petal && (terms.wallet, terms.keyRef) in t.stops
  }

  function EpochOf(t: Tables, wallet: string): Epoch
  {
    if wallet in t.epochs then t.epochs[wallet] else Epoch(0, false)
  }

  datatype PrepareRequest = PrepareRequest(
    id: string,
    terms: Terms,
    review: string,
    claim: Option<string>,
    termsValid: bool,
    policyEnabled: bool,
    policyMatches: bool,
    provenanceMatches: bool)

  function PredecessorCheck(t: Tables, terms: Terms): Result<()>
  {
    match terms.renewalOf
    case None => Ok(())
    case Some(p) =>
      if p !in t.approvals then Err(ApprovalNotFound)
      else Need(t.approvals[p].terms.wallet == terms.wallet && t.approvals[p].state == Active, RenewalPredecessorInvalid)
  }

  /** `prepare_approval_with_claim`. */
  function PrepareApproval(t: Tables, q: PrepareRequest): (r: Result<Tables>)
    ensures r.Ok? ==> r.value == t.(approvals := r.value.approvals, rows := r.value.rows)
  {
    var _ :- Need(q.termsValid && ValidLimits(q.terms.limits), ApprovalInvalid);
    var _ :- Need(!Stopped(t, q.terms), KeyStopped);
    var _ :- Need(q.policyEnabled, PolicyRefused);
    if q.id in t.approvals then
      var a := t.approvals[q.id];
      var _ :- Need(a.terms == q.terms && a.review == q.review && a.claim == q.claim, OperationIdConflict);
      Ok(t)
    else
      var _ :- Need(q.id !in t.tombstones, ApprovalRevoked);
      var _ :- Need(q.policyMatches, PolicyRefused);
      var e := EpochOf(t, q.terms.wallet);
      var _ :- Need(e.reconciled && q.terms.epoch == e.value, EpochUnreconciled);
      var _ :- Need(q.provenanceMatches, PolicyRefused);
      var _ :- PredecessorCheck(t, q.terms);
      var a := Approval(t.rows, q.terms, q.review, q.claim, AwaitingCeremony, None, None);
      Ok(t.(approvals := t.approvals[q.id := a], rows := t.rows + 1))
  }

  /** Ceremony grants are activated by one path, Signer receipts by another. */
  datatype ActivationPath = CeremonyGrant | SignerReceipt

  datatype ActivateRequest = ActivateRequest(
    id: string,
    operation: string,
    grant: string,
    path: ActivationPath,
    authentic: bool,
    policyEnabled: bool,
    bindingMatches: bool)

  /** `activate_approval_record`: renewal revokes its predecessor in the same commit. */
  function ActivateRecord(t: Tables, id: string, operation: string, grant: string): (r: Result<Tables>)
    ensures r.Ok? ==> r.value == t.(approvals := r.value.approvals)
  {
    var _ :- Need(id in t.approvals, ApprovalNotFound);
    var a := t.approvals[id];
    if a.activationOp.Some? then
      var _ :- Need(a.activationOp.value == operation && a.state == Active, OperationIdConflict);
      Ok(t)
    else
      var _ :- Need(a.state == AwaitingCeremony, OperationIdConflict);
      var approvals :- RevokePredecessor(t.approvals, a.terms.renewalOf);
      // UNIQUE (activation_operation_id)
      var _ :- Need(forall o :: o in approvals ==> approvals[o].activationOp != Some(operation), Storage);
      Ok(t.(approvals := approvals[id := a.(state := Active, activationOp := Some(operation), grant := Some(grant))]))
  }

  function RevokePredecessor(approvals: map<string, Approval>, renewalOf: Option<string>): Result<map<string, Approval>>
  {
    match renewalOf
    case None => Ok(approvals)
    case Some(p) =>
      var _ :- Need(p in approvals, ApprovalNotFound);
      var _ :- Need(approvals[p].state == Active, OperationIdConflict);
      Ok(approvals[p := approvals[p].(state := Revoked)])
  }

  /** `activate_approval` and `activate_signer_receipt`; only the first reads the stop table. */
  function ActivateApproval(t: Tables, q: ActivateRequest): (r: Result<Tables>)
    ensures r.Ok? ==> r.value == t.(approvals := r.value.approvals)
  {
    var _ :- Need(q.authentic, CeremonyGrantInvalid);
    var _ :- Need(q.id in t.approvals, ApprovalNotFound);
    var _ :- Need(q.id !in t.tombstones, ApprovalRevoked);
    var terms := t.approvals[q.id].terms;
    var _ :- Need(q.path == CeremonyGrant ==> !Stopped(t, terms), KeyStopped);
    var _ :- Need(q.policyEnabled, PolicyRefused);
    var e := EpochOf(t, terms.wallet);
    var _ :- Need(e.reconciled && e.value == terms.epoch, EpochUnreconciled);
    var _ :- Need(q.bindingMatches, CeremonyGrantMismatch);
    ActivateRecord(t, q.id, q.operation, q.grant)
  }

  /** `transition_approval`. */
  function TransitionApproval(t: Tables, id: string, next: ApprovalState): (r: Result<Tables>)
    ensures r.Ok? ==> r.value == t.(approvals := r.value.approvals)
  {
    var _ :- Need(id in t.approvals, ApprovalNotFound);
    var _ :- Need(ValidApprovalTransition(t.approvals[id].state, next), OperationIdConflict);
    Ok(t.(approvals := t.approvals[id := t.approvals[id].(state := next)]))
  }

  /** What the Broker's own calls of `transition_approval` ask for; activation has its own path. */
  predicate Retiring(s: ApprovalState)
  {
    s != Active && !Pending(s)
  }

  /** Where `stop_approval` takes a state: pending fails, live is revoked, the rest stays. */
  function StopState(s: ApprovalState): Option<ApprovalState>
  {
    if Pending(s) then Some(Failed)
    else if s == Orphaned || s == Active then Some(Revoked)
    else None
  }

  /** `stop_approval`. */
  function StopApproval(t: Tables, id: string): (r: Result<Tables>)
    ensures r.Ok? ==> r.value == t.(approvals := r.value.approvals)
  {
    if id in t.approvals && StopState(t.approvals[id].state).Some?
    then TransitionApproval(t, id, StopState(t.approvals[id].state).value)
    else Ok(t)
  }

  // ------------------------------------------------------------- by-key stops

  datatype StopRequest = StopRequest(
    operation: string, wallet: string, keyRef: string, parameters: string, stoppedAtMs: U64)

  predicate BoundTo(a: Approval, wallet: string, keyRef: string)
  {
    a.terms.wallet == wallet && a.terms.keyRef == keyRef
  }

  /** `approvals_for_key`. */
  function BoundApprovals(t: Tables, wallet: string, keyRef: string): set<string>
  {
    set id | id in t.approvals && BoundTo(t.approvals[id], wallet, keyRef)
  }

  /** `key_revocation_targets`, keyed by approval. */
  function StopTargets(t: Tables, operation: string): map<string, Mark>
  {
    map key | key in t.attempts && key.0 == operation :: key.1 := t.attempts[key]
  }

  /** Pending ceremonies bound to the key fail, whatever their selector. */
  function Fence(approvals: map<string, Approval>, ids: set<string>): map<string, Approval>
  {
    map id | id in approvals ::
      if id in ids && Pending(approvals[id].state) then approvals[id].(state := Failed) else approvals[id]
  }

  function NewTargets(operation: string, ids: set<string>): map<(string, string), Mark>
  {
    map id | id in ids :: (operation, id) := StopTarget(operation, id)
  }

  /** `admit_key_revocation`: identity, targets, marker and fences in one commit. */
  function AdmitStop(t: Tables, q: StopRequest): (r: Result<Tables>)
    ensures r.Ok? ==> r.value == t.(operations := r.value.operations, attempts := r.value.attempts, stops := r.value.stops, approvals := r.value.approvals)
  {
    if q.operation in t.operations then
      var o := t.operations[q.operation];
      var _ :- Need(o.kind == KeyRevocation && o.digest == q.parameters, OperationIdConflict);
      Ok(t)
    else
      var _ :- Need(q.stoppedAtMs <= I64_MAX, Storage);
      var bound := BoundApprovals(t, q.wallet, q.keyRef);
      // Primary key of operation_attempts.
      var _ :- Need(forall id :: id in bound ==> (q.operation, id) !in t.attempts, Storage);
      var o := Operation(q.parameters, q.parameters, Received, false, None, None, KeyRevocation);
      Ok(t.(operations := t.operations[q.operation := o],
            attempts := t.attempts + NewTargets(q.operation, bound),
            stops := t.stops[(q.wallet, q.keyRef) := q.operation],
            approvals := Fence(t.approvals, bound)))
  }

  /** `complete_key_revocation`. */
  function CompleteStop(t: Tables, operation: string): (r: Result<Tables>)
    ensures r.Ok? ==> r.value == t.(operations := r.value.operations)
  {
    if operation in t.operations && t.operations[operation].state == Received
    then Ok(t.(operations := t.operations[operation := t.operations[operation].(state := Succeeded)]))
    else Ok(t)
  }

  // --------------------------------------------------- Signer reconciliation

  /** No stored tombstone of the wallet is missing from the union or differs from it. */
  predicate KeepsHistory(stored: map<string, Tombstone>, wallet: string, incoming: map<string, string>)
  {
    forall id :: id in stored && stored[id].wallet == wallet ==> id in incoming && incoming[id] == stored[id].text
  }

  predicate AgreesWith(stored: map<string, Tombstone>, incoming: map<string, string>)
  {
    forall id :: id in incoming && id in stored ==> incoming[id] == stored[id].text
  }

  /** `store_signer_tombstones`: the signed union may only grow. */
  function StoreTombstones(t: Tables, wallet: string, incoming: map<string, string>): (r: Result<Tables>)
    ensures r.Ok? ==> r.value == t.(tombstones := r.value.tombstones)
  {
    var _ :- Need(KeepsHistory(t.tombstones, wallet, incoming), RevocationStateInvalid);
    var _ :- Need(AgreesWith(t.tombstones, incoming), RevocationStateInvalid);
    Ok(t.(tombstones := (map id | id in incoming :: Tombstone(wallet, incoming[id])) + t.tombstones))
  }

  datatype Reconciliation = PushLocalEpoch | Converged | AdoptedSignerEpoch

  function ReconcileOutcome(t: Tables, wallet: string, signer: U64): Reconciliation
  {
    var local := EpochOf(t, wallet).value;
    if signer < local then PushLocalEpoch else if signer == local then Converged else AdoptedSignerEpoch
  }

  /** The epoch write of `reconcile_revocation`. */
  function ReconcileEpoch(t: Tables, wallet: string, signer: U64): (r: Result<Tables>)
    ensures r.Ok? ==> r.value == t.(epochs := r.value.epochs)
  {
    var local := EpochOf(t, wallet).value;
    var e := match ReconcileOutcome(t, wallet, signer)
             case PushLocalEpoch => Epoch(local, false)
             case Converged => Epoch(local, true)
             case AdoptedSignerEpoch => Epoch(signer, true);
    Ok(t.(epochs := t.epochs[wallet := e]))
  }

  /** The epoch write of `advance_local_epoch`. */
  function AdvanceEpoch(t: Tables, wallet: string, expected: U64, next: U64): (r: Result<Tables>)
    ensures r.Ok? ==> r.value == t.(epochs := r.value.epochs)
  {
    var _ :- Need(next > expected, EpochRollback);
    var _ :- Need(wallet in t.epochs, PolicyNotFound);
    var _ :- Need(t.epochs[wallet].value == expected, EpochStale);
    Ok(t.(epochs := t.epochs[wallet := Epoch(next, false)]))
  }

  /** The epoch row a first policy installation creates. */
  function InstallPolicy(t: Tables, wallet: string): (r: Result<Tables>)
    ensures r.Ok? ==> r.value == t.(epochs := r.value.epochs)
  {
    Ok(if wallet in t.epochs then t else t.(epochs := t.epochs[wallet := Epoch(0, true)]))
  }

  // -------------------------------------------------------- signing operations

  datatype AttemptRequest = AttemptRequest(
    operation: string,
    digest: string,
    attempt: string,
    attemptDigest: string,
    binding: string,
    receipt: Receipt,
    isBatch: bool,
    digestsMatch: bool)

  /** `INSERT OR IGNORE INTO operation_attempts`: both its keys may swallow the row. */
  function RecordAttempt(attempts: map<(string, string), Mark>, q: AttemptRequest): map<(string, string), Mark>
  {
    if (q.operation, q.attempt) in attempts
       || exists key :: key in attempts && key.0 == q.operation && attempts[key] == SignAttempt(q.attemptDigest)
    then attempts
    else attempts[(q.operation, q.attempt) := SignAttempt(q.attemptDigest)]
  }

  /** `begin_sign_attempt`. */
  function BeginAttempt(t: Tables, q: AttemptRequest): (r: Result<Tables>)
    ensures r.Ok? ==> r.value == t.(operations := r.value.operations, attempts := r.value.attempts)
  {
    var _ :- Need(q.digestsMatch && q.receipt.operationDigest == q.digest, OperationIdConflict);
    var t' :-
      if q.operation in t.operations then
        var o := t.operations[q.operation];
        var _ :- Need(o.digest == q.digest && o.isBatch == q.isBatch && o.binding == q.binding, OperationIdConflict);
        var _ :- Need(o.receipt.Some?, Storage);
        var _ :- Need(o.receipt.value == q.receipt, OperationIdConflict);
        Ok(t)
      else
        var o := Operation(q.digest, q.binding, Received, q.isBatch, None, Some(q.receipt), Signing);
        Ok(t.(operations := t.operations[q.operation := o]));
    var key := (q.operation, q.attempt);
    var _ :- Need(key in t.attempts ==> t.attempts[key] == SignAttempt(q.attemptDigest), OperationIdConflict);
    Ok(t'.(attempts := RecordAttempt(t.attempts, q)))
  }

  /** `valid_operation_transition`. */
  predicate ValidOperationTransition(current: OperationState, next: OperationState)
  {
    match current
    case Received => next in {Validated, Denied, OpCancelled, OpFailed}
    case Validated => next in {OpReserved, Denied, OpCancelled, OpFailed}
    case OpReserved => next in {Dispatched, Denied, OpCancelled, OpFailed}
    case Dispatched => next in {DownstreamAccepted, OpFailed, OpQuarantined}
    case DownstreamAccepted => next in {OpCommitted, OpFailed, OpQuarantined}
    case OpCommitted => next in {Succeeded, OpFailed, OpQuarantined}
    case _ => false
  }

  /** `transition_operation`. */
  function TransitionOperation(t: Tables, operation: string, next: OperationState): (r: Result<Tables>)
    ensures r.Ok? ==> r.value == t.(operations := r.value.operations)
  {
    var _ :- Need(operation in t.operations, ApprovalNotFound);
    var o := t.operations[operation];
    var _ :- Need(o.kind != KeyRevocation, OperationIdConflict);
    var _ :- Need(o.result.None? && ValidOperationTransition(o.state, next), OperationIdConflict);
    Ok(t.(operations := t.operations[operation := o.(state := next)]))
  }

  // ------------------------------------------------------------- reservations

  /** The index of a reservation by primary key, or the table's length. */
  function Find(rows: seq<Reservation>, approval: string, operation: string): (i: nat)
    ensures i <= |rows|
    ensures i < |rows| ==> rows[i].approval == approval && rows[i].operation == operation
    ensures forall j :: 0 <= j < i ==> !(rows[j].approval == approval && rows[j].operation == operation)
  {
    if rows == [] then 0
    else if rows[0].approval == approval && rows[0].operation == operation then 0
    else 1 + Find(rows[1..], approval, operation)
  }

  /** `validate_reservation_clock` under the durable-clock profile. */
  function ClockCheck(clock: Option<Clock>, at: nat, trusted: bool): Result<()>
  {
    match clock
    case None => Need(!trusted, ClockUntrusted)
    case Some(c) =>
      var _ :- Need(trusted ==> c.condition in {Healthy, ForwardJumpRejected, Repaired}, ClockUntrusted);
      Need(c.effectiveMs == at, ClockUntrusted)
  }

  predicate TrustedTimeRequired(limits: BudgetLimits)
  {
    limits.rateLimits != [] || limits.rollingValueLimits != []
  }

  function RowOf(q: ReservationRequest): Reservation
  {
    Reservation(q.approval, q.operation, q.digest, q.signatures, q.at, q.values, Reserved)
  }

  predicate Matches(r: Reservation, q: ReservationRequest)
  {
    r.digest == q.digest && r.signatures == q.signatures && r.values == q.values
  }

  /** `reserve_for_clock_profile` with the durable-clock guard on. */
  function Reserve(t: Tables, q: ReservationRequest, limits: BudgetLimits): (r: Result<Tables>)
    ensures r.Ok? ==> r.value == t.(reservations := r.value.reservations)
  {
    var _ :- Need(q.signatures != 0, BackendInvalidRequest);
    var _ :- Need(q.approval in t.approvals && t.approvals[q.approval].state == Active, ApprovalRevoked);
    var _ :- ClockCheck(t.clock, q.at, TrustedTimeRequired(limits));
    var i := Find(t.reservations, q.approval, q.operation);
    if i < |t.reservations| then
      var r := t.reservations[i];
      var _ :- Need(r.state == Reserved && Matches(r, q), OperationIdConflict);
      Ok(t)
    else
      var _ :- Verdict(t.reservations, Lineage(t.approvals, q.approval), q, limits);
      Ok(t.(reservations := t.reservations + [RowOf(q)]))
  }

  datatype AuthorizeRequest = AuthorizeRequest(
    approval: string,
    operation: string,
    digest: string,
    signatures: U64,
    at: U64,
    claim: Claim,
    requestMatches: bool,
    policyMatches: bool,
    claimMatches: bool,
    approvedClaim: bool,
    identityMatches: bool)

  /** The reservation a signing request asks for: what its claim declares is what it charges. */
  function ChargeOf(limits: ApprovalLimits, q: AuthorizeRequest): Result<ReservationRequest>
  {
    var values :- DeclaredValues(limits.values, q.claim);
    Ok(ReservationRequest(q.approval, q.operation, q.digest, q.signatures, q.at, values))
  }

  /** The gate of `authorize_for_clock_profile`: the limits of an approval that may be charged now. */
  function Gate(t: Tables, q: AuthorizeRequest): Result<ApprovalLimits>
  {
    var id := q.approval;
    var _ :- Need(id in t.approvals, ApprovalNotFound);
    var a := t.approvals[id];
    var _ :- Need(id !in t.tombstones, ApprovalRevoked);
    var _ :- Need(a.state == Active, ApprovalInactive);
    var _ :- Need(a.terms.notBeforeMs <= q.at <= a.terms.expiresAtMs, ApprovalOutsideValidity);
    var _ :- Need(q.requestMatches, ClaimRefused);
    var _ :- Need(q.policyMatches, PolicyRefused);
    var e := EpochOf(t, a.terms.wallet);
    var _ :- Need(e.reconciled && e.value == a.terms.epoch, ApprovalRevoked);
    var _ :- Need(q.claimMatches, ClaimRefused);
    Ok(a.terms.limits)
  }

  /** `authorize_for_clock_profile`: the gate, what the claim charges, its identity, then the reservation. */
  function Authorize(t: Tables, q: AuthorizeRequest): (r: Result<Tables>)
    ensures r.Ok? ==> r.value == t.(reservations := r.value.reservations)
  {
    var limits :- Gate(t, q);
    var charge :- ChargeOf(limits, q);
    var _ :- Need(q.approvedClaim, ClaimRefused);
    var _ :- Need(q.identityMatches, OperationIdConflict);
    Reserve(t, charge, LimitsOf(limits))
  }

  /** `finalize_reservation`. */
  function FinalizeReservation(t: Tables, approval: string, operation: string, next: ReservationState): (r: Result<Tables>)
    ensures r.Ok? ==> r.value == t.(reservations := r.value.reservations)
  {
    var _ :- Need(next != Reserved, BackendInvalidRequest);
    var i := Find(t.reservations, approval, operation);
    var _ :- Need(i < |t.reservations|, OperationIdConflict);
    var r := t.reservations[i];
    if r.state == Reserved then Ok(t.(reservations := t.reservations[i := r.(state := next)]))
    else
      var _ :- Need(r.state == next, OperationIdConflict);
      Ok(t)
  }

  // -------------------------------------------------------------- publication

  predicate HasState(t: Tables, approval: string, operation: string, state: ReservationState)
  {
    var i := Find(t.reservations, approval, operation);
    i < |t.reservations| && t.reservations[i].state == state
  }

  function CommitRow(rows: seq<Reservation>, approval: string, operation: string): seq<Reservation>
  {
    var i := Find(rows, approval, operation);
    if i < |rows| then rows[i := rows[i].(state := Committed)] else rows
  }

  /** The checks both publications share once the operation is known to be unpublished. */
  function PublicationCheck(t: Tables, approval: string, o: Operation, r: SigningResult): Result<()>
  {
    var _ :- Need(o.state == OpCommitted, OperationIdConflict);
    var _ :- Need(HasState(t, approval, r.operation, Reserved), OperationIdConflict);
    var _ :- Need(o.receipt.Some?, Storage);
    Need(o.receipt.value.approval == approval && o.receipt.value.operationDigest == r.digest, OperationIdConflict)
  }

  function Published(t: Tables, approval: string, o: Operation, r: SigningResult): Tables
  {
    t.(operations := t.operations[r.operation := o.(state := Succeeded, result := Some(r))],
       reservations := CommitRow(t.reservations, approval, r.operation))
  }

  /** `publish_result`. */
  function PublishResult(t: Tables, approval: string, r: SigningResult): (out: Result<Tables>)
    ensures out.Ok? ==> out.value == t.(operations := out.value.operations, reservations := out.value.reservations)
  {
    var _ :- Need(r.operation in t.operations, ApprovalNotFound);
    var o := t.operations[r.operation];
    var _ :- Need(o.digest == r.digest, OperationIdConflict);
    if o.result.Some? then
      var _ :- Need(o.result.value == r && HasState(t, approval, r.operation, Committed), OperationIdConflict);
      Ok(t)
    else
      var _ :- PublicationCheck(t, approval, o, r);
      Ok(Published(t, approval, o, r))
  }

  const MAX_CHILDREN: nat := 32

  /** `SELECT result_jcs FROM batch_children WHERE parent_operation_id = ? ORDER BY ordinal`, from ordinal `k` on. */
  function ChildrenFrom(children: map<(string, nat), SigningResult>, parent: string, k: nat): seq<SigningResult>
    decreases parent, MAX_CHILDREN - k
  {
    if k >= MAX_CHILDREN then []
    else (if (parent, k) in children then [children[(parent, k)]] else []) + ChildrenFrom(children, parent, k + 1)
  }

  function NewChildren(parent: string, results: seq<SigningResult>): map<(string, nat), SigningResult>
  {
    map k: nat | k < |results| :: (parent, k) := results[k]
  }

  /** The unique keys of `batch_children` admit the new rows. */
  predicate ChildrenInsertable(t: Tables, parent: string, results: seq<SigningResult>)
  {
    && (forall k :: 0 <= k < |results| ==> (parent, k) !in t.children)
    && (forall k :: 0 <= k < |results| ==>
          forall key :: key in t.children ==> t.children[key].operation != results[k].operation)
    && (forall j, k :: 0 <= j < k < |results| ==> results[j].operation != results[k].operation)
  }

  /** `publish_batch`; `derived` lists the deterministic child identifiers of the parent. */
  function PublishBatch(
    t: Tables, approval: string, r: SigningResult, results: seq<SigningResult>, derived: seq<string>): (out: Result<Tables>)
    ensures out.Ok? ==> out.value == t.(operations := out.value.operations, reservations := out.value.reservations,
                                        children := out.value.children)
  {
    var _ :- Need(1 <= |results| <= MAX_CHILDREN, BackendInvalidRequest);
    var _ :- Need(|derived| == |results| && forall k :: 0 <= k < |results| ==> results[k].operation == derived[k],
                  OperationIdConflict);
    var _ :- Need(r.operation in t.operations, ApprovalNotFound);
    var o := t.operations[r.operation];
    var _ :- Need(o.digest == r.digest, OperationIdConflict);
    if o.result.Some? then
      var _ :- Need(&& o.result.value == r
                    && ChildrenFrom(t.children, r.operation, 0) == results
                    && HasState(t, approval, r.operation, Committed), OperationIdConflict);
      Ok(t)
    else
      var _ :- Need(o.isBatch, OperationIdConflict);
      var _ :- PublicationCheck(t, approval, o, r);
      var _ :- Need(ChildrenInsertable(t, r.operation, results), Storage);
      Ok(Published(t, approval, o, r).(children := t.children + NewChildren(r.operation, results)))
  }

  // -------------------------------------------------------------------- clock

  /**
    `observe_time`. The durable-clock evaluator is not part of this model; its
    one assumed property is that a decision is never below the persisted time.
  */
  function ObserveTime(t: Tables, decision: Clock): (r: Result<Tables>)
    ensures r.Ok? ==> r.value == t.(clock := r.value.clock)
  {
    var _ :- Need(t.clock.Some? ==> decision.effectiveMs >= t.clock.value.effectiveMs, ClockUntrusted);
    Ok(t.(clock := Some(decision)))
  }

  /** What a caller is told about a reading that has been committed. */
  function ReadingVerdict(decision: Clock, rateLimited: bool): Result<()>
  {
    var _ :- Need(!rateLimited || decision.condition != Untrusted, ClockUntrusted);
    Need(!rateLimited || decision.condition != RollbackFrozen, ClockRollback)
  }

  /** `repair_clock`. */
  function RepairClock(t: Tables, acceptedMs: U64): (r: Result<Tables>)
    ensures r.Ok? ==> r.value == t.(clock := r.value.clock)
  {
    var _ :- Need(t.clock.Some?, ClockUntrusted);
    var _ :- Need(acceptedMs >= t.clock.value.effectiveMs, ClockRollback);
    Ok(t.(clock := Some(Clock(acceptedMs, Repaired))))
  }

  // ------------------------------------------------------------------- runs

  /**
    Every commit that writes these tables. `Log` stands for the commits that write
    only others (quota, provenance, accounts, key scopes, ceremony sessions, policy
    deletion) and append one entry of their own to the audit log.
  */
  datatype Step =
    | Prepare(prepare: PrepareRequest)
    | Activate(activate: ActivateRequest)
    | Stop(id: string)
    | Retire(id: string, into: ApprovalState)
    | AdmitKeyStop(stop: StopRequest)
    | CompleteKeyStop(operation: string)
    | Tombstones(wallet: string, incoming: map<string, string>)
    | Reconcile(wallet: string, signer: U64)
    | Advance(wallet: string, expected: U64, next: U64)
    | Install(wallet: string)
    | Attempt(attempt: AttemptRequest)
    | MoveOperation(operation: string, to: OperationState)
    | Spend(spend: AuthorizeRequest)
    | Finalize(approval: string, operation: string, final: ReservationState)
    | Publish(approval: string, result: SigningResult)
    | PublishMany(approval: string, result: SigningResult, results: seq<SigningResult>, derived: seq<string>)
    | Observe(decision: Clock)
    | Repair(acceptedMs: U64)
    | Log(name: string, text: string)

  function Try(t: Tables, step: Step): Result<Tables>
  {
    match step
    case Prepare(q) => PrepareApproval(t, q)
    case Activate(q) => ActivateApproval(t, q)
    case Stop(id) => StopApproval(t, id)
    case Retire(id, into) => if Retiring(into) then TransitionApproval(t, id, into) else Err(OperationIdConflict)
    case AdmitKeyStop(q) => AdmitStop(t, q)
    case CompleteKeyStop(operation) =>
      // The service completes only the stop it has just admitted.
      if operation in t.operations && t.operations[operation].kind == KeyRevocation
      then CompleteStop(t, operation) else Err(OperationIdConflict)
    case Tombstones(wallet, incoming) => StoreTombstones(t, wallet, incoming)
    case Reconcile(wallet, signer) => ReconcileEpoch(t, wallet, signer)
    case Advance(wallet, expected, next) => AdvanceEpoch(t, wallet, expected, next)
    case Install(wallet) => InstallPolicy(t, wallet)
    case Attempt(q) => BeginAttempt(t, q)
    case MoveOperation(operation, to) => TransitionOperation(t, operation, to)
    case Spend(q) => Authorize(t, q)
    case Finalize(approval, operation, final) => FinalizeReservation(t, approval, operation, final)
    case Publish(approval, result) => PublishResult(t, approval, result)
    case PublishMany(approval, result, results, derived) => PublishBatch(t, approval, result, results, derived)
    case Observe(decision) => ObserveTime(t, decision)
    case Repair(acceptedMs) => RepairClock(t, acceptedMs)
    case Log(_, _) => Ok(t)
  }

  /** A refused transaction leaves the tables as they were. */
  function Next(t: Tables, step: Step): Tables
  {
    var r := Try(t, step);
    if r.Ok? then r.value else t
  }

  function Run(t: Tables, steps: seq<Step>): Tables
  {
    if steps == [] then t else Next(Run(t, steps[..|steps| - 1]), steps[|steps| - 1])
  }

  /** The states a Broker reaches from empty tables by its own transactions. */
  ghost predicate Reachable(t: Tables)
  {
    exists steps :: Run(EMPTY, steps) == t
  }

  lemma {:induction false} RunConcat(t: Tables, a: seq<Step>, b: seq<Step>)
    ensures Run(t, a + b) == Run(Run(t, a), b)
  {
    if b == [] {
      assert a + b == a;
    } else {
      RunConcat(t, a, b[..|b| - 1]);
      assert (a + b)[..|a + b| - 1] == a + b[..|b| - 1];
    }
  }

  lemma StepReaches(t: Tables, step: Step)
    requires Reachable(t)
    ensures Reachable(Next(t, step))
  {
    var steps :| Run(EMPTY, steps) == t;
    assert (steps + [step])[..|steps|] == steps;
    assert Run(EMPTY, steps + [step]) == Next(t, step);
  }
}
