/**
  What each transaction accepts and what it then writes, said about the tables and
  the request: when a charge, an activation, a preparation, a stop, an epoch, an
  attempt, a settlement or a publication goes through, and what it leaves behind.
*/
module Acceptance {
  import opened Wrappers
  import opened Accounting
  import opened Budget
  import opened Tables

  // ------------------------------------------------------------------ gates

  /** The wallet's epoch is reconciled and is the one the terms were reviewed under. */
  predicate Current(t: Tables, terms: Terms)
  {
    terms.wallet in t.epochs && t.epochs[terms.wallet] == Epoch(terms.epoch, true)
  }

  /** Authority that may be used at an instant. */
  predicate Usable(t: Tables, id: string, at: nat)
  {
    && id in t.approvals && id !in t.tombstones
    && t.approvals[id].state == Active
    && t.approvals[id].terms.notBeforeMs <= at && at <= t.approvals[id].terms.expiresAtMs
    && Current(t, t.approvals[id].terms)
  }

  /** A request that fits the usable authority it names. */
  predicate Entitled(t: Tables, q: AuthorizeRequest)
  {
    Usable(t, q.approval, q.at) && q.requestMatches && q.policyMatches && q.claimMatches
  }

  /** The authorization gate passes exactly entitled requests, and answers the reviewed limits. */
  lemma GateExact(t: Tables, q: AuthorizeRequest)
    ensures Gate(t, q).Ok? <==> Entitled(t, q)
    ensures Gate(t, q).Ok? ==> Gate(t, q).value == t.approvals[q.approval].terms.limits
  {
  }

  /** The refusal of stored, live authority names its reason: tombstoned, out of its validity, or of another epoch. */
  lemma GateReasons(t: Tables, q: AuthorizeRequest)
    requires q.approval in t.approvals && q.requestMatches && q.policyMatches && q.claimMatches
    ensures var a := t.approvals[q.approval];
      && (q.approval in t.tombstones ==> Gate(t, q) == Err(ApprovalRevoked))
      && (q.approval !in t.tombstones ==>
            && (Gate(t, q) == Err(ApprovalInactive) <==> a.state != Active)
            && (Gate(t, q) == Err(ApprovalOutsideValidity)
                <==> a.state == Active && (q.at < a.terms.notBeforeMs || q.at > a.terms.expiresAtMs))
            && (Gate(t, q) == Err(ApprovalRevoked)
                <==> a.state == Active && a.terms.notBeforeMs <= q.at <= a.terms.expiresAtMs && !Current(t, a.terms)))
  {
  }

  /** A clock reading that trusted time may be taken from. */
  predicate Trustworthy(c: Clock)
  {
    c.condition != Untrusted && c.condition != RollbackFrozen
  }

  /** The reservation clock: the persisted instant itself, and trusted time where it is needed. */
  lemma ClockCheckExact(clock: Option<Clock>, at: nat, trusted: bool)
    ensures ClockCheck(clock, at, trusted).Ok? <==>
      match clock
      case None => !trusted
      case Some(c) => c.effectiveMs == at && (trusted ==> Trustworthy(c))
    ensures ClockCheck(clock, at, trusted).Err? ==> ClockCheck(clock, at, trusted).code == ClockUntrusted
  {
  }

  /** The two clock gates agree: a rate-limited caller is told yes exactly when a windowed charge would be let through. */
  lemma ClockGatesAgree(c: Clock)
    ensures ReadingVerdict(c, true).Ok? <==> ClockCheck(Some(c), c.effectiveMs, true).Ok?
    ensures ReadingVerdict(c, true).Ok? <==> Trustworthy(c)
    ensures ReadingVerdict(c, false).Ok?
    ensures c.condition == Untrusted ==> ReadingVerdict(c, true) == Err(ClockUntrusted)
    ensures c.condition == RollbackFrozen ==> ReadingVerdict(c, true) == Err(ClockRollback)
  {
  }

  /** The clock at an instant, for an approval with the given limits. */
  predicate ClockAdmits(t: Tables, at: nat, limits: BudgetLimits)
  {
    match t.clock
    case None => limits.rateLimits == [] && limits.rollingValueLimits == []
    case Some(c) =>
      c.effectiveMs == at && (limits.rateLimits != [] || limits.rollingValueLimits != [] ==> Trustworthy(c))
  }

  /** A recorded charge that a request repeats. */
  predicate Repeats(r: Reservation, q: ReservationRequest)
  {
    r.state == Reserved && r.digest == q.digest && r.signatures == q.signatures && r.values == q.values
  }

  /** A charge the ledger takes: a repetition of an open row, or new and within every limit. */
  ghost predicate Chargeable(t: Tables, q: ReservationRequest, limits: BudgetLimits)
  {
    && q.signatures > 0
    && q.approval in t.approvals && t.approvals[q.approval].state == Active
    && ClockAdmits(t, q.at, limits)
    && var i := Find(t.reservations, q.approval, q.operation);
       if i < |t.reservations| then Repeats(t.reservations[i], q)
       else WithinLimits(t.reservations, Lineage(t.approvals, q.approval), q, limits)
  }

  /** A reservation is accepted exactly when it is chargeable, and adds its row unless it repeats one. */
  lemma ReserveExact(t: Tables, q: ReservationRequest, limits: BudgetLimits)
    ensures Reserve(t, q, limits).Ok? <==> Chargeable(t, q, limits)
    ensures var i := Find(t.reservations, q.approval, q.operation);
      && (Reserve(t, q, limits).Ok? ==>
            Reserve(t, q, limits).value.reservations
            == if i < |t.reservations| then t.reservations
               else t.reservations + [Reservation(q.approval, q.operation, q.digest, q.signatures, q.at, q.values, Reserved)])
  {
    ClockCheckExact(t.clock, q.at, TrustedTimeRequired(limits));
    VerdictMeaning(t.reservations, Lineage(t.approvals, q.approval), q, limits);
  }

  /** An entitled request whose claim is accountable and whose charge the ledger takes. */
  ghost predicate Authorizable(t: Tables, q: AuthorizeRequest)
  {
    && Entitled(t, q) && q.approvedClaim && q.identityMatches
    && var limits := t.approvals[q.approval].terms.limits;
       var values := DeclaredValues(limits.values, q.claim);
       && values.Ok?
       && Chargeable(t, ReservationRequest(q.approval, q.operation, q.digest, q.signatures, q.at, values.value), LimitsOf(limits))
  }

  lemma AuthorizeExact(t: Tables, q: AuthorizeRequest)
    ensures Authorize(t, q).Ok? <==> Authorizable(t, q)
  {
    GateExact(t, q);
    if Entitled(t, q) && ChargeOf(t.approvals[q.approval].terms.limits, q).Ok? {
      var limits := t.approvals[q.approval].terms.limits;
      ReserveExact(t, ChargeOf(limits, q).value, LimitsOf(limits));
    }
  }

  // -------------------------------------------------------------- approvals

  /** Authority a renewal may take over. */
  predicate Replaceable(t: Tables, renewalOf: Option<string>)
  {
    renewalOf.Some? ==> renewalOf.value in t.approvals && t.approvals[renewalOf.value].state == Active
  }

  /** A preparation the tables allow: a repetition of a stored record, or a new one with everything it names in order. */
  predicate Preparable(t: Tables, q: PrepareRequest)
  {
    && q.termsValid && ValidLimits(q.terms.limits) && q.policyEnabled
    && !(q.terms.selector == Petal && (q.terms.wallet, q.terms.keyRef) in t.stops)
    && (if q.id in t.approvals
        then t.approvals[q.id].terms == q.terms && t.approvals[q.id].review == q.review && t.approvals[q.id].claim == q.claim
        else
          && q.id !in t.tombstones && q.policyMatches && q.provenanceMatches && Current(t, q.terms)
          && Replaceable(t, q.terms.renewalOf)
          && (q.terms.renewalOf.Some? ==> t.approvals[q.terms.renewalOf.value].terms.wallet == q.terms.wallet))
  }

  lemma PrepareExact(t: Tables, q: PrepareRequest)
    ensures PrepareApproval(t, q).Ok? <==> Preparable(t, q)
  {
  }

  lemma PrepareWrites(t: Tables, q: PrepareRequest)
    requires PrepareApproval(t, q).Ok?
    ensures var b := PrepareApproval(t, q).value;
      && b == t.(approvals := b.approvals, rows := b.rows)
      && (q.id in t.approvals ==> b == t)
      && (q.id !in t.approvals ==>
            && b.rows == t.rows + 1 && b.approvals.Keys == t.approvals.Keys + {q.id}
            && (forall id :: id in t.approvals ==> b.approvals[id] == t.approvals[id])
            && b.approvals[q.id] == Approval(t.rows, q.terms, q.review, q.claim, AwaitingCeremony, None, None))
  {
  }

  /**
    An activation the tables allow: it repeats the one that made the approval
    active, or the approval awaits its ceremony, what it renews is active and the
    operation has activated nothing else; either way only untombstoned authority of
    its wallet's reconciled epoch, and a stopped Petal key only by a Signer receipt.
  */
  predicate Activatable(t: Tables, q: ActivateRequest)
  {
    && q.authentic && q.policyEnabled && q.bindingMatches
    && q.id in t.approvals && q.id !in t.tombstones
    && Current(t, t.approvals[q.id].terms)
    && (q.path == SignerReceipt || t.approvals[q.id].terms.selector == Exact
        || (t.approvals[q.id].terms.wallet, t.approvals[q.id].terms.keyRef) !in t.stops)
    && (if t.approvals[q.id].activationOp.Some?
        then t.approvals[q.id].activationOp == Some(q.operation) && t.approvals[q.id].state == Active
        else
          && t.approvals[q.id].state == AwaitingCeremony
          && Replaceable(t, t.approvals[q.id].terms.renewalOf)
          && forall o :: o in t.approvals ==> t.approvals[o].activationOp != Some(q.operation))
  }

  lemma ActivateExact(t: Tables, q: ActivateRequest)
    ensures ActivateApproval(t, q).Ok? <==> Activatable(t, q)
  {
    if q.id in t.approvals && Replaceable(t, t.approvals[q.id].terms.renewalOf) {
      RevokingKeepsOperations(t.approvals, t.approvals[q.id].terms.renewalOf, q.operation);
    }
  }

  lemma RevokingKeepsOperations(approvals: map<string, Approval>, renewalOf: Option<string>, operation: string)
    requires RevokePredecessor(approvals, renewalOf).Ok?
    ensures var b := RevokePredecessor(approvals, renewalOf).value;
      (forall o :: o in b ==> b[o].activationOp != Some(operation))
      <==> forall o :: o in approvals ==> approvals[o].activationOp != Some(operation)
  {
    var b := RevokePredecessor(approvals, renewalOf).value;
    assert b.Keys == approvals.Keys;
    assert forall o :: o in approvals ==> b[o].activationOp == approvals[o].activationOp;
  }

  /** Where stopping takes each state. */
  lemma StopStateExact(s: ApprovalState)
    ensures StopState(s) == Some(Failed) <==> s == Prepared || s == AwaitingCeremony
    ensures StopState(s) == Some(Revoked) <==> s == Orphaned || s == Active
    ensures StopState(s).None? <==> s in {Exhausted, Expired, Revoked, Cancelled, Failed}
  {
  }

  // ------------------------------------------------------------ by-key stops

  /** A stop is accepted exactly when it repeats an admitted one, or its identifier and its target rows are free. */
  lemma AdmitExact(t: Tables, q: StopRequest)
    ensures AdmitStop(t, q).Ok? <==>
      if q.operation in t.operations
      then t.operations[q.operation].kind == KeyRevocation && t.operations[q.operation].digest == q.parameters
      else q.stoppedAtMs <= I64_MAX
           && (forall id :: id in t.approvals && BoundTo(t.approvals[id], q.wallet, q.keyRef) ==> (q.operation, id) !in t.attempts)
  {
  }

  /** What one admission writes: the operation, the marker, one target per bound approval, and the failed ceremonies. */
  lemma AdmitWrites(t: Tables, q: StopRequest)
    requires AdmitStop(t, q).Ok? && q.operation !in t.operations
    ensures var b := AdmitStop(t, q).value;
      && b.operations == t.operations[q.operation := Operation(q.parameters, q.parameters, Received, false, None, None, KeyRevocation)]
      && b.stops == t.stops[(q.wallet, q.keyRef) := q.operation]
      && b.approvals.Keys == t.approvals.Keys
      && (forall id :: id in t.approvals ==>
            b.approvals[id] ==
              if BoundTo(t.approvals[id], q.wallet, q.keyRef) && Pending(t.approvals[id].state)
              then t.approvals[id].(state := Failed) else t.approvals[id])
      && (forall key :: key in b.attempts <==>
            key in t.attempts
            || (key.0 == q.operation && key.1 in t.approvals && BoundTo(t.approvals[key.1], q.wallet, q.keyRef)))
      && (forall key :: key in b.attempts && key !in t.attempts ==> b.attempts[key] == StopTarget(q.operation, key.1))
  {
    var bound := BoundApprovals(t, q.wallet, q.keyRef);
    var added := NewTargets(q.operation, bound);
    assert forall key :: key in added <==> key.0 == q.operation && key.1 in bound;
  }

  // ------------------------------------------------------------------ epochs

  lemma AdvanceExact(t: Tables, wallet: string, expected: U64, next: U64)
    ensures var r := AdvanceEpoch(t, wallet, expected, next);
      && (r.Ok? <==> expected < next && wallet in t.epochs && t.epochs[wallet].value == expected)
      && (r.Ok? ==> r.value == t.(epochs := t.epochs[wallet := Epoch(next, false)]))
      && (next <= expected ==> r == Err(EpochRollback))
      && (expected < next && wallet in t.epochs && t.epochs[wallet].value != expected ==> r == Err(EpochStale))
  {
  }

  /**
    Reconciliation leaves the larger of the two epochs, reconciled exactly when the
    Signer was not behind, and never touches another wallet.
  */
  lemma ReconcileExact(t: Tables, wallet: string, signer: U64)
    ensures ReconcileEpoch(t, wallet, signer).Ok?
    ensures var local, b := if wallet in t.epochs then t.epochs[wallet].value else 0, ReconcileEpoch(t, wallet, signer).value;
      && b.epochs == t.epochs[wallet := Epoch(if signer < local then local else signer, local <= signer)]
      && (ReconcileOutcome(t, wallet, signer) == PushLocalEpoch <==> signer < local)
      && (ReconcileOutcome(t, wallet, signer) == AdoptedSignerEpoch <==> local < signer)
  {
  }

  /** The signed union is stored exactly when it loses nothing of the wallet's history and contradicts nothing stored. */
  lemma TombstonesExact(t: Tables, wallet: string, incoming: map<string, string>)
    ensures var r := StoreTombstones(t, wallet, incoming);
      && (r.Ok? <==>
            && (forall id :: id in t.tombstones && t.tombstones[id].wallet == wallet ==> id in incoming)
            && (forall id :: id in t.tombstones && id in incoming ==> incoming[id] == t.tombstones[id].text))
      && (r.Ok? ==>
            && r.value.tombstones.Keys == t.tombstones.Keys + incoming.Keys
            && (forall id :: id in t.tombstones ==> r.value.tombstones[id] == t.tombstones[id])
            && (forall id :: id in incoming && id !in t.tombstones ==>
                  r.value.tombstones[id] == Tombstone(wallet, incoming[id])))
  {
  }

  // -------------------------------------------------------------- operations

  /** The retry matches the admitted operation in every frozen respect. */
  predicate SameOperation(o: Operation, q: AttemptRequest)
  {
    o.digest == q.digest && o.isBatch == q.isBatch && o.binding == q.binding && o.receipt == Some(q.receipt)
  }

  lemma AttemptExact(t: Tables, q: AttemptRequest)
    ensures BeginAttempt(t, q).Ok? <==>
      && q.digestsMatch && q.receipt.operationDigest == q.digest
      && (q.operation in t.operations ==> SameOperation(t.operations[q.operation], q))
      && ((q.operation, q.attempt) in t.attempts ==> t.attempts[(q.operation, q.attempt)] == SignAttempt(q.attemptDigest))
  {
  }

  lemma AttemptWritesRows(t: Tables, q: AttemptRequest)
    requires BeginAttempt(t, q).Ok?
    ensures var b := BeginAttempt(t, q).value;
      && (q.operation in t.operations ==> b.operations == t.operations)
      && (q.operation !in t.operations ==>
            b.operations == t.operations[q.operation :=
              Operation(q.digest, q.binding, Received, q.isBatch, None, Some(q.receipt), Signing)])
      && (b.attempts == t.attempts || b.attempts == t.attempts[(q.operation, q.attempt) := SignAttempt(q.attemptDigest)])
      && exists key :: key in b.attempts && key.0 == q.operation && b.attempts[key] == SignAttempt(q.attemptDigest)
  {
    var b := BeginAttempt(t, q).value;
    assert b.attempts == RecordAttempt(t.attempts, q);
    var key := (q.operation, q.attempt);
    if b.attempts == t.attempts && key in t.attempts {
      assert key in b.attempts && b.attempts[key] == SignAttempt(q.attemptDigest);
    }
    if b.attempts != t.attempts {
      assert key in b.attempts && b.attempts[key] == SignAttempt(q.attemptDigest);
    }
  }

  /** The stages of a signing operation in order; the four ways out of them have none. */
  function Stage(s: OperationState): Option<nat>
  {
    match s
    case Received => Some(0)
    case Validated => Some(1)
    case OpReserved => Some(2)
    case Dispatched => Some(3)
    case DownstreamAccepted => Some(4)
    case OpCommitted => Some(5)
    case Succeeded => Some(6)
    case _ => None
  }

  /** A move is one stage forward, or out: by refusal before dispatch, by quarantine after it, by failure at any stage but the last. */
  lemma OperationTableExact(a: OperationState, b: OperationState)
    ensures ValidOperationTransition(a, b) <==>
      && Stage(a).Some? && Stage(a).value < 6
      && (|| Stage(b) == Some(Stage(a).value + 1)
          || b == OpFailed
          || (Stage(a).value < 3 && (b == Denied || b == OpCancelled))
          || (Stage(a).value >= 3 && b == OpQuarantined))
  {
  }

  /** The approval table: what a pending, an orphaned and an active approval may become. */
  lemma ApprovalTableExact(a: ApprovalState, b: ApprovalState)
    ensures ValidApprovalTransition(a, b) <==>
      || (Pending(a) && b in {Cancelled, Failed, Expired})
      || (a == Prepared && b == AwaitingCeremony)
      || (a == AwaitingCeremony && b in {Active, Orphaned})
      || (a == Orphaned && b in {Active, Revoked, Failed})
      || (a == Active && b in {Exhausted, Expired, Revoked})
  {
  }

  lemma MoveExact(t: Tables, operation: string, next: OperationState)
    ensures var r := TransitionOperation(t, operation, next);
      && (r.Ok? <==>
            && operation in t.operations && t.operations[operation].kind == Signing
            && t.operations[operation].result.None? && ValidOperationTransition(t.operations[operation].state, next))
      && (r.Ok? ==> r.value == t.(operations := t.operations[operation := t.operations[operation].(state := next)]))
  {
  }

  // ------------------------------------------------------------- settlements

  /** A settlement is accepted exactly on an open reservation, or as a repetition, and moves that row only. */
  lemma FinalizeExact(t: Tables, approval: string, operation: string, next: ReservationState)
    ensures var r, i := FinalizeReservation(t, approval, operation, next), Find(t.reservations, approval, operation);
      && (r.Ok? <==>
            next != Reserved && i < |t.reservations| && t.reservations[i].state in {Reserved, next})
      && (r.Ok? ==>
            && |r.value.reservations| == |t.reservations|
            && r.value.reservations[i] == t.reservations[i].(state := next)
            && forall j :: 0 <= j < |t.reservations| && j != i ==> r.value.reservations[j] == t.reservations[j])
  {
  }

  // ------------------------------------------------------------- publication

  /** What a first publication needs: a committed operation, its open charge, and the receipt that names both. */
  predicate Publishable(t: Tables, approval: string, r: SigningResult)
  {
    && r.operation in t.operations
    && t.operations[r.operation].result.None?
    && t.operations[r.operation].state == OpCommitted
    && t.operations[r.operation].digest == r.digest
    && t.operations[r.operation].receipt.Some?
    && t.operations[r.operation].receipt.value.approval == approval
    && t.operations[r.operation].receipt.value.operationDigest == r.digest
    && Charged(t, approval, r.operation, Reserved)
  }

  /** The row of an approval and operation, the first if there were several, stands in a state. */
  predicate Charged(t: Tables, approval: string, operation: string, state: ReservationState)
  {
    exists i :: 0 <= i < |t.reservations| && IsRow(t.reservations[i], approval, operation)
      && t.reservations[i].state == state && forall j :: 0 <= j < i ==> !IsRow(t.reservations[j], approval, operation)
  }

  predicate IsRow(r: Reservation, approval: string, operation: string)
  {
    r.approval == approval && r.operation == operation
  }

  lemma ChargedIsFound(t: Tables, approval: string, operation: string, state: ReservationState)
    ensures Charged(t, approval, operation, state) <==> HasState(t, approval, operation, state)
  {
    var f := Find(t.reservations, approval, operation);
    assert forall j :: 0 <= j < f ==> !IsRow(t.reservations[j], approval, operation);
    if HasState(t, approval, operation, state) {
      assert IsRow(t.reservations[f], approval, operation);
    }
  }

  /** The stored publication a request repeats. */
  predicate Republishes(t: Tables, approval: string, r: SigningResult)
  {
    && r.operation in t.operations && t.operations[r.operation].digest == r.digest
    && t.operations[r.operation].result == Some(r)
    && Charged(t, approval, r.operation, Committed)
  }

  lemma PublishExact(t: Tables, approval: string, r: SigningResult)
    ensures PublishResult(t, approval, r).Ok? <==> Publishable(t, approval, r) || Republishes(t, approval, r)
    ensures Republishes(t, approval, r) ==> PublishResult(t, approval, r) == Ok(t)
  {
    ChargedIsFound(t, approval, r.operation, Reserved);
    ChargedIsFound(t, approval, r.operation, Committed);
  }

  /** A first publication writes result, success and committed charge, and nothing else. */
  lemma PublishWrites(t: Tables, approval: string, r: SigningResult)
    requires Publishable(t, approval, r)
    ensures var b, i := PublishResult(t, approval, r).value, Find(t.reservations, approval, r.operation);
      && b == t.(operations := b.operations, reservations := b.reservations)
      && b.operations == t.operations[r.operation := t.operations[r.operation].(state := Succeeded, result := Some(r))]
      && |b.reservations| == |t.reservations|
      && b.reservations[i] == t.reservations[i].(state := Committed)
      && forall j :: 0 <= j < |t.reservations| && j != i ==> b.reservations[j] == t.reservations[j]
  {
    ChargedIsFound(t, approval, r.operation, Reserved);
  }

  /** Children that may be filed: one to thirty-two, named as derived, and new under both keys of their table. */
  predicate Fileable(t: Tables, parent: string, results: seq<SigningResult>, derived: seq<string>)
  {
    && Derived(results, derived)
    && (forall k :: 0 <= k < |results| ==> (parent, k) !in t.children)
    && (forall k, key :: 0 <= k < |results| && key in t.children ==> t.children[key].operation != results[k].operation)
    && (forall j, k :: 0 <= j < k < |results| ==> results[j].operation != results[k].operation)
  }

  predicate Derived(results: seq<SigningResult>, derived: seq<string>)
  {
    0 < |results| <= 32 && |derived| == |results| && forall k :: 0 <= k < |results| ==> results[k].operation == derived[k]
  }

  lemma BatchExact(t: Tables, approval: string, r: SigningResult, results: seq<SigningResult>, derived: seq<string>)
    ensures PublishBatch(t, approval, r, results, derived).Ok? <==>
      || (Publishable(t, approval, r) && t.operations[r.operation].isBatch && Fileable(t, r.operation, results, derived))
      || (Republishes(t, approval, r) && Derived(results, derived) && ChildrenFrom(t.children, r.operation, 0) == results)
  {
    ChargedIsFound(t, approval, r.operation, Reserved);
    ChargedIsFound(t, approval, r.operation, Committed);
    assert ChildrenInsertable(t, r.operation, results) && Derived(results, derived) <==> Fileable(t, r.operation, results, derived);
  }

  // ------------------------------------------------------------------- clock

  /** Repair needs an initialized clock, never moves it back, and trusted time is available again at once. */
  lemma RepairExact(t: Tables, acceptedMs: U64)
    ensures var r := RepairClock(t, acceptedMs);
      && (r.Ok? <==> t.clock.Some? && t.clock.value.effectiveMs <= acceptedMs)
      && (r.Ok? ==>
            && r.value == t.(clock := r.value.clock)
            && r.value.clock.Some? && r.value.clock.value.effectiveMs == acceptedMs
            && Trustworthy(r.value.clock.value))
      && (t.clock.Some? && r.Err? ==> r.code == ClockRollback)
  {
  }
}
