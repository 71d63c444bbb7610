/**
  What no transaction ever takes back. `Extends(a, b)` relates the tables before
  and after any number of commits: it holds of every step from every tables
  value, reachable or not, and it composes.
*/
module History {
  import opened Wrappers
  import opened Accounting
  import opened Tables

  /** An approval's reviewed content is frozen; activation is written once and never reopened. */
  predicate ApprovalExtends(a: Approval, b: Approval)
  {
    && b.row == a.row && b.terms == a.terms && b.review == a.review && b.claim == a.claim
    && (a.activationOp.Some? ==> b.activationOp == a.activationOp && b.grant == a.grant)
    && (a.activationOp.Some? && a.state != Active ==> b.state != Active)
    && (b.state == Active ==> a.state == Active || a.state == AwaitingCeremony)
    && (Pending(b.state) ==> a.state == b.state)
  }

  predicate ApprovalsExtend(a: map<string, Approval>, b: map<string, Approval>)
  {
    forall id :: id in a ==> id in b && ApprovalExtends(a[id], b[id])
  }

  /** An operation's identity is frozen; a result is written once and success is final. */
  predicate OperationExtends(a: Operation, b: Operation)
  {
    && b.digest == a.digest && b.binding == a.binding && b.isBatch == a.isBatch
    && b.receipt == a.receipt && b.kind == a.kind
    && (a.result.Some? ==> b.result == a.result)
    && (a.state == Succeeded ==> b.state == Succeeded)
  }

  predicate OperationsExtend(a: map<string, Operation>, b: map<string, Operation>)
  {
    forall o :: o in a ==> o in b && OperationExtends(a[o], b[o])
  }

  /** A charge keeps its key, amounts and time; only an open reservation changes state. */
  predicate ReservationExtends(a: Reservation, b: Reservation)
  {
    && b == a.(state := b.state)
    && (a.state != Reserved ==> b.state == a.state)
  }

  predicate ReservationsExtend(a: seq<Reservation>, b: seq<Reservation>)
  {
    && |a| <= |b|
    && forall i :: 0 <= i < |a| ==> ReservationExtends(a[i], b[i])
  }

  predicate AttemptsExtend(a: map<(string, string), Mark>, b: map<(string, string), Mark>)
  {
    forall key :: key in a ==> key in b && b[key] == a[key]
  }

  /** Batch children are never rewritten, and none is added to a published parent. */
  predicate ChildrenExtend(a: Tables, b: Tables)
  {
    && (forall key :: key in a.children ==> key in b.children && b.children[key] == a.children[key])
    && (forall key :: key in b.children && key.0 in a.operations && a.operations[key.0].result.Some? ==> key in a.children)
  }

  predicate RevocationExtends(a: Tables, b: Tables)
  {
    && (forall key :: key in a.stops ==> key in b.stops)
    && (forall id :: id in a.tombstones ==> id in b.tombstones && b.tombstones[id] == a.tombstones[id])
    && (forall wallet :: wallet in a.epochs ==> wallet in b.epochs && a.epochs[wallet].value <= b.epochs[wallet].value)
  }

  predicate ClockExtends(a: Option<Clock>, b: Option<Clock>)
  {
    a.Some? ==> b.Some? && a.value.effectiveMs <= b.value.effectiveMs
  }

  predicate Extends(a: Tables, b: Tables)
  {
    && ApprovalsExtend(a.approvals, b.approvals)
    && OperationsExtend(a.operations, b.operations)
    && ReservationsExtend(a.reservations, b.reservations)
    && AttemptsExtend(a.attempts, b.attempts)
    && ChildrenExtend(a, b)
    && RevocationExtends(a, b)
    && ClockExtends(a.clock, b.clock)
  }

  lemma ExtendsTransitive(a: Tables, b: Tables, c: Tables)
    requires Extends(a, b) && Extends(b, c)
    ensures Extends(a, c)
  {
    assert ChildrenExtend(a, c) by {
      forall key | key in c.children && key.0 in a.operations && a.operations[key.0].result.Some?
        ensures key in a.children
      {
        assert OperationExtends(a.operations[key.0], b.operations[key.0]);
        assert key in b.children;
      }
    }
    assert ReservationsExtend(a.reservations, c.reservations) by {
      forall i | 0 <= i < |a.reservations| ensures ReservationExtends(a.reservations[i], c.reservations[i]) {
        assert ReservationExtends(a.reservations[i], b.reservations[i]);
        assert ReservationExtends(b.reservations[i], c.reservations[i]);
      }
    }
    assert ApprovalsExtend(a.approvals, c.approvals) by {
      forall id | id in a.approvals ensures id in c.approvals && ApprovalExtends(a.approvals[id], c.approvals[id]) {
        assert ApprovalExtends(a.approvals[id], b.approvals[id]);
        assert ApprovalExtends(b.approvals[id], c.approvals[id]);
      }
    }
  }

  // Each table extends itself, so a step is judged on the tables it writes.

  lemma ApprovalsStep(t: Tables, b: Tables)
    requires b == t.(approvals := b.approvals, rows := b.rows)
    requires ApprovalsExtend(t.approvals, b.approvals)
    ensures Extends(t, b)
  {
  }

  lemma OperationsStep(t: Tables, b: Tables)
    requires b == t.(operations := b.operations, attempts := b.attempts)
    requires OperationsExtend(t.operations, b.operations)
    requires AttemptsExtend(t.attempts, b.attempts)
    ensures Extends(t, b)
  {
  }

  lemma ReservationsStep(t: Tables, b: Tables)
    requires b == t.(reservations := b.reservations)
    requires ReservationsExtend(t.reservations, b.reservations)
    ensures Extends(t, b)
  {
  }

  lemma RevocationStep(t: Tables, b: Tables)
    requires b == t.(tombstones := b.tombstones, epochs := b.epochs)
    requires RevocationExtends(t, b)
    ensures Extends(t, b)
  {
  }

  lemma ActivationExtends(approvals: map<string, Approval>, id: string, operation: string, grant: string)
    requires id in approvals && approvals[id].state == AwaitingCeremony && approvals[id].activationOp.None?
    requires RevokePredecessor(approvals, approvals[id].terms.renewalOf).Ok?
    ensures ApprovalsExtend(approvals,
      RevokePredecessor(approvals, approvals[id].terms.renewalOf)
        .value[id := approvals[id].(state := Active, activationOp := Some(operation), grant := Some(grant))])
  {
  }

  lemma ActivateRecordExtends(t: Tables, id: string, operation: string, grant: string)
    requires ActivateRecord(t, id, operation, grant).Ok?
    ensures Extends(t, ActivateRecord(t, id, operation, grant).value)
  {
    var b := ActivateRecord(t, id, operation, grant).value;
    if t.approvals[id].activationOp.None? {
      ActivationExtends(t.approvals, id, operation, grant);
    }
    ApprovalsStep(t, b);
  }

  lemma ActivateIsRecord(t: Tables, q: ActivateRequest)
    requires ActivateApproval(t, q).Ok?
    ensures ActivateApproval(t, q) == ActivateRecord(t, q.id, q.operation, q.grant)
  {
  }

  lemma TransitionExtends(t: Tables, id: string, next: ApprovalState)
    requires Retiring(next)
    requires TransitionApproval(t, id, next).Ok?
    ensures Extends(t, TransitionApproval(t, id, next).value)
  {
    var b := TransitionApproval(t, id, next).value;
    assert b == t.(approvals := b.approvals);
    assert ApprovalsExtend(t.approvals, b.approvals);
    ApprovalsStep(t, b);
  }

  /** Stopping an approval always commits: every transition it asks for is in the table. */
  lemma StopExtends(t: Tables, id: string)
    ensures StopApproval(t, id).Ok?
    ensures Extends(t, StopApproval(t, id).value)
  {
    if id in t.approvals && StopState(t.approvals[id].state).Some? {
      TransitionExtends(t, id, StopState(t.approvals[id].state).value);
    } else {
      SelfExtends(t);
    }
  }

  lemma PrepareExtends(t: Tables, q: PrepareRequest)
    requires PrepareApproval(t, q).Ok?
    ensures Extends(t, PrepareApproval(t, q).value)
  {
    var b := PrepareApproval(t, q).value;
    assert b == t.(approvals := b.approvals, rows := b.rows);
    assert ApprovalsExtend(t.approvals, b.approvals);
    ApprovalsStep(t, b);
  }

  lemma FenceExtends(approvals: map<string, Approval>, ids: set<string>)
    ensures ApprovalsExtend(approvals, Fence(approvals, ids))
  {
  }

  lemma TargetsExtend(t: Tables, operation: string, ids: set<string>)
    requires forall id :: id in ids ==> (operation, id) !in t.attempts
    ensures AttemptsExtend(t.attempts, t.attempts + NewTargets(operation, ids))
  {
    forall key | key in NewTargets(operation, ids) ensures key !in t.attempts {
      assert key == (operation, key.1) && key.1 in ids;
    }
  }

  lemma AdmissionStep(t: Tables, b: Tables)
    requires b == t.(operations := b.operations, attempts := b.attempts, stops := b.stops, approvals := b.approvals)
    requires OperationsExtend(t.operations, b.operations) && AttemptsExtend(t.attempts, b.attempts)
    requires ApprovalsExtend(t.approvals, b.approvals) && forall key :: key in t.stops ==> key in b.stops
    ensures Extends(t, b)
  {
  }

  lemma AdmitExtends(t: Tables, q: StopRequest)
    requires AdmitStop(t, q).Ok?
    ensures Extends(t, AdmitStop(t, q).value)
  {
    var b := AdmitStop(t, q).value;
    if q.operation in t.operations {
      assert b == t;
    } else {
      var bound := BoundApprovals(t, q.wallet, q.keyRef);
      FenceExtends(t.approvals, bound);
      TargetsExtend(t, q.operation, bound);
      assert b.attempts == t.attempts + NewTargets(q.operation, bound);
      AdmissionStep(t, b);
    }
  }

  lemma CommitRowExtends(rows: seq<Reservation>, approval: string, operation: string)
    requires var i := Find(rows, approval, operation); i < |rows| && rows[i].state == Reserved
    ensures ReservationsExtend(rows, CommitRow(rows, approval, operation))
  {
  }

  lemma PublishedExtends(t: Tables, approval: string, r: SigningResult)
    requires r.operation in t.operations && t.operations[r.operation].result.None?
    requires PublicationCheck(t, approval, t.operations[r.operation], r).Ok?
    ensures Extends(t, Published(t, approval, t.operations[r.operation], r))
  {
    var b := Published(t, approval, t.operations[r.operation], r);
    CommitRowExtends(t.reservations, approval, r.operation);
    var mid := t.(operations := b.operations);
    OperationsStep(t, mid);
    assert b == mid.(reservations := b.reservations);
    ReservationsStep(mid, b);
    ExtendsTransitive(t, mid, b);
  }

  lemma PublishExtends(t: Tables, approval: string, r: SigningResult)
    requires PublishResult(t, approval, r).Ok?
    ensures Extends(t, PublishResult(t, approval, r).value)
  {
    if t.operations[r.operation].result.None? {
      PublishedExtends(t, approval, r);
    }
  }

  lemma NewChildrenExtend(t: Tables, b: Tables, parent: string, results: seq<SigningResult>)
    requires ChildrenInsertable(t, parent, results)
    requires parent in t.operations && t.operations[parent].result.None?
    requires b.children == t.children + NewChildren(parent, results)
    ensures ChildrenExtend(t, b)
  {
    forall key | key in NewChildren(parent, results) ensures key.0 == parent && key !in t.children {
      assert key == (parent, key.1) && key.1 < |results|;
    }
  }

  lemma BatchExtends(t: Tables, approval: string, r: SigningResult, results: seq<SigningResult>, derived: seq<string>)
    requires PublishBatch(t, approval, r, results, derived).Ok?
    ensures Extends(t, PublishBatch(t, approval, r, results, derived).value)
  {
    var b := PublishBatch(t, approval, r, results, derived).value;
    if t.operations[r.operation].result.None? {
      PublishedExtends(t, approval, r);
      var mid := Published(t, approval, t.operations[r.operation], r);
      assert b == mid.(children := t.children + NewChildren(r.operation, results));
      NewChildrenExtend(t, b, r.operation, results);
    }
  }

  lemma AttemptExtends(t: Tables, q: AttemptRequest)
    requires BeginAttempt(t, q).Ok?
    ensures Extends(t, BeginAttempt(t, q).value)
  {
    var b := BeginAttempt(t, q).value;
    assert b == t.(operations := b.operations, attempts := b.attempts);
    assert OperationsExtend(t.operations, b.operations);
    assert b.attempts == RecordAttempt(t.attempts, q);
    OperationsStep(t, b);
  }

  lemma CompleteExtends(t: Tables, operation: string)
    ensures CompleteStop(t, operation).Ok? && Extends(t, CompleteStop(t, operation).value)
  {
    var b := CompleteStop(t, operation).value;
    assert OperationsExtend(t.operations, b.operations);
    OperationsStep(t, b);
  }

  lemma OperationMoveExtends(t: Tables, operation: string, next: OperationState)
    requires TransitionOperation(t, operation, next).Ok?
    ensures Extends(t, TransitionOperation(t, operation, next).value)
  {
    var b := TransitionOperation(t, operation, next).value;
    assert OperationsExtend(t.operations, b.operations);
    OperationsStep(t, b);
  }

  lemma AuthorizeIsReserve(t: Tables, q: AuthorizeRequest)
    requires Authorize(t, q).Ok?
    ensures q.approval in t.approvals
    ensures var limits := t.approvals[q.approval].terms.limits;
      ChargeOf(limits, q).Ok? && Authorize(t, q) == Reserve(t, ChargeOf(limits, q).value, Budget.LimitsOf(limits))
  {
  }

  lemma ReserveExtends(t: Tables, q: ReservationRequest, limits: BudgetLimits)
    requires Reserve(t, q, limits).Ok?
    ensures Reserve(t, q, limits).value == t || Reserve(t, q, limits).value == t.(reservations := t.reservations + [RowOf(q)])
    ensures Extends(t, Reserve(t, q, limits).value)
  {
    var b := Reserve(t, q, limits).value;
    assert b == t || b == t.(reservations := t.reservations + [RowOf(q)]);
    ReservationsStep(t, b);
  }

  lemma SettlingExtends(rows: seq<Reservation>, i: nat, next: ReservationState)
    requires i < |rows| && rows[i].state == Reserved
    ensures ReservationsExtend(rows, rows[i := rows[i].(state := next)])
  {
  }

  lemma FinalizeExtends(t: Tables, approval: string, operation: string, next: ReservationState)
    requires FinalizeReservation(t, approval, operation, next).Ok?
    ensures Extends(t, FinalizeReservation(t, approval, operation, next).value)
  {
    var i := Find(t.reservations, approval, operation);
    if t.reservations[i].state == Reserved {
      SettlingExtends(t.reservations, i, next);
      ReservationsStep(t, FinalizeReservation(t, approval, operation, next).value);
    } else {
      SelfExtends(t);
    }
  }

  lemma TombstonesExtend(t: Tables, wallet: string, incoming: map<string, string>)
    requires StoreTombstones(t, wallet, incoming).Ok?
    ensures Extends(t, StoreTombstones(t, wallet, incoming).value)
  {
    var b := StoreTombstones(t, wallet, incoming).value;
    assert RevocationExtends(t, b);
    RevocationStep(t, b);
  }

  lemma EpochsExtend(t: Tables, b: Tables, wallet: string, e: Epoch)
    requires b == t.(epochs := t.epochs[wallet := e])
    requires EpochOf(t, wallet).value <= e.value
    ensures Extends(t, b)
  {
    assert RevocationExtends(t, b);
    RevocationStep(t, b);
  }

  lemma ClockStep(t: Tables, b: Tables)
    requires b == t.(clock := b.clock) && ClockExtends(t.clock, b.clock)
    ensures Extends(t, b)
  {
  }

  lemma SelfExtends(t: Tables)
    ensures Extends(t, t)
  {
  }

  lemma ApprovalStepExtends(t: Tables, step: Step)
    requires WritesApprovals(step) && Try(t, step).Ok?
    ensures Extends(t, Next(t, step))
  {
    match step
    case Prepare(q) => PrepareExtends(t, q);
    case Activate(q) => ActivateIsRecord(t, q); ActivateRecordExtends(t, q.id, q.operation, q.grant);
    case Stop(id) => StopExtends(t, id);
    case Retire(id, into) => TransitionExtends(t, id, into);
    case AdmitKeyStop(q) => AdmitExtends(t, q);
  }

  lemma LedgerStepExtends(t: Tables, step: Step)
    requires WritesLedger(step) && Try(t, step).Ok?
    ensures Extends(t, Next(t, step))
  {
    match step
    case Spend(q) =>
      AuthorizeIsReserve(t, q);
      var limits := t.approvals[q.approval].terms.limits;
      ReserveExtends(t, ChargeOf(limits, q).value, Budget.LimitsOf(limits));
    case Finalize(a, o, f) => FinalizeExtends(t, a, o, f);
    case Publish(a, r) => PublishExtends(t, a, r);
    case PublishMany(a, r, rs, d) => BatchExtends(t, a, r, rs, d);
  }

  lemma EpochStepExtends(t: Tables, step: Step)
    requires step.Reconcile? || step.Advance? || step.Install?
    requires Try(t, step).Ok?
    ensures Extends(t, Next(t, step))
  {
    var b := Next(t, step);
    if step.Install? && step.wallet in t.epochs {
      SelfExtends(t);
    } else {
      EpochsExtend(t, b, step.wallet, b.epochs[step.wallet]);
    }
  }

  lemma OtherStepExtends(t: Tables, step: Step)
    requires !WritesApprovals(step) && !WritesLedger(step) && !step.Reconcile? && !step.Advance? && !step.Install?
    requires Try(t, step).Ok?
    ensures Extends(t, Next(t, step))
  {
    match step
    case CompleteKeyStop(o) => CompleteExtends(t, o);
    case Tombstones(w, incoming) => TombstonesExtend(t, w, incoming);
    case Attempt(q) => AttemptExtends(t, q);
    case MoveOperation(o, to) => OperationMoveExtends(t, o, to);
    case Observe(_) => ClockStep(t, Next(t, step));
    case Repair(_) => ClockStep(t, Next(t, step));
    case Log(_, _) => SelfExtends(t);
  }

  /** Every durable write of the Broker extends the tables it started from. */
  lemma StepExtends(t: Tables, step: Step)
    ensures Extends(t, Next(t, step))
  {
    if Try(t, step).Err? {
      SelfExtends(t);
    } else if WritesApprovals(step) {
      ApprovalStepExtends(t, step);
    } else if WritesLedger(step) {
      LedgerStepExtends(t, step);
    } else if step.Reconcile? || step.Advance? || step.Install? {
      EpochStepExtends(t, step);
    } else {
      OtherStepExtends(t, step);
    }
  }

  /** So does every run. */
  lemma {:induction false} RunExtends(t: Tables, steps: seq<Step>)
    ensures Extends(t, Run(t, steps))
  {
    if steps != [] {
      var last := |steps| - 1;
      RunExtends(t, steps[..last]);
      StepExtends(Run(t, steps[..last]), steps[last]);
      ExtendsTransitive(t, Run(t, steps[..last]), Run(t, steps));
    }
  }

  // ------------------------------------------------------------------ frames

  predicate WritesApprovals(step: Step)
  {
    step.Prepare? || step.Activate? || step.Stop? || step.Retire? || step.AdmitKeyStop?
  }

  predicate WritesLedger(step: Step)
  {
    step.Spend? || step.Finalize? || step.Publish? || step.PublishMany?
  }

  predicate WritesOperations(step: Step)
  {
    step.AdmitKeyStop? || step.CompleteKeyStop? || step.Attempt? || step.MoveOperation? || step.Publish? || step.PublishMany?
  }

  predicate Framed(t: Tables, step: Step, b: Tables)
  {
    && (WritesApprovals(step) || (b.approvals == t.approvals && b.rows == t.rows))
    && (WritesLedger(step) || b.reservations == t.reservations)
    && (WritesOperations(step) || (b.operations == t.operations && b.attempts == t.attempts))
    && (step.PublishMany? || b.children == t.children)
    && (step.AdmitKeyStop? || b.stops == t.stops)
    && (step.Observe? || step.Repair? || b.clock == t.clock)
  }

  lemma ApprovalsFramed(t: Tables, step: Step)
    requires WritesApprovals(step)
    ensures Framed(t, step, Next(t, step))
  {
    var r := Try(t, step);
    if r.Ok? {
      match step
      case Prepare(q) => assert r == PrepareApproval(t, q);
      case Activate(q) => assert r == ActivateApproval(t, q);
      case Stop(id) => assert r == StopApproval(t, id);
      case Retire(id, into) => assert r == TransitionApproval(t, id, into);
      case AdmitKeyStop(q) => assert r == AdmitStop(t, q);
    }
  }

  lemma LedgerFramed(t: Tables, step: Step)
    requires WritesLedger(step)
    ensures Framed(t, step, Next(t, step))
  {
    var r := Try(t, step);
    if r.Ok? {
      match step
      case Spend(q) => assert r == Authorize(t, q);
      case Finalize(a, o, f) => assert r == FinalizeReservation(t, a, o, f);
      case Publish(a, result) => assert r == PublishResult(t, a, result);
      case PublishMany(a, result, rs, d) => assert r == PublishBatch(t, a, result, rs, d);
    }
  }

  lemma OthersFramed(t: Tables, step: Step)
    requires !WritesApprovals(step) && !WritesLedger(step)
    ensures Framed(t, step, Next(t, step))
  {
    var r := Try(t, step);
    if r.Ok? {
      match step
      case CompleteKeyStop(o) => assert r == CompleteStop(t, o);
      case Tombstones(w, incoming) => assert r == StoreTombstones(t, w, incoming);
      case Reconcile(w, signer) => assert r == ReconcileEpoch(t, w, signer);
      case Advance(w, e, n) => assert r == AdvanceEpoch(t, w, e, n);
      case Install(w) => assert r == InstallPolicy(t, w);
      case Attempt(q) => assert r == BeginAttempt(t, q);
      case MoveOperation(o, to) => assert r == TransitionOperation(t, o, to);
      case Observe(decision) => assert r == ObserveTime(t, decision);
      case Repair(ms) => assert r == RepairClock(t, ms);
      case Log(_, _) => assert r == Ok(t);
    }
  }

  /** Which tables a step may write. */
  lemma Frame(t: Tables, step: Step)
    ensures Framed(t, step, Next(t, step))
  {
    if WritesApprovals(step) {
      ApprovalsFramed(t, step);
    } else if WritesLedger(step) {
      LedgerFramed(t, step);
    } else {
      OthersFramed(t, step);
    }
  }
}
