/**
  The two transition tables over whole runs: through which states an approval
  becomes active, and through which a signing operation succeeds.
*/
module Lifecycle {
  import opened Tables
  import opened History
  import Renewals

  // --------------------------------------------------------------- operations

  /** A state history the transition table allows, from admission on. */
  predicate OperationPath(path: seq<OperationState>)
  {
    && path != [] && path[0] == Received
    && forall i :: 0 < i < |path| ==> ValidOperationTransition(path[i - 1], path[i])
  }

  const SUCCESS: seq<OperationState> :=
    [Received, Validated, OpReserved, Dispatched, DownstreamAccepted, OpCommitted, Succeeded]

  lemma {:induction false} ProgressIsLinear(path: seq<OperationState>, k: nat)
    requires OperationPath(path) && k < |SUCCESS| && path[|path| - 1] == SUCCESS[k]
    ensures path == SUCCESS[..k + 1]
    decreases |path|
  {
    var n := |path| - 1;
    if n > 0 {
      assert ValidOperationTransition(path[n - 1], path[n]);
      assert k > 0 && path[n - 1] == SUCCESS[k - 1];
      ProgressIsLinear(path[..n], k - 1);
      assert path == path[..n] + [path[n]];
    }
  }

  /** The states an operation has gone through in a run, each change once. */
  function OperationStates(steps: seq<Step>, operation: string): seq<OperationState>
  {
    if steps == [] then []
    else
      var before, now := OperationStates(steps[..|steps| - 1], operation), Run(EMPTY, steps).operations;
      if operation !in now || (before != [] && before[|before| - 1] == now[operation].state) then before
      else before + [now[operation].state]
  }

  predicate IsSigning(t: Tables, operation: string)
  {
    operation in t.operations && t.operations[operation].kind == Signing
  }

  /** One step moves a signing operation along the table, publication included. */
  predicate MovesAlong(a: Operation, b: Operation)
  {
    b.state == a.state || ValidOperationTransition(a.state, b.state)
  }

  /** The operation rows a transaction leaves, judged one operation at a time. */
  predicate RowsMove(t: Tables, b: Tables, operation: string)
  {
    && (IsSigning(t, operation) ==>
          operation in b.operations && MovesAlong(t.operations[operation], b.operations[operation]))
    && (operation !in t.operations && IsSigning(b, operation) ==> b.operations[operation].state == Received)
  }

  lemma AdmitMoves(t: Tables, q: StopRequest, operation: string)
    requires AdmitStop(t, q).Ok?
    ensures RowsMove(t, AdmitStop(t, q).value, operation)
  {
  }

  lemma CompleteMoves(t: Tables, o: string, operation: string)
    requires o in t.operations && t.operations[o].kind == KeyRevocation && CompleteStop(t, o).Ok?
    ensures RowsMove(t, CompleteStop(t, o).value, operation)
  {
  }

  lemma AttemptMoves(t: Tables, q: AttemptRequest, operation: string)
    requires BeginAttempt(t, q).Ok?
    ensures RowsMove(t, BeginAttempt(t, q).value, operation)
  {
  }

  lemma TransitionMoves(t: Tables, o: string, next: OperationState, operation: string)
    requires TransitionOperation(t, o, next).Ok?
    ensures RowsMove(t, TransitionOperation(t, o, next).value, operation)
  {
  }

  lemma ResultMoves(t: Tables, approval: string, r: SigningResult, operation: string)
    requires PublishResult(t, approval, r).Ok?
    ensures RowsMove(t, PublishResult(t, approval, r).value, operation)
  {
  }

  lemma BatchMoves(
    t: Tables, approval: string, r: SigningResult, results: seq<SigningResult>, derived: seq<string>, operation: string)
    requires PublishBatch(t, approval, r, results, derived).Ok?
    ensures RowsMove(t, PublishBatch(t, approval, r, results, derived).value, operation)
  {
  }

  lemma AdmissionsMove(t: Tables, step: Step, operation: string)
    requires step.AdmitKeyStop? || step.CompleteKeyStop? || step.Attempt?
    ensures RowsMove(t, Next(t, step), operation)
  {
    if Try(t, step).Ok? {
      match step
      case AdmitKeyStop(q) => AdmitMoves(t, q, operation);
      case CompleteKeyStop(o) => CompleteMoves(t, o, operation);
      case Attempt(q) => AttemptMoves(t, q, operation);
    }
  }

  lemma ProgressMoves(t: Tables, step: Step, operation: string)
    requires step.MoveOperation? || step.Publish? || step.PublishMany?
    ensures RowsMove(t, Next(t, step), operation)
  {
    if Try(t, step).Ok? {
      match step
      case MoveOperation(o, to) => TransitionMoves(t, o, to, operation);
      case Publish(a, r) => ResultMoves(t, a, r, operation);
      case PublishMany(a, r, rs, d) => BatchMoves(t, a, r, rs, d, operation);
    }
  }

  /** Every step moves a signing operation along the table or leaves it, and admits it as received. */
  lemma OperationMoves(t: Tables, step: Step, operation: string)
    ensures RowsMove(t, Next(t, step), operation)
  {
    if step.AdmitKeyStop? || step.CompleteKeyStop? || step.Attempt? {
      AdmissionsMove(t, step, operation);
    } else if WritesOperations(step) {
      ProgressMoves(t, step, operation);
    } else {
      Frame(t, step);
    }
  }

  lemma KindIsFrozen(t: Tables, step: Step, operation: string)
    requires operation in t.operations && IsSigning(Next(t, step), operation)
    ensures IsSigning(t, operation)
  {
    StepExtends(t, step);
    assert OperationExtends(t.operations[operation], Next(t, step).operations[operation]);
  }

  lemma PathGrows(path: seq<OperationState>, s: OperationState)
    requires OperationPath(path) && ValidOperationTransition(path[|path| - 1], s)
    ensures OperationPath(path + [s])
  {
    var all := path + [s];
    forall i | 0 < i < |all| ensures ValidOperationTransition(all[i - 1], all[i]) {
      if i < |path| {
        assert ValidOperationTransition(path[i - 1], path[i]);
      }
    }
  }

  lemma {:induction false} UnseenHasNoStates(steps: seq<Step>, operation: string)
    requires operation !in Run(EMPTY, steps).operations
    ensures OperationStates(steps, operation) == []
  {
    if steps != [] {
      var front := steps[..|steps| - 1];
      StepExtends(Run(EMPTY, front), steps[|steps| - 1]);
      UnseenHasNoStates(front, operation);
    }
  }

  /** In every run the states of a signing operation are a path of the table, up to its present state. */
  lemma {:induction false} SigningFollowsTheTable(steps: seq<Step>, operation: string)
    requires IsSigning(Run(EMPTY, steps), operation)
    ensures var path := OperationStates(steps, operation);
      OperationPath(path) && path[|path| - 1] == Run(EMPTY, steps).operations[operation].state
  {
    var front, step := steps[..|steps| - 1], steps[|steps| - 1];
    var t := Run(EMPTY, front);
    if operation in t.operations {
      KindIsFrozen(t, step, operation);
      SigningFollowsTheTable(front, operation);
      OperationMoves(t, step, operation);
      if Next(t, step).operations[operation].state != t.operations[operation].state {
        PathGrows(OperationStates(front, operation), Next(t, step).operations[operation].state);
      }
    } else {
      UnseenHasNoStates(front, operation);
      OperationMoves(t, step, operation);
    }
  }

  /** In every run a signing operation has succeeded exactly when it went through every stage once, in order. */
  lemma OneWayToSucceed(steps: seq<Step>, operation: string)
    requires IsSigning(Run(EMPTY, steps), operation)
    ensures Run(EMPTY, steps).operations[operation].state == Succeeded <==> OperationStates(steps, operation) == SUCCESS
  {
    SigningFollowsTheTable(steps, operation);
    if Run(EMPTY, steps).operations[operation].state == Succeeded {
      ProgressIsLinear(OperationStates(steps, operation), 6);
      assert SUCCESS[..7] == SUCCESS;
    }
  }

  /** States a dispatched operation can still be in; DENIED and CANCELLED are not among them. */
  predicate PastDispatch(s: OperationState)
  {
    s in {Dispatched, DownstreamAccepted, OpCommitted, Succeeded, OpFailed, OpQuarantined}
  }

  /** No continuation, from any tables, denies or cancels a dispatched signing operation. */
  lemma {:induction false} DispatchedIsNeverDenied(t: Tables, more: seq<Step>, operation: string)
    requires IsSigning(t, operation) && PastDispatch(t.operations[operation].state)
    ensures IsSigning(Run(t, more), operation) && PastDispatch(Run(t, more).operations[operation].state)
  {
    if more != [] {
      var front := more[..|more| - 1];
      DispatchedIsNeverDenied(t, front, operation);
      StepExtends(Run(t, front), more[|more| - 1]);
      OperationMoves(Run(t, front), more[|more| - 1], operation);
    }
  }

  // ---------------------------------------------------------------- approvals

  function ApprovalStates(steps: seq<Step>, id: string): seq<ApprovalState>
  {
    if steps == [] then []
    else
      var before, now := ApprovalStates(steps[..|steps| - 1], id), Run(EMPTY, steps).approvals;
      if id !in now || (before != [] && before[|before| - 1] == now[id].state) then before
      else before + [now[id].state]
  }

  /** One step moves an approval along the table, and makes it active only out of its ceremony. */
  predicate ApprovalMoves(a: ApprovalState, b: ApprovalState)
  {
    b == a || (ValidApprovalTransition(a, b) && (b == Active ==> a == AwaitingCeremony))
  }

  /** The approval rows a transaction leaves, judged one approval at a time. */
  predicate StatesMove(a: map<string, Approval>, b: map<string, Approval>, id: string)
  {
    && (id in a ==> id in b && ApprovalMoves(a[id].state, b[id].state))
    && (id !in a && id in b ==> b[id].state == AwaitingCeremony)
  }

  lemma PrepareMoves(t: Tables, q: PrepareRequest, id: string)
    requires PrepareApproval(t, q).Ok?
    ensures StatesMove(t.approvals, PrepareApproval(t, q).value.approvals, id)
  {
  }

  lemma ActivateMoves(t: Tables, q: ActivateRequest, id: string)
    requires ActivateApproval(t, q).Ok?
    ensures StatesMove(t.approvals, ActivateApproval(t, q).value.approvals, id)
  {
    ActivateIsRecord(t, q);
    Renewals.ActivateWrites(t, q.id, q.operation, q.grant);
  }

  lemma StopMoves(t: Tables, x: string, id: string)
    requires StopApproval(t, x).Ok?
    ensures StatesMove(t.approvals, StopApproval(t, x).value.approvals, id)
  {
  }

  lemma RetireMoves(t: Tables, x: string, into: ApprovalState, id: string)
    requires Retiring(into) && TransitionApproval(t, x, into).Ok?
    ensures StatesMove(t.approvals, TransitionApproval(t, x, into).value.approvals, id)
  {
  }

  lemma FenceMoves(t: Tables, q: StopRequest, id: string)
    requires AdmitStop(t, q).Ok?
    ensures StatesMove(t.approvals, AdmitStop(t, q).value.approvals, id)
  {
  }

  /** Every step moves an approval along the table or leaves it, and stores it awaiting its ceremony. */
  lemma ApprovalStep(t: Tables, step: Step, id: string)
    ensures StatesMove(t.approvals, Next(t, step).approvals, id)
  {
    if WritesApprovals(step) {
      if Try(t, step).Ok? {
        match step
        case Prepare(q) => PrepareMoves(t, q, id);
        case Activate(q) => ActivateMoves(t, q, id);
        case Stop(x) => StopMoves(t, x, id);
        case Retire(x, into) => RetireMoves(t, x, into, id);
        case AdmitKeyStop(q) => FenceMoves(t, q, id);
      }
    } else {
      Frame(t, step);
    }
  }

  predicate CeremonyPath(path: seq<ApprovalState>)
  {
    && path != [] && path[0] == AwaitingCeremony
    && forall i :: 0 < i < |path| ==> path[i] != path[i - 1] && ApprovalMoves(path[i - 1], path[i])
  }

  lemma {:induction false} UnseenHasNoApprovalStates(steps: seq<Step>, id: string)
    requires id !in Run(EMPTY, steps).approvals
    ensures ApprovalStates(steps, id) == []
  {
    if steps != [] {
      var front := steps[..|steps| - 1];
      StepExtends(Run(EMPTY, front), steps[|steps| - 1]);
      UnseenHasNoApprovalStates(front, id);
    }
  }

  lemma CeremonyPathGrows(path: seq<ApprovalState>, s: ApprovalState)
    requires CeremonyPath(path) && s != path[|path| - 1] && ApprovalMoves(path[|path| - 1], s)
    ensures CeremonyPath(path + [s])
  {
    var all := path + [s];
    forall i | 0 < i < |all| ensures all[i] != all[i - 1] && ApprovalMoves(all[i - 1], all[i]) {
      if i < |path| {
        assert path[i] != path[i - 1] && ApprovalMoves(path[i - 1], path[i]);
      }
    }
  }

  /** In every run the states of an approval start with its ceremony and follow the table. */
  lemma {:induction false} ApprovalsFollowTheTable(steps: seq<Step>, id: string)
    requires id in Run(EMPTY, steps).approvals
    ensures var path := ApprovalStates(steps, id);
      CeremonyPath(path) && path[|path| - 1] == Run(EMPTY, steps).approvals[id].state
  {
    var front, step := steps[..|steps| - 1], steps[|steps| - 1];
    var t := Run(EMPTY, front);
    if id in t.approvals {
      ApprovalsFollowTheTable(front, id);
      ApprovalStep(t, step, id);
      if Next(t, step).approvals[id].state != t.approvals[id].state {
        CeremonyPathGrows(ApprovalStates(front, id), Next(t, step).approvals[id].state);
      }
    } else {
      UnseenHasNoApprovalStates(front, id);
      ApprovalStep(t, step, id);
    }
  }

  /** Nothing returns to its ceremony. */
  lemma CeremonyComesFirst(path: seq<ApprovalState>)
    requires CeremonyPath(path) && path[|path| - 1] == AwaitingCeremony
    ensures path == [AwaitingCeremony]
  {
    forall i | 0 < i < |path| ensures path[i] != AwaitingCeremony {
      assert ApprovalMoves(path[i - 1], path[i]);
      if i > 1 {
        assert ApprovalMoves(path[i - 2], path[i - 1]);
      }
    }
  }

  /** In every run an approval is active exactly when all it ever did was to leave its ceremony for activity. */
  lemma OneWayToActivate(steps: seq<Step>, id: string)
    requires id in Run(EMPTY, steps).approvals
    ensures Run(EMPTY, steps).approvals[id].state == Active <==> ApprovalStates(steps, id) == [AwaitingCeremony, Active]
  {
    ApprovalsFollowTheTable(steps, id);
    var path := ApprovalStates(steps, id);
    if path[|path| - 1] == Active {
      var n := |path| - 1;
      assert ApprovalMoves(path[n - 1], path[n]);
      CeremonyComesFirst(path[..n]);
      assert path == path[..n] + [path[n]];
    }
  }

  predicate Terminal(s: ApprovalState)
  {
    s in {Exhausted, Expired, Revoked, Cancelled, Failed}
  }

  /** The final states are those nothing leaves, and those a stop leaves alone. */
  lemma TerminalIsFinal(s: ApprovalState)
    ensures Terminal(s) <==> forall next: ApprovalState :: !ValidApprovalTransition(s, next)
    ensures Terminal(s) <==> StopState(s).None?
    ensures !Terminal(s) ==> ValidApprovalTransition(s, StopState(s).value) && Terminal(StopState(s).value)
  {
    if !Terminal(s) {
      assert ValidApprovalTransition(s, StopState(s).value);
    }
  }

  /** A finished approval keeps its state in every continuation, from any tables. */
  lemma {:induction false} FinishedForever(t: Tables, more: seq<Step>, id: string)
    requires id in t.approvals && Terminal(t.approvals[id].state)
    ensures id in Run(t, more).approvals && Run(t, more).approvals[id].state == t.approvals[id].state
  {
    if more != [] {
      var front := more[..|more| - 1];
      FinishedForever(t, front, id);
      ApprovalStep(Run(t, front), more[|more| - 1], id);
      TerminalIsFinal(t.approvals[id].state);
    }
  }
}
