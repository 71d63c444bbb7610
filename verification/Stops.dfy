/**
  By-key stops. Once a stop is admitted, the reusable Petal authority active on
  that wallet and key can only shrink, although the Signer-receipt activation
  path never reads the stop table.
*/
module Stops {
  import opened Wrappers
  import opened Tables
  import opened History

  /** No pending Petal approval is left on a stopped key. */
  predicate NothingPending(t: Tables)
  {
    forall id :: id in t.approvals && Stopped(t, t.approvals[id].terms) ==> !Pending(t.approvals[id].state)
  }

  predicate ActivePetal(t: Tables, wallet: string, keyRef: string, id: string)
  {
    && id in t.approvals
    && t.approvals[id].state == Active
    && t.approvals[id].terms.selector == Petal
    && BoundTo(t.approvals[id], wallet, keyRef)
  }

  function ActivePetals(t: Tables, wallet: string, keyRef: string): set<string>
  {
    set id | id in t.approvals && ActivePetal(t, wallet, keyRef, id)
  }

  lemma FenceLeavesNothingPending(t: Tables, q: StopRequest)
    requires NothingPending(t) && AdmitStop(t, q).Ok?
    ensures NothingPending(AdmitStop(t, q).value)
  {
    var b := AdmitStop(t, q).value;
    if q.operation !in t.operations {
      forall id | id in b.approvals && Stopped(b, b.approvals[id].terms)
        ensures !Pending(b.approvals[id].state)
      {
        if !Stopped(t, t.approvals[id].terms) {
          assert id in BoundApprovals(t, q.wallet, q.keyRef);
        }
      }
    }
  }

  lemma StopStep(t: Tables, step: Step)
    requires NothingPending(t)
    ensures NothingPending(Next(t, step))
  {
    if step.AdmitKeyStop? {
      if Try(t, step).Ok? { FenceLeavesNothingPending(t, step.stop); }
    } else {
      Frame(t, step);
      StepExtends(t, step);
      var b := Next(t, step);
      forall id | id in b.approvals && Pending(b.approvals[id].state)
        ensures !Stopped(b, b.approvals[id].terms)
      {
        if id in t.approvals {
          assert ApprovalExtends(t.approvals[id], b.approvals[id]);
        } else {
          NewApprovalIsPrepared(t, step, id);
        }
      }
    }
  }

  /** An approval enters the table only through preparation, which refuses stopped automation. */
  lemma NewApprovalIsPrepared(t: Tables, step: Step, id: string)
    requires !step.AdmitKeyStop? && id !in t.approvals && id in Next(t, step).approvals
    ensures !Stopped(t, Next(t, step).approvals[id].terms)
  {
    Frame(t, step);
    if step.Activate? && Try(t, step).Ok? {
      ActivateIsRecord(t, step.activate);
    }
  }

  lemma {:induction false} StopRun(t: Tables, steps: seq<Step>)
    requires NothingPending(t)
    ensures NothingPending(Run(t, steps))
  {
    if steps != [] {
      StopRun(t, steps[..|steps| - 1]);
      StopStep(Run(t, steps[..|steps| - 1]), steps[|steps| - 1]);
    }
  }

  /** On a stopped key, one step activates no Petal approval that was not active before. */
  lemma StoppedStepShrinks(t: Tables, step: Step, wallet: string, keyRef: string)
    requires NothingPending(t) && (wallet, keyRef) in t.stops
    ensures ActivePetals(Next(t, step), wallet, keyRef) <= ActivePetals(t, wallet, keyRef)
  {
    var b := Next(t, step);
    StepExtends(t, step);
    forall id | id in ActivePetals(b, wallet, keyRef) ensures id in ActivePetals(t, wallet, keyRef) {
      if id in t.approvals {
        assert ApprovalExtends(t.approvals[id], b.approvals[id]);
        assert Stopped(t, t.approvals[id].terms);
      } else {
        FreshIsNotActive(t, step, id);
      }
    }
  }

  lemma FreshIsNotActive(t: Tables, step: Step, id: string)
    requires id !in t.approvals && id in Next(t, step).approvals
    ensures Next(t, step).approvals[id].state != Active
  {
    Frame(t, step);
    if step.Activate? && Try(t, step).Ok? {
      ActivateIsRecord(t, step.activate);
    }
  }

  lemma {:induction false} StoppedRunShrinks(t: Tables, more: seq<Step>, wallet: string, keyRef: string)
    requires NothingPending(t) && (wallet, keyRef) in t.stops
    ensures ActivePetals(Run(t, more), wallet, keyRef) <= ActivePetals(t, wallet, keyRef)
  {
    if more != [] {
      var last := |more| - 1;
      StoppedRunShrinks(t, more[..last], wallet, keyRef);
      StopRun(t, more[..last]);
      RunExtends(t, more[..last]);
      StoppedStepShrinks(Run(t, more[..last]), more[last], wallet, keyRef);
    }
  }

  lemma StopReachable(t: Tables)
    requires Reachable(t)
    ensures NothingPending(t)
  {
    var steps :| Run(EMPTY, steps) == t;
    StopRun(EMPTY, steps);
  }

  /** Admission itself neither adds nor removes active Petal authority. */
  lemma AdmissionKeepsActive(t: Tables, q: StopRequest)
    requires AdmitStop(t, q).Ok? && q.operation !in t.operations
    ensures ActivePetals(AdmitStop(t, q).value, q.wallet, q.keyRef) == ActivePetals(t, q.wallet, q.keyRef)
  {
    var b := AdmitStop(t, q).value;
    assert b.approvals == Fence(t.approvals, BoundApprovals(t, q.wallet, q.keyRef));
    assert forall id :: ActivePetal(b, q.wallet, q.keyRef, id) <==> ActivePetal(t, q.wallet, q.keyRef, id);
  }

  /**
    From any state the Broker reaches, once a stop for a wallet and key commits,
    every continuation, by either activation path, leaves the active Petal
    approvals of that key within those active when the stop committed.
  */
  lemma StoppedKeysStayStopped(t: Tables, q: StopRequest, more: seq<Step>)
    requires Reachable(t) && AdmitStop(t, q).Ok? && q.operation !in t.operations
    ensures ActivePetals(Run(AdmitStop(t, q).value, more), q.wallet, q.keyRef) <= ActivePetals(t, q.wallet, q.keyRef)
  {
    StopReachable(t);
    FenceLeavesNothingPending(t, q);
    AdmissionKeepsActive(t, q);
    StoppedRunShrinks(AdmitStop(t, q).value, more, q.wallet, q.keyRef);
  }

  // ------------------------------------------------------------ stop identity

  /** A by-key operation never carries a receipt or a result, and every attempt belongs to an operation. */
  predicate StopRowsBare(t: Tables)
  {
    && (forall o :: o in t.operations && t.operations[o].kind == KeyRevocation ==>
          t.operations[o].receipt.None? && t.operations[o].result.None?)
    && (forall key :: key in t.attempts ==> key.0 in t.operations)
  }

  lemma AdmitBare(t: Tables, q: StopRequest)
    requires StopRowsBare(t) && AdmitStop(t, q).Ok?
    ensures StopRowsBare(AdmitStop(t, q).value)
  {
    var b := AdmitStop(t, q).value;
    if q.operation !in t.operations {
      var added := NewTargets(q.operation, BoundApprovals(t, q.wallet, q.keyRef));
      assert b.attempts == t.attempts + added;
      assert forall key :: key in added ==> key.0 == q.operation;
    }
  }

  /** A signing attempt writes at most one operation row and one attempt row of its own. */
  lemma AttemptWrites(t: Tables, q: AttemptRequest)
    requires BeginAttempt(t, q).Ok?
    ensures var b := BeginAttempt(t, q).value;
      && (b.operations == t.operations
          || b.operations == t.operations[q.operation := Operation(q.digest, q.binding, Received, q.isBatch, None, Some(q.receipt), Signing)])
      && q.operation in b.operations
      && forall key :: key in b.attempts ==> key in t.attempts || key.0 == q.operation
  {
    assert BeginAttempt(t, q).value.attempts == RecordAttempt(t.attempts, q);
  }

  lemma AttemptBare(t: Tables, q: AttemptRequest)
    requires StopRowsBare(t) && BeginAttempt(t, q).Ok?
    ensures StopRowsBare(BeginAttempt(t, q).value)
  {
    AttemptWrites(t, q);
  }

  lemma PublishBare(t: Tables, approval: string, r: SigningResult)
    requires StopRowsBare(t) && r.operation in t.operations
    requires PublicationCheck(t, approval, t.operations[r.operation], r).Ok?
    ensures StopRowsBare(Published(t, approval, t.operations[r.operation], r))
  {
  }

  lemma PublishResultBare(t: Tables, approval: string, r: SigningResult)
    requires StopRowsBare(t) && PublishResult(t, approval, r).Ok?
    ensures StopRowsBare(PublishResult(t, approval, r).value)
  {
    if t.operations[r.operation].result.None? { PublishBare(t, approval, r); }
  }

  lemma PublishBatchBare(t: Tables, approval: string, r: SigningResult, results: seq<SigningResult>, derived: seq<string>)
    requires StopRowsBare(t) && PublishBatch(t, approval, r, results, derived).Ok?
    ensures StopRowsBare(PublishBatch(t, approval, r, results, derived).value)
  {
    if t.operations[r.operation].result.None? { PublishBare(t, approval, r); }
  }

  lemma CompleteBare(t: Tables, operation: string)
    requires StopRowsBare(t) && CompleteStop(t, operation).Ok?
    ensures StopRowsBare(CompleteStop(t, operation).value)
  {
  }

  lemma MoveBare(t: Tables, operation: string, next: OperationState)
    requires StopRowsBare(t) && TransitionOperation(t, operation, next).Ok?
    ensures StopRowsBare(TransitionOperation(t, operation, next).value)
  {
  }

  lemma BareStep(t: Tables, step: Step)
    requires StopRowsBare(t)
    ensures StopRowsBare(Next(t, step))
  {
    Frame(t, step);
    if WritesOperations(step) && Try(t, step).Ok? {
      match step
      case AdmitKeyStop(q) => AdmitBare(t, q);
      case CompleteKeyStop(o) => CompleteBare(t, o);
      case Attempt(q) => AttemptBare(t, q);
      case MoveOperation(o, to) => MoveBare(t, o, to);
      case Publish(a, r) => PublishResultBare(t, a, r);
      case PublishMany(a, r, rs, d) => PublishBatchBare(t, a, r, rs, d);
    }
  }

  lemma {:induction false} BareRun(t: Tables, steps: seq<Step>)
    requires StopRowsBare(t)
    ensures StopRowsBare(Run(t, steps))
  {
    if steps != [] {
      BareRun(t, steps[..|steps| - 1]);
      BareStep(Run(t, steps[..|steps| - 1]), steps[|steps| - 1]);
    }
  }

  predicate SameAttemptsOf(a: Tables, b: Tables, operation: string)
  {
    && (forall key :: key in a.attempts && key.0 == operation ==> key in b.attempts && b.attempts[key] == a.attempts[key])
    && (forall key :: key in b.attempts && key.0 == operation ==> key in a.attempts)
  }

  lemma SameTargets(a: Tables, b: Tables, operation: string)
    requires SameAttemptsOf(a, b, operation)
    ensures StopTargets(a, operation) == StopTargets(b, operation)
  {
    assert StopTargets(a, operation).Keys == StopTargets(b, operation).Keys;
  }

  lemma AttemptsElsewhereKept(t: Tables, step: Step)
    requires !step.Attempt? && !step.AdmitKeyStop?
    ensures Next(t, step).attempts == t.attempts
  {
    Frame(t, step);
  }

  /** No step touches the target list of an admitted stop. */
  lemma TargetsStep(t: Tables, step: Step, operation: string)
    requires StopRowsBare(t)
    requires operation in t.operations && t.operations[operation].kind == KeyRevocation
    ensures StopTargets(Next(t, step), operation) == StopTargets(t, operation)
  {
    if Try(t, step).Ok? {
      if step.Attempt? {
        AttemptLeavesTargets(t, step.attempt, operation);
      } else if step.AdmitKeyStop? {
        AdmitLeavesTargets(t, step.stop, operation);
      } else {
        AttemptsElsewhereKept(t, step);
      }
      SameTargets(t, Next(t, step), operation);
    }
  }

  /** A signing attempt is never recorded under a stop: the stop has no receipt to match. */
  lemma AttemptLeavesTargets(t: Tables, q: AttemptRequest, operation: string)
    requires StopRowsBare(t) && BeginAttempt(t, q).Ok?
    requires operation in t.operations && t.operations[operation].kind == KeyRevocation
    ensures SameAttemptsOf(t, BeginAttempt(t, q).value, operation)
  {
    assert BeginAttempt(t, q).value.attempts == RecordAttempt(t.attempts, q);
  }

  lemma AdmitLeavesTargets(t: Tables, q: StopRequest, operation: string)
    requires operation in t.operations && AdmitStop(t, q).Ok?
    ensures SameAttemptsOf(t, AdmitStop(t, q).value, operation)
  {
    if q.operation !in t.operations {
      var added := NewTargets(q.operation, BoundApprovals(t, q.wallet, q.keyRef));
      assert AdmitStop(t, q).value.attempts == t.attempts + added;
      assert forall key :: key in added ==> key.0 == q.operation;
    }
  }

  lemma {:induction false} TargetsRun(t: Tables, more: seq<Step>, operation: string)
    requires StopRowsBare(t)
    requires operation in t.operations && t.operations[operation].kind == KeyRevocation
    ensures StopTargets(Run(t, more), operation) == StopTargets(t, operation)
  {
    if more != [] {
      var last := |more| - 1;
      TargetsRun(t, more[..last], operation);
      BareRun(t, more[..last]);
      RunExtends(t, more[..last]);
      assert OperationExtends(t.operations[operation], Run(t, more[..last]).operations[operation]);
      TargetsStep(Run(t, more[..last]), more[last], operation);
    }
  }

  lemma BareReachable(t: Tables)
    requires Reachable(t)
    ensures StopRowsBare(t)
  {
    var steps :| Run(EMPTY, steps) == t;
    BareRun(EMPTY, steps);
  }

  /** An admitted stop answers any later admission under its operation identifier without writing. */
  lemma AdmissionAnswers(first: Tables, later: Tables, q: StopRequest, again: StopRequest)
    requires OperationsExtend(first.operations, later.operations)
    requires q.operation in first.operations && again.operation == q.operation
    requires first.operations[q.operation].kind == KeyRevocation
    requires first.operations[q.operation].digest == q.parameters
    ensures AdmitStop(later, again) == if again.parameters == q.parameters then Ok(later) else Err(OperationIdConflict)
  {
    assert OperationExtends(first.operations[q.operation], later.operations[q.operation]);
  }

  /**
    Replaying a by-key stop at any later time changes nothing, whatever approvals
    were created since, and still answers the target list of its first execution:
    exactly the approvals then bound to the key.
  */
  lemma StopReplay(t: Tables, q: StopRequest, more: seq<Step>, again: StopRequest)
    requires Reachable(t) && AdmitStop(t, q).Ok? && q.operation !in t.operations
    requires again.operation == q.operation
    ensures AdmitStop(Run(AdmitStop(t, q).value, more), again)
         == if again.parameters == q.parameters then Ok(Run(AdmitStop(t, q).value, more)) else Err(OperationIdConflict)
    ensures StopTargets(Run(AdmitStop(t, q).value, more), q.operation) == StopTargets(AdmitStop(t, q).value, q.operation)
    ensures StopTargets(AdmitStop(t, q).value, q.operation).Keys == BoundApprovals(t, q.wallet, q.keyRef)
  {
    var first := AdmitStop(t, q).value;
    BareReachable(t);
    AdmitBare(t, q);
    FirstTargets(t, q);
    TargetsRun(first, more, q.operation);
    RunExtends(first, more);
    AdmissionAnswers(first, Run(first, more), q, again);
  }

  /** The first execution records exactly the approvals bound to the key. */
  lemma FirstTargets(t: Tables, q: StopRequest)
    requires StopRowsBare(t) && AdmitStop(t, q).Ok? && q.operation !in t.operations
    ensures StopTargets(AdmitStop(t, q).value, q.operation).Keys == BoundApprovals(t, q.wallet, q.keyRef)
  {
    var first := AdmitStop(t, q).value;
    var bound := BoundApprovals(t, q.wallet, q.keyRef);
    assert first.attempts == t.attempts + NewTargets(q.operation, bound);
    forall id ensures id in StopTargets(first, q.operation) <==> id in bound {
      assert (q.operation, id) in NewTargets(q.operation, bound) <==> id in bound;
      assert id in StopTargets(first, q.operation) <==> (q.operation, id) in first.attempts;
    }
  }

  // --------------------------------------------------------- the target list

  /** Identifiers in the order the target list is sorted by. */
  predicate Below(a: string, b: string)
  {
    b != "" && (a == "" || a[0] < b[0] || (a[0] == b[0] && Below(a[1..], b[1..])))
  }

  lemma {:induction false} BelowIsTotal(a: string, b: string)
    ensures a == b || Below(a, b) || Below(b, a)
    ensures !(Below(a, b) && Below(b, a)) && !Below(a, a)
  {
    if a != "" {
      BelowIsTotal(a[1..], a[1..]);
    }
    if a != "" && b != "" {
      BelowIsTotal(a[1..], b[1..]);
      assert a == [a[0]] + a[1..] && b == [b[0]] + b[1..];
    }
  }

  lemma {:induction false} BelowIsTransitive(a: string, b: string, c: string)
    requires Below(a, b) && Below(b, c)
    ensures Below(a, c)
  {
    if a != "" && a[0] == b[0] == c[0] {
      BelowIsTransitive(a[1..], b[1..], c[1..]);
    }
  }

  type Target = (string, Mark)

  predicate Sorted(list: seq<Target>)
  {
    forall i, j :: 0 <= i < j < |list| ==> Below(list[i].0, list[j].0)
  }

  /** The list a stop answers: every recorded target once, sorted by approval. */
  predicate Lists(list: seq<Target>, targets: map<string, Mark>)
  {
    && Sorted(list)
    && (forall x :: x in list ==> x.0 in targets && targets[x.0] == x.1)
    && (forall id :: id in targets ==> (id, targets[id]) in list)
  }

  /** Nothing in a sorted list comes before its head. */
  lemma HeadIsLeast(list: seq<Target>, x: Target)
    requires Sorted(list) && x in list
    ensures list[0].0 == x.0 || Below(list[0].0, x.0)
  {
    var i :| 0 <= i < |list| && list[i] == x;
    if i > 0 {
      assert Below(list[0].0, list[i].0);
    }
  }

  lemma ListFirst(a: seq<Target>, b: seq<Target>, targets: map<string, Mark>)
    requires Lists(a, targets) && Lists(b, targets) && a != []
    ensures b != [] && a[0] == b[0]
  {
    assert a[0] in a;
    assert a[0] in b;
    assert b[0] in b;
    assert b[0] in a;
    HeadIsLeast(a, b[0]);
    HeadIsLeast(b, a[0]);
    BelowIsTotal(a[0].0, b[0].0);
  }

  lemma ListRest(list: seq<Target>, targets: map<string, Mark>)
    requires Lists(list, targets) && list != []
    ensures Lists(list[1..], targets - {list[0].0})
  {
    var rest := list[1..];
    forall x | x in rest ensures x.0 in targets - {list[0].0} && (targets - {list[0].0})[x.0] == x.1 {
      var i :| 0 <= i < |rest| && rest[i] == x;
      assert list[i + 1] == x;
      assert Below(list[0].0, list[i + 1].0);
      BelowIsTotal(x.0, x.0);
    }
    forall id | id in targets - {list[0].0} ensures (id, targets[id]) in rest {
      var i :| 0 <= i < |list| && list[i] == (id, targets[id]);
      assert i > 0 && rest[i - 1] == list[i];
    }
  }

  /** There is one such list. */
  lemma {:induction false} OneList(a: seq<Target>, b: seq<Target>, targets: map<string, Mark>)
    requires Lists(a, targets) && Lists(b, targets)
    ensures a == b
  {
    if a == [] {
      if b != [] {
        ListFirst(b, a, targets);
      }
    } else {
      ListFirst(a, b, targets);
      ListRest(a, targets);
      ListRest(b, targets);
      OneList(a[1..], b[1..], targets - {a[0].0});
      assert a == [a[0]] + a[1..] && b == [b[0]] + b[1..];
    }
  }

  /** The least identifier of a set. */
  method LeastOf(ids: set<string>) returns (least: string)
    requires ids != {}
    ensures least in ids && forall id :: id in ids ==> id == least || Below(least, id)
  {
    least :| least in ids;
    var todo := ids - {least};
    while todo != {}
      invariant todo <= ids && least in ids - todo
      invariant forall id :: id in ids - todo ==> id == least || Below(least, id)
      decreases |todo|
    {
      var id :| id in todo;
      BelowIsTotal(id, least);
      if Below(id, least) {
        forall x | x in ids - todo && x != least ensures Below(id, x) {
          BelowIsTransitive(id, least, x);
        }
        least := id;
      }
      todo := todo - {id};
    }
  }

  /** The targets sorted, as both answers of a stop give them. */
  method ListTargets(targets: map<string, Mark>) returns (list: seq<Target>)
    ensures Lists(list, targets)
  {
    list := [];
    var todo := targets.Keys;
    while todo != {}
      invariant todo <= targets.Keys && Sorted(list)
      invariant forall x :: x in list ==> x.0 in targets.Keys - todo && targets[x.0] == x.1
      invariant forall id :: id in targets.Keys - todo ==> (id, targets[id]) in list
      invariant forall x, id :: x in list && id in todo ==> Below(x.0, id)
      decreases |todo|
    {
      var id := LeastOf(todo);
      AppendSorted(list, (id, targets[id]));
      list := list + [(id, targets[id])];
      todo := todo - {id};
    }
  }

  lemma AppendSorted(list: seq<Target>, x: Target)
    requires Sorted(list) && forall y :: y in list ==> Below(y.0, x.0)
    ensures Sorted(list + [x])
  {
    forall i, j | 0 <= i < j < |list + [x]| ensures Below((list + [x])[i].0, (list + [x])[j].0) {
      if j == |list| {
        assert list[i] in list;
      }
    }
  }

  /** The first execution and every replay answer one and the same list, entry by entry and in the same order. */
  lemma ReplayAnswersTheList(t: Tables, q: StopRequest, more: seq<Step>, first: seq<Target>, again: seq<Target>)
    requires Reachable(t) && AdmitStop(t, q).Ok? && q.operation !in t.operations
    requires Lists(first, StopTargets(AdmitStop(t, q).value, q.operation))
    requires Lists(again, StopTargets(Run(AdmitStop(t, q).value, more), q.operation))
    ensures again == first
    ensures forall id :: (exists x :: x in first && x.0 == id) <==> id in BoundApprovals(t, q.wallet, q.keyRef)
  {
    StopReplay(t, q, more, q);
    OneList(first, again, StopTargets(AdmitStop(t, q).value, q.operation));
    ListedApprovals(first, StopTargets(AdmitStop(t, q).value, q.operation));
  }

  lemma ListedApprovals(list: seq<Target>, targets: map<string, Mark>)
    requires Lists(list, targets)
    ensures forall id :: (exists x :: x in list && x.0 == id) <==> id in targets.Keys
  {
    forall id | id in targets ensures exists x :: x in list && x.0 == id {
      assert (id, targets[id]) in list;
    }
  }
}
