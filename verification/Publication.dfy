/** Results are published exactly once and agree with the ledger for ever after. */
module Publication {
  import opened Wrappers
  import opened Accounting
  import opened Tables
  import opened History

  /** A stored result: success, the retained receipt, and the committed charge it names. */
  predicate ResultBacked(t: Tables, operation: string)
    requires operation in t.operations
  {
    var o := t.operations[operation];
    o.result.Some? ==>
      && o.state == Succeeded
      && o.receipt.Some?
      && o.result.value.operation == operation
      && o.result.value.digest == o.digest == o.receipt.value.operationDigest
      && HasState(t, o.receipt.value.approval, operation, Committed)
  }

  predicate ResultsBacked(t: Tables)
  {
    forall operation :: operation in t.operations ==> ResultBacked(t, operation)
  }

  /** Children belong to published batches and fill the ordinals below 32 without gaps. */
  predicate ChildrenFiled(t: Tables)
  {
    forall key :: key in t.children ==>
      && key.0 in t.operations && t.operations[key.0].result.Some? && t.operations[key.0].isBatch
      && key.1 < MAX_CHILDREN
      && forall j: nat :: j < key.1 ==> (key.0, j) in t.children
  }

  lemma {:induction false} FindStable(a: seq<Reservation>, b: seq<Reservation>, approval: string, operation: string)
    requires ReservationsExtend(a, b) && Find(a, approval, operation) < |a|
    ensures Find(b, approval, operation) == Find(a, approval, operation)
  {
    assert ReservationExtends(a[0], b[0]);
    if !(a[0].approval == approval && a[0].operation == operation) {
      forall i | 0 <= i < |a[1..]| ensures ReservationExtends(a[1..][i], b[1..][i]) {
        assert ReservationExtends(a[i + 1], b[i + 1]);
      }
      FindStable(a[1..], b[1..], approval, operation);
    }
  }

  /** A committed charge stays committed. */
  lemma CommittedStays(t: Tables, b: Tables, approval: string, operation: string)
    requires ReservationsExtend(t.reservations, b.reservations)
    requires HasState(t, approval, operation, Committed)
    ensures HasState(b, approval, operation, Committed)
  {
    FindStable(t.reservations, b.reservations, approval, operation);
    var i := Find(t.reservations, approval, operation);
    assert ReservationExtends(t.reservations[i], b.reservations[i]);
  }

  lemma BackedCarries(t: Tables, b: Tables, operation: string)
    requires Extends(t, b) && operation in t.operations && ResultBacked(t, operation)
    requires t.operations[operation].result.Some?
    ensures ResultBacked(b, operation) && b.operations[operation].result == t.operations[operation].result
  {
    assert OperationExtends(t.operations[operation], b.operations[operation]);
    CommittedStays(t, b, t.operations[operation].receipt.value.approval, operation);
  }

  lemma PublishedBacked(t: Tables, approval: string, r: SigningResult)
    requires r.operation in t.operations && t.operations[r.operation].digest == r.digest
    requires PublicationCheck(t, approval, t.operations[r.operation], r).Ok?
    ensures ResultBacked(Published(t, approval, t.operations[r.operation], r), r.operation)
  {
    var b := Published(t, approval, t.operations[r.operation], r);
    var i := Find(t.reservations, approval, r.operation);
    CommitRowExtends(t.reservations, approval, r.operation);
    FindStable(t.reservations, b.reservations, approval, r.operation);
  }

  /** What storing a result takes. */
  predicate Stores(t: Tables, b: Tables, approval: string, r: SigningResult)
  {
    && r.operation in t.operations && t.operations[r.operation].digest == r.digest
    && PublicationCheck(t, approval, t.operations[r.operation], r).Ok?
    && b.operations == Published(t, approval, t.operations[r.operation], r).operations
    && b.reservations == Published(t, approval, t.operations[r.operation], r).reservations
  }

  lemma ResultStores(t: Tables, approval: string, r: SigningResult)
    requires PublishResult(t, approval, r).Ok?
    ensures PublishResult(t, approval, r).value == t || Stores(t, PublishResult(t, approval, r).value, approval, r)
  {
  }

  lemma BatchStoresResult(t: Tables, approval: string, r: SigningResult, results: seq<SigningResult>, derived: seq<string>)
    requires PublishBatch(t, approval, r, results, derived).Ok?
    ensures var b := PublishBatch(t, approval, r, results, derived).value; b == t || Stores(t, b, approval, r)
  {
  }

  /** Whatever has no result yet. */
  predicate Unstored(operations: map<string, Operation>, operation: string)
  {
    operation in operations ==> operations[operation].result.None?
  }

  lemma AttemptStoresNothing(t: Tables, q: AttemptRequest, operation: string)
    requires BeginAttempt(t, q).Ok? && Unstored(t.operations, operation)
    ensures Unstored(BeginAttempt(t, q).value.operations, operation)
  {
  }

  lemma OthersStoreNothing(t: Tables, step: Step, operation: string)
    requires !step.Publish? && !step.PublishMany? && Unstored(t.operations, operation)
    ensures Unstored(Next(t, step).operations, operation)
  {
    if step.Attempt? {
      if Try(t, step).Ok? { AttemptStoresNothing(t, step.attempt, operation); }
    } else {
      Frame(t, step);
    }
  }

  /** Only publication stores a result, and only on an unpublished operation. */
  lemma NewResult(t: Tables, step: Step, operation: string)
    requires !Unstored(Next(t, step).operations, operation) && Unstored(t.operations, operation)
    ensures step.Publish? || step.PublishMany?
    ensures step.result.operation == operation && Stores(t, Next(t, step), step.approval, step.result)
  {
    if step.Publish? {
      if Try(t, step).Ok? { ResultStores(t, step.approval, step.result); }
    } else if step.PublishMany? {
      if Try(t, step).Ok? { BatchStoresResult(t, step.approval, step.result, step.results, step.derived); }
    } else {
      OthersStoreNothing(t, step, operation);
    }
  }

  lemma StoredIsBacked(t: Tables, b: Tables, approval: string, r: SigningResult)
    requires Stores(t, b, approval, r)
    ensures ResultBacked(b, r.operation)
  {
    PublishedBacked(t, approval, r);
  }

  lemma ResultStep(t: Tables, step: Step)
    requires ResultsBacked(t)
    ensures ResultsBacked(Next(t, step))
  {
    var b := Next(t, step);
    StepExtends(t, step);
    forall operation | operation in b.operations ensures ResultBacked(b, operation) {
      if !Unstored(t.operations, operation) {
        BackedCarries(t, b, operation);
      } else if !Unstored(b.operations, operation) {
        NewResult(t, step, operation);
        StoredIsBacked(t, b, step.approval, step.result);
      }
    }
  }

  /** New rows at ordinals 0, 1, 2, ... of a published parent leave no gap. */
  lemma FiledTogether(t: Tables, b: Tables, parent: string, results: seq<SigningResult>)
    requires ChildrenFiled(t) && OperationsExtend(t.operations, b.operations)
    requires b.children == t.children + NewChildren(parent, results) && |results| <= MAX_CHILDREN
    requires parent in b.operations && b.operations[parent].result.Some? && b.operations[parent].isBatch
    ensures ChildrenFiled(b)
  {
    var added := NewChildren(parent, results);
    forall key | key in b.children
      ensures key.0 in b.operations && b.operations[key.0].result.Some? && b.operations[key.0].isBatch
      ensures key.1 < MAX_CHILDREN
      ensures forall j: nat :: j < key.1 ==> (key.0, j) in b.children
    {
      if key in t.children {
        assert OperationExtends(t.operations[key.0], b.operations[key.0]);
      } else {
        assert key in added && key.0 == parent && key.1 < |results|;
        forall j: nat | j < key.1 ensures (key.0, j) in b.children {
          assert (key.0, j) in added;
        }
      }
    }
  }

  lemma BatchFiled(t: Tables, approval: string, r: SigningResult, results: seq<SigningResult>, derived: seq<string>)
    requires ChildrenFiled(t) && PublishBatch(t, approval, r, results, derived).Ok?
    ensures ChildrenFiled(PublishBatch(t, approval, r, results, derived).value)
  {
    if t.operations[r.operation].result.None? {
      BatchExtends(t, approval, r, results, derived);
      FiledTogether(t, PublishBatch(t, approval, r, results, derived).value, r.operation, results);
    }
  }

  lemma ChildStep(t: Tables, step: Step)
    requires ChildrenFiled(t)
    ensures ChildrenFiled(Next(t, step))
  {
    if step.PublishMany? {
      if Try(t, step).Ok? { BatchFiled(t, step.approval, step.result, step.results, step.derived); }
    } else {
      Frame(t, step);
      StepExtends(t, step);
      forall key | key in t.children ensures OperationExtends(t.operations[key.0], Next(t, step).operations[key.0]) {}
    }
  }

  /** No child operation identifier stands for two results. */
  predicate ChildrenDistinct(children: map<(string, nat), SigningResult>)
  {
    forall a, b :: a in children && b in children && children[a].operation == children[b].operation ==> a == b
  }

  lemma BatchDistinct(t: Tables, approval: string, r: SigningResult, results: seq<SigningResult>, derived: seq<string>)
    requires ChildrenDistinct(t.children) && PublishBatch(t, approval, r, results, derived).Ok?
    ensures ChildrenDistinct(PublishBatch(t, approval, r, results, derived).value.children)
  {
    if t.operations[r.operation].result.None? {
      DistinctTogether(t.children, r.operation, results);
    }
  }

  lemma DistinctTogether(children: map<(string, nat), SigningResult>, parent: string, results: seq<SigningResult>)
    requires ChildrenDistinct(children)
    requires forall k :: 0 <= k < |results| ==> forall key :: key in children ==> children[key].operation != results[k].operation
    requires forall j, k :: 0 <= j < k < |results| ==> results[j].operation != results[k].operation
    ensures ChildrenDistinct(children + NewChildren(parent, results))
  {
    var added := NewChildren(parent, results);
    var all := children + added;
    forall a, b | a in all && b in all && all[a].operation == all[b].operation ensures a == b {
      assert forall key :: key in added ==> key.0 == parent && key.1 < |results| && added[key] == results[key.1];
      if a in added && b in added {
        assert a.1 == b.1;
      }
    }
  }

  lemma {:induction false} DistinctRun(t: Tables, steps: seq<Step>)
    requires ChildrenDistinct(t.children)
    ensures ChildrenDistinct(Run(t, steps).children)
  {
    if steps != [] {
      var front, step := Run(t, steps[..|steps| - 1]), steps[|steps| - 1];
      DistinctRun(t, steps[..|steps| - 1]);
      Frame(front, step);
      if step.PublishMany? && Try(front, step).Ok? {
        BatchDistinct(front, step.approval, step.result, step.results, step.derived);
      }
    }
  }

  lemma {:induction false} PublicationRun(t: Tables, steps: seq<Step>)
    requires ResultsBacked(t) && ChildrenFiled(t)
    ensures ResultsBacked(Run(t, steps)) && ChildrenFiled(Run(t, steps))
  {
    if steps != [] {
      var last := |steps| - 1;
      PublicationRun(t, steps[..last]);
      ResultStep(Run(t, steps[..last]), steps[last]);
      ChildStep(Run(t, steps[..last]), steps[last]);
    }
  }

  lemma PublicationReachable(t: Tables)
    requires Reachable(t)
    ensures ResultsBacked(t) && ChildrenFiled(t)
  {
    var steps :| Run(EMPTY, steps) == t;
    PublicationRun(EMPTY, steps);
  }

  // ---------------------------------------------------------------- read back

  /** A parent's rows are exactly the given results at ordinals 0, 1, 2, ... */
  predicate Files(children: map<(string, nat), SigningResult>, parent: string, results: seq<SigningResult>)
  {
    && |results| <= MAX_CHILDREN
    && (forall k: nat :: k < |results| ==> (parent, k) in children && children[(parent, k)] == results[k])
    && (forall key :: key in children && key.0 == parent ==> key.1 < |results|)
  }

  /** Reading by ordinal returns the published order. */
  lemma {:induction false} ReadBack(
    children: map<(string, nat), SigningResult>, parent: string, results: seq<SigningResult>, k: nat)
    requires Files(children, parent, results) && k <= MAX_CHILDREN
    ensures ChildrenFrom(children, parent, k) == if k <= |results| then results[k..] else []
    decreases MAX_CHILDREN - k
  {
    if k < MAX_CHILDREN {
      ReadBack(children, parent, results, k + 1);
      if k < |results| {
        assert results[k..] == [results[k]] + results[k + 1..];
      } else {
        assert (parent, k) !in children;
      }
    }
  }

  lemma FilesCarry(t: Tables, b: Tables, parent: string, results: seq<SigningResult>)
    requires ChildrenExtend(t, b) && Files(t.children, parent, results)
    requires parent in t.operations && t.operations[parent].result.Some?
    ensures Files(b.children, parent, results)
  {
  }

  /** Before publication a parent has no children at all. */
  lemma UnpublishedHasNone(t: Tables, parent: string)
    requires ChildrenFiled(t)
    requires parent in t.operations ==> t.operations[parent].result.None?
    ensures ChildrenFrom(t.children, parent, 0) == []
  {
    ReadBack(t.children, parent, [], 0);
  }

  lemma BatchFiles(t: Tables, approval: string, r: SigningResult, results: seq<SigningResult>, derived: seq<string>)
    requires ChildrenFiled(t) && PublishBatch(t, approval, r, results, derived).Ok?
    requires t.operations[r.operation].result.None?
    ensures Files(PublishBatch(t, approval, r, results, derived).value.children, r.operation, results)
  {
    var b := PublishBatch(t, approval, r, results, derived).value;
    var added := NewChildren(r.operation, results);
    assert b.children == t.children + added;
    forall k: nat | k < |results| ensures (r.operation, k) in b.children && b.children[(r.operation, k)] == results[k] {
      assert (r.operation, k) in added;
    }
    forall key | key in b.children && key.0 == r.operation ensures key.1 < |results| {
      assert key !in t.children;
      assert key in added;
    }
  }

  // ---------------------------------------------------------------- theorems

  /** In every reachable state a stored result is success backed by a committed charge. */
  lemma ResultsMeanCommitment(t: Tables, operation: string)
    requires Reachable(t) && operation in t.operations && t.operations[operation].result.Some?
    ensures t.operations[operation].state == Succeeded && t.operations[operation].receipt.Some?
    ensures HasState(t, t.operations[operation].receipt.value.approval, operation, Committed)
  {
    PublicationReachable(t);
    assert ResultBacked(t, operation);
  }

  /**
    In every reachable state a child result belongs to a published batch, and its
    operation identifier names no other child of any batch.
  */
  lemma ChildrenNameOneResult(t: Tables, key: (string, nat), other: (string, nat))
    requires Reachable(t) && key in t.children && other in t.children
    ensures key.0 in t.operations && t.operations[key.0].isBatch && t.operations[key.0].result.Some?
    ensures t.children[key].operation == t.children[other].operation ==> key == other
  {
    PublicationReachable(t);
    var steps :| Run(EMPTY, steps) == t;
    DistinctRun(EMPTY, steps);
  }

  /** A published operation answers every later publication from what it stored. */
  lemma PublishedAnswers(t: Tables, later: Tables, r: SigningResult, approval: string, again: SigningResult)
    requires r.operation in t.operations && t.operations[r.operation].result == Some(r)
    requires OperationsExtend(t.operations, later.operations)
    requires again.operation == r.operation && PublishResult(later, approval, again).Ok?
    ensures again == r && PublishResult(later, approval, again).value == later
  {
    assert OperationExtends(t.operations[r.operation], later.operations[r.operation]);
  }

  /**
    Exactly once: after a result is published, every continuation still holds it
    with its committed charge, republishing it under its approval commits nothing
    new, and no other result is ever accepted for the operation.
  */
  lemma PublishedOnce(t: Tables, approval: string, r: SigningResult, more: seq<Step>, later: Tables)
    requires Reachable(t) && PublishResult(t, approval, r).Ok?
    requires later == Run(PublishResult(t, approval, r).value, more)
    ensures r.operation in later.operations
    ensures later.operations[r.operation].result == Some(r) && later.operations[r.operation].state == Succeeded
    ensures HasState(later, approval, r.operation, Committed)
    ensures PublishResult(later, approval, r) == Ok(later)
    ensures forall other: string, again: SigningResult ::
      again.operation == r.operation && PublishResult(later, other, again).Ok? ==>
        again == r && PublishResult(later, other, again).value == later
  {
    var first := PublishResult(t, approval, r).value;
    PublicationReachable(t);
    PublishCommits(t, approval, r);
    RunExtends(first, more);
    LaterAnswers(first, later, approval, r);
    forall other: string, again: SigningResult | again.operation == r.operation && PublishResult(later, other, again).Ok?
      ensures again == r && PublishResult(later, other, again).value == later
    {
      PublishedAnswers(first, later, r, other, again);
    }
  }

  lemma PublishCommits(t: Tables, approval: string, r: SigningResult)
    requires ResultsBacked(t) && PublishResult(t, approval, r).Ok?
    ensures var b := PublishResult(t, approval, r).value;
      && r.operation in b.operations && b.operations[r.operation].result == Some(r)
      && b.operations[r.operation].state == Succeeded && b.operations[r.operation].digest == r.digest
      && HasState(b, approval, r.operation, Committed)
  {
    assert ResultBacked(t, r.operation);
    if t.operations[r.operation].result.None? {
      PublishedBacked(t, approval, r);
    }
  }

  lemma LaterAnswers(first: Tables, later: Tables, approval: string, r: SigningResult)
    requires OperationsExtend(first.operations, later.operations)
    requires ReservationsExtend(first.reservations, later.reservations)
    requires r.operation in first.operations && first.operations[r.operation].result == Some(r)
    requires first.operations[r.operation].state == Succeeded && first.operations[r.operation].digest == r.digest
    requires HasState(first, approval, r.operation, Committed)
    ensures r.operation in later.operations && later.operations[r.operation].result == Some(r)
    ensures later.operations[r.operation].state == Succeeded
    ensures HasState(later, approval, r.operation, Committed)
    ensures PublishResult(later, approval, r) == Ok(later)
  {
    assert OperationExtends(first.operations[r.operation], later.operations[r.operation]);
    CommittedStays(first, later, approval, r.operation);
  }

  /** A published batch, as any later tables hold it: the result, its committed charge and its ordered children. */
  predicate HoldsBatch(t: Tables, approval: string, r: SigningResult, results: seq<SigningResult>)
  {
    && r.operation in t.operations
    && t.operations[r.operation].result == Some(r)
    && t.operations[r.operation].state == Succeeded
    && t.operations[r.operation].digest == r.digest
    && HasState(t, approval, r.operation, Committed)
    && Files(t.children, r.operation, results)
  }

  lemma BatchPublishes(t: Tables, approval: string, r: SigningResult, results: seq<SigningResult>, derived: seq<string>)
    requires ChildrenFiled(t) && PublishBatch(t, approval, r, results, derived).Ok?
    requires t.operations[r.operation].result.None?
    ensures HoldsBatch(PublishBatch(t, approval, r, results, derived).value, approval, r, results)
  {
    BatchFiles(t, approval, r, results, derived);
    PublishedBacked(t, approval, r);
  }

  lemma BatchHeld(first: Tables, later: Tables, approval: string, r: SigningResult, results: seq<SigningResult>)
    requires Extends(first, later) && HoldsBatch(first, approval, r, results)
    ensures HoldsBatch(later, approval, r, results)
  {
    assert OperationExtends(first.operations[r.operation], later.operations[r.operation]);
    CommittedStays(first, later, approval, r.operation);
    FilesCarry(first, later, r.operation, results);
  }

  /** A held batch answers its own republication and nothing else, by either publication. */
  lemma HeldBatchAnswers(t: Tables, approval: string, r: SigningResult, results: seq<SigningResult>)
    requires HoldsBatch(t, approval, r, results)
    ensures ChildrenFrom(t.children, r.operation, 0) == results
    ensures forall other: string, again: SigningResult, rs: seq<SigningResult>, d: seq<string> ::
      again.operation == r.operation && PublishBatch(t, other, again, rs, d).Ok? ==>
        again == r && rs == results && PublishBatch(t, other, again, rs, d).value == t
    ensures forall other: string, again: SigningResult ::
      again.operation == r.operation && PublishResult(t, other, again).Ok? ==>
        again == r && PublishResult(t, other, again).value == t
    ensures PublishResult(t, approval, r) == Ok(t)
  {
    ReadBack(t.children, r.operation, results, 0);
  }

  lemma HeldBatchReplays(t: Tables, approval: string, r: SigningResult, results: seq<SigningResult>, derived: seq<string>)
    requires HoldsBatch(t, approval, r, results)
    requires 1 <= |results| <= MAX_CHILDREN && |derived| == |results|
    requires forall k :: 0 <= k < |results| ==> results[k].operation == derived[k]
    ensures PublishBatch(t, approval, r, results, derived) == Ok(t)
  {
    ReadBack(t.children, r.operation, results, 0);
  }

  lemma BatchStaysHeld(
    t: Tables, approval: string, r: SigningResult, results: seq<SigningResult>, derived: seq<string>,
    more: seq<Step>, later: Tables)
    requires Reachable(t) && PublishBatch(t, approval, r, results, derived).Ok?
    requires t.operations[r.operation].result.None?
    requires later == Run(PublishBatch(t, approval, r, results, derived).value, more)
    ensures ChildrenFrom(t.children, r.operation, 0) == []
    ensures HoldsBatch(later, approval, r, results)
  {
    PublicationReachable(t);
    UnpublishedHasNone(t, r.operation);
    BatchPublishes(t, approval, r, results, derived);
    RunExtends(PublishBatch(t, approval, r, results, derived).value, more);
    BatchHeld(PublishBatch(t, approval, r, results, derived).value, later, approval, r, results);
  }

  /**
    A batch is published exactly once: in every continuation its result, its
    committed charge and its children in published order are held; republishing
    it commits nothing new; no other parent result or child list is ever accepted
    for the operation; and a single publication of the parent answers the same
    result and writes nothing. Before it there were no children at all.
  */
  lemma BatchPublishedOnce(
    t: Tables, approval: string, r: SigningResult, results: seq<SigningResult>, derived: seq<string>,
    more: seq<Step>, later: Tables)
    requires Reachable(t) && PublishBatch(t, approval, r, results, derived).Ok?
    requires t.operations[r.operation].result.None?
    requires later == Run(PublishBatch(t, approval, r, results, derived).value, more)
    ensures ChildrenFrom(t.children, r.operation, 0) == []
    ensures HoldsBatch(later, approval, r, results)
    ensures ChildrenFrom(later.children, r.operation, 0) == results
    ensures PublishBatch(later, approval, r, results, derived) == Ok(later)
    ensures forall other: string, again: SigningResult, rs: seq<SigningResult>, d: seq<string> ::
      again.operation == r.operation && PublishBatch(later, other, again, rs, d).Ok? ==>
        again == r && rs == results && PublishBatch(later, other, again, rs, d).value == later
    ensures PublishResult(later, approval, r) == Ok(later)
    ensures forall other: string, again: SigningResult ::
      again.operation == r.operation && PublishResult(later, other, again).Ok? ==>
        again == r && PublishResult(later, other, again).value == later
  {
    BatchStaysHeld(t, approval, r, results, derived, more, later);
    HeldBatchAnswers(later, approval, r, results);
    HeldBatchReplays(later, approval, r, results, derived);
  }

  /** A result published by itself is never accepted as a batch afterwards: it has no children to match. */
  lemma SingleIsNoBatch(t: Tables, approval: string, r: SigningResult, more: seq<Step>, later: Tables)
    requires Reachable(t) && PublishResult(t, approval, r).Ok? && t.operations[r.operation].result.None?
    requires later == Run(PublishResult(t, approval, r).value, more)
    ensures ChildrenFrom(later.children, r.operation, 0) == []
    ensures forall other: string, again: SigningResult, rs: seq<SigningResult>, d: seq<string> ::
      again.operation == r.operation ==> PublishBatch(later, other, again, rs, d).Err?
  {
    PublicationReachable(t);
    SingleHasNoChildren(t, approval, r);
    RunExtends(PublishResult(t, approval, r).value, more);
    ChildlessRefuses(PublishResult(t, approval, r).value, later, r.operation);
  }

  lemma ChildlessRefuses(first: Tables, later: Tables, parent: string)
    requires Extends(first, later) && Files(first.children, parent, [])
    requires parent in first.operations && first.operations[parent].result.Some?
    ensures ChildrenFrom(later.children, parent, 0) == []
    ensures forall other: string, again: SigningResult, rs: seq<SigningResult>, d: seq<string> ::
      again.operation == parent ==> PublishBatch(later, other, again, rs, d).Err?
  {
    FilesCarry(first, later, parent, []);
    ReadBack(later.children, parent, [], 0);
    assert OperationExtends(first.operations[parent], later.operations[parent]);
  }

  lemma SingleHasNoChildren(t: Tables, approval: string, r: SigningResult)
    requires ChildrenFiled(t) && PublishResult(t, approval, r).Ok? && t.operations[r.operation].result.None?
    ensures var b := PublishResult(t, approval, r).value;
      r.operation in b.operations && b.operations[r.operation].result.Some? && Files(b.children, r.operation, [])
  {
  }
}
