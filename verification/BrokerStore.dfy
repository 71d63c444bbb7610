/**
  The Broker's durable store as an object: one field per table, one method per
  mutation. A method either writes exactly what its transaction says and answers
  success, or writes nothing and answers the refusal; flows of several commits
  also say which transactions they ran.
*/
module BrokerStore {
  import opened Wrappers
  import opened Accounting
  import opened Budget
  import opened Tables
  import opened Revocation
  import opened Stops
  import T = Tables
  import Acceptance
  import Renewals

  /** One transaction: the answer is its verdict, and the tables move only on success. */
  predicate Commits(before: Tables, spec: Result<Tables>, r: Result<()>, after: Tables)
  {
    match spec
    case Ok(value) => r == Ok(()) && after == value
    case Err(code) => r == Err(code) && after == before
  }

  /** What a step of a run commits is reachable again. */
  lemma SpecReaches(before: Tables, step: Step, spec: Result<Tables>)
    requires Reachable(before) && Try(before, step) == spec
    ensures spec.Ok? ==> Reachable(spec.value)
  {
    StepReaches(before, step);
  }

  // ------------------------------------------------- loops of one transaction

  /** `approvals_for_key`: every record is read once. */
  method ApprovalsForKey(t: Tables, wallet: string, keyRef: string) returns (bound: set<string>)
    ensures bound == BoundApprovals(t, wallet, keyRef)
  {
    bound := {};
    var todo := t.approvals.Keys;
    while todo != {}
      invariant todo <= t.approvals.Keys
      invariant bound == set id | id in t.approvals.Keys - todo && BoundTo(t.approvals[id], wallet, keyRef)
      decreases |todo|
    {
      var id :| id in todo;
      if BoundTo(t.approvals[id], wallet, keyRef) {
        bound := bound + {id};
      }
      todo := todo - {id};
    }
  }

  /** A table with the target rows of a set of approvals, key by key. */
  ghost predicate HasTargets(
    attempts: map<(string, string), Mark>, operation: string, ids: set<string>, next: map<(string, string), Mark>)
  {
    && (forall key :: key in attempts ==> key in next && next[key] == attempts[key])
    && (forall key :: key in next && key !in attempts ==>
          key.0 == operation && key.1 in ids && next[key] == StopTarget(operation, key.1))
    && (forall id :: id in ids ==> (operation, id) !in attempts && (operation, id) in next)
  }

  lemma TargetsByKey(
    attempts: map<(string, string), Mark>, operation: string, ids: set<string>, next: map<(string, string), Mark>)
    requires HasTargets(attempts, operation, ids, next)
    ensures next == attempts + NewTargets(operation, ids)
  {
    var all := attempts + NewTargets(operation, ids);
    forall key ensures key in next <==> key in all {
      assert key in NewTargets(operation, ids) <==> key.0 == operation && key.1 in ids;
    }
  }

  /** The target rows of a new stop, inserted one at a time; a taken primary key refuses. */
  method InsertTargets(attempts: map<(string, string), Mark>, operation: string, bound: set<string>)
    returns (r: Option<map<(string, string), Mark>>)
    ensures r.Some? <==> forall id :: id in bound ==> (operation, id) !in attempts
    ensures r.Some? ==> r.value == attempts + NewTargets(operation, bound)
  {
    var todo, next := bound, attempts;
    while todo != {}
      invariant todo <= bound && HasTargets(attempts, operation, bound - todo, next)
      decreases |todo|
    {
      var id :| id in todo;
      if (operation, id) in next {
        return None;
      }
      next := next[(operation, id) := StopTarget(operation, id)];
      todo := todo - {id};
    }
    assert bound - todo == bound;
    TargetsByKey(attempts, operation, bound, next);
    return Some(next);
  }

  /** Pending ceremonies among the bound approvals fail, one at a time. */
  method FencePending(approvals: map<string, Approval>, bound: set<string>) returns (next: map<string, Approval>)
    requires bound <= approvals.Keys
    ensures next == Fence(approvals, bound)
  {
    var todo := bound;
    next := approvals;
    while todo != {}
      invariant todo <= bound && next == Fence(approvals, bound - todo)
      decreases |todo|
    {
      var id :| id in todo;
      if next[id].state == Prepared || next[id].state == AwaitingCeremony {
        next := next[id := next[id].(state := Failed)];
      }
      assert bound - (todo - {id}) == (bound - todo) + {id};
      todo := todo - {id};
    }
    assert bound - todo == bound;
  }

  /** No stored tombstone of the wallet is missing from the union or differs from it. */
  method UnionKeepsHistory(stored: map<string, Tombstone>, wallet: string, incoming: map<string, string>) returns (ok: bool)
    ensures ok <==> KeepsHistory(stored, wallet, incoming)
  {
    var todo := stored.Keys;
    while todo != {}
      invariant todo <= stored.Keys
      invariant forall id :: id in stored.Keys - todo && stored[id].wallet == wallet ==>
        id in incoming && incoming[id] == stored[id].text
      decreases |todo|
    {
      var id :| id in todo;
      if stored[id].wallet == wallet && (id !in incoming || incoming[id] != stored[id].text) {
        return false;
      }
      todo := todo - {id};
    }
    return true;
  }

  /** A table with some of the incoming tombstones, key by key. */
  ghost predicate HasTombstones(
    stored: map<string, Tombstone>, wallet: string, incoming: map<string, string>, ids: set<string>, next: map<string, Tombstone>)
  {
    && (forall id :: id in stored ==> id in next && next[id] == stored[id])
    && (forall id :: id in next && id !in stored ==> id in ids && id in incoming && next[id] == Tombstone(wallet, incoming[id]))
    && (forall id :: id in ids ==> id in next)
  }

  lemma TombstonesByKey(
    stored: map<string, Tombstone>, wallet: string, incoming: map<string, string>, next: map<string, Tombstone>)
    requires HasTombstones(stored, wallet, incoming, incoming.Keys, next)
    ensures next == (map id | id in incoming :: Tombstone(wallet, incoming[id])) + stored
  {
  }

  /** Each incoming tombstone is inserted, kept if already there, or refused if it differs. */
  method InsertTombstones(stored: map<string, Tombstone>, wallet: string, incoming: map<string, string>)
    returns (r: Option<map<string, Tombstone>>)
    ensures r.Some? <==> AgreesWith(stored, incoming)
    ensures r.Some? ==> r.value == (map id | id in incoming :: Tombstone(wallet, incoming[id])) + stored
  {
    var todo, next := incoming.Keys, stored;
    while todo != {}
      invariant todo <= incoming.Keys && HasTombstones(stored, wallet, incoming, incoming.Keys - todo, next)
      invariant forall id :: id in incoming.Keys - todo && id in stored ==> incoming[id] == stored[id].text
      decreases |todo|
    {
      var id :| id in todo;
      if id in stored {
        if incoming[id] != stored[id].text {
          return None;
        }
      } else {
        next := next[id := Tombstone(wallet, incoming[id])];
      }
      todo := todo - {id};
    }
    assert incoming.Keys - todo == incoming.Keys;
    TombstonesByKey(stored, wallet, incoming, next);
    return Some(next);
  }

  /** The reservation with the given primary key, by scanning the table. */
  method FindRow(rows: seq<Reservation>, approval: string, operation: string) returns (i: nat)
    ensures i == Find(rows, approval, operation)
  {
    i := 0;
    while i < |rows| && !(rows[i].approval == approval && rows[i].operation == operation)
      invariant i <= |rows|
      invariant Find(rows, approval, operation) == i + Find(rows[i..], approval, operation)
    {
      assert rows[i..][1..] == rows[i + 1..];
      i := i + 1;
    }
  }

  lemma ChildAppended(children: map<(string, nat), SigningResult>, parent: string, k: nat, results: seq<SigningResult>)
    requires k < MAX_CHILDREN
    ensures results + ChildrenFrom(children, parent, k)
         == (if (parent, k) in children then results + [children[(parent, k)]] else results) + ChildrenFrom(children, parent, k + 1)
  {
  }

  /** The rows of a parent from one ordinal on, in ordinal order. */
  method ReadChildren(children: map<(string, nat), SigningResult>, parent: string, first: nat)
    returns (results: seq<SigningResult>)
    requires first <= MAX_CHILDREN
    ensures results == ChildrenFrom(children, parent, first)
  {
    results := [];
    for k := first to MAX_CHILDREN
      invariant results + ChildrenFrom(children, parent, k) == ChildrenFrom(children, parent, first)
    {
      ChildAppended(children, parent, k, results);
      if (parent, k) in children {
        results := results + [children[(parent, k)]];
      }
    }
  }

  /** The first `n` of a batch's rows fit beside the stored ones and beside each other. */
  ghost predicate InsertableTo(t: Tables, parent: string, results: seq<SigningResult>, n: nat)
    requires n <= |results|
  {
    ChildrenInsertable(t, parent, results[..n])
  }

  /** Both unique keys of `batch_children` for one more row. */
  predicate RowFits(t: Tables, parent: string, results: seq<SigningResult>, n: nat)
    requires n < |results|
  {
    && (parent, n) !in t.children
    && (forall key :: key in t.children ==> t.children[key].operation != results[n].operation)
    && (forall j :: 0 <= j < n ==> results[j].operation != results[n].operation)
  }

  lemma InsertableGrows(t: Tables, parent: string, results: seq<SigningResult>, n: nat)
    requires n < |results| && InsertableTo(t, parent, results, n)
    ensures InsertableTo(t, parent, results, n + 1) <==> RowFits(t, parent, results, n)
    ensures !RowFits(t, parent, results, n) ==> !ChildrenInsertable(t, parent, results)
  {
    var front, more := results[..n], results[..n + 1];
    assert forall k :: 0 <= k < n ==> more[k] == front[k] == results[k];
    assert more[n] == results[n];
  }

  /** A table with the first `n` rows of a batch, key by key. */
  ghost predicate HasChildren(
    stored: map<(string, nat), SigningResult>, parent: string, results: seq<SigningResult>, n: nat,
    next: map<(string, nat), SigningResult>)
    requires n <= |results|
  {
    && (forall key :: key in stored ==> key in next && next[key] == stored[key])
    && (forall key :: key in next && key !in stored ==> key.0 == parent && key.1 < n && next[key] == results[key.1])
    && (forall k: nat :: k < n ==> (parent, k) !in stored && (parent, k) in next)
  }

  lemma ChildrenByKey(
    stored: map<(string, nat), SigningResult>, parent: string, results: seq<SigningResult>,
    next: map<(string, nat), SigningResult>)
    requires HasChildren(stored, parent, results, |results|, next)
    ensures next == stored + NewChildren(parent, results)
  {
    var all := stored + NewChildren(parent, results);
    forall key ensures key in next <==> key in all {
      assert key in NewChildren(parent, results) <==> key.0 == parent && key.1 < |results|;
    }
  }

  /** The child rows of a batch, inserted in ordinal order; a taken key refuses. */
  method InsertChildren(t: Tables, parent: string, results: seq<SigningResult>)
    returns (r: Option<map<(string, nat), SigningResult>>)
    ensures r.Some? <==> ChildrenInsertable(t, parent, results)
    ensures r.Some? ==> r.value == t.children + NewChildren(parent, results)
  {
    var next: map<(string, nat), SigningResult> := t.children;
    for n := 0 to |results|
      invariant InsertableTo(t, parent, results, n) && HasChildren(t.children, parent, results, n, next)
    {
      InsertableGrows(t, parent, results, n);
      if !RowFits(t, parent, results, n) {
        return None;
      }
      next := next[(parent, n) := results[n]];
    }
    assert results[..|results|] == results;
    ChildrenByKey(t.children, parent, results, next);
    return Some(next);
  }

  // ------------------------------------------------------------ sweeps

  /** What stopping does to one record. */
  function StopRow(a: Approval): Approval
  {
    if StopState(a.state).Some? then a.(state := StopState(a.state).value) else a
  }

  /** Every named record stopped. */
  function StopAll(approvals: map<string, Approval>, ids: set<string>): map<string, Approval>
  {
    map id | id in approvals :: if id in ids then StopRow(approvals[id]) else approvals[id]
  }

  /** The records of a wallet left behind by an epoch. */
  function Older(approvals: map<string, Approval>, wallet: string, epoch: nat): set<string>
  {
    set id | id in approvals && approvals[id].terms.wallet == wallet && approvals[id].terms.epoch < epoch
  }

  /** The records of a wallet left behind by an epoch, by reading every record once. */
  method CollectOlder(approvals: map<string, Approval>, wallet: string, epoch: nat) returns (ids: set<string>)
    ensures ids == Older(approvals, wallet, epoch)
  {
    ids := {};
    var todo := approvals.Keys;
    while todo != {}
      invariant todo <= approvals.Keys
      invariant ids == set id | id in approvals.Keys - todo && approvals[id].terms.wallet == wallet && approvals[id].terms.epoch < epoch
      decreases |todo|
    {
      var id :| id in todo;
      if approvals[id].terms.wallet == wallet && approvals[id].terms.epoch < epoch {
        ids := ids + {id};
      }
      todo := todo - {id};
    }
  }

  lemma StopOneMore(approvals: map<string, Approval>, done: set<string>, id: string)
    requires id !in done
    ensures StopAll(approvals, done + {id})
         == if id in approvals then StopAll(approvals, done)[id := StopRow(approvals[id])] else StopAll(approvals, done)
  {
  }

  lemma StopWritesRow(t: Tables, id: string)
    ensures T.StopApproval(t, id)
         == Ok(if id in t.approvals then t.(approvals := t.approvals[id := StopRow(t.approvals[id])]) else t)
  {
    if id in t.approvals && StopState(t.approvals[id].state).None? {
      assert t.approvals[id := t.approvals[id]] == t.approvals;
    }
  }

  /** With everything older stopped, what is still live carries the current epoch. */
  lemma SweptIsCurrent(t: Tables, wallet: string, epoch: nat)
    requires EpochsBound(t) && EpochOf(t, wallet).value == epoch
    ensures WalletCurrent(t.(approvals := StopAll(t.approvals, Older(t.approvals, wallet, epoch))), wallet, epoch)
  {
  }

  /** The tables after the epochs are compared and, if the Signer is ahead, everything older is stopped. */
  function Settled(t: Tables, wallet: string, signer: U64): Tables
  {
    var b := ReconcileEpoch(t, wallet, signer).value;
    if ReconcileOutcome(t, wallet, signer) == AdoptedSignerEpoch
    then b.(approvals := StopAll(b.approvals, Older(b.approvals, wallet, signer)))
    else b
  }

  /** The tables a reconciliation leaves, once its tombstones are stored. */
  function Reconciled(t: Tables, wallet: string, signer: U64, ids: set<string>): Tables
  {
    Settled(t.(approvals := StopAll(t.approvals, ids)), wallet, signer)
  }

  lemma TombstonesStored(t: Tables, wallet: string, incoming: map<string, string>)
    requires StoreTombstones(t, wallet, incoming).Ok?
    ensures var b := StoreTombstones(t, wallet, incoming).value;
      && b == t.(tombstones := b.tombstones)
      && forall id :: id in incoming ==> id in b.tombstones && b.tombstones[id].text == incoming[id]
  {
    var b := StoreTombstones(t, wallet, incoming).value;
    assert b == t.(tombstones := b.tombstones);
    forall id | id in incoming ensures id in b.tombstones && b.tombstones[id].text == incoming[id] {
      if id in t.tombstones {
        assert incoming[id] == t.tombstones[id].text;
      }
    }
  }

  lemma SettlingMeans(t: Tables, wallet: string, signer: U64)
    requires EpochsBound(t)
    ensures var b, local := Settled(t, wallet, signer), EpochOf(t, wallet).value;
      && b.tombstones == t.tombstones
      && EpochOf(b, wallet) == (if signer < local then Epoch(local, false) else Epoch(signer, true))
      && (signer > local ==> WalletCurrent(b, wallet, signer))
      && (b.approvals == t.approvals || b.approvals == StopAll(t.approvals, Older(t.approvals, wallet, signer)))
  {
    if signer > EpochOf(t, wallet).value {
      SweptIsCurrent(ReconcileEpoch(t, wallet, signer).value, wallet, signer);
    }
  }

  lemma StoppedKeepsEpochs(t: Tables, ids: set<string>)
    requires EpochsBound(t)
    ensures EpochsBound(t.(approvals := StopAll(t.approvals, ids)))
  {
  }

  /**
    What a completed reconciliation means: everything the Signer's union names is
    tombstoned and no longer live, the wallet's epoch is the larger of the two and
    is reconciled exactly when the Signer was not behind, and after adopting the
    Signer's epoch every live approval of the wallet carries it.
  */
  lemma ReconciliationMeans(t: Tables, wallet: string, signer: U64, incoming: map<string, string>, after: Tables)
    requires EpochsBound(t) && StoreTombstones(t, wallet, incoming).Ok?
    requires after == Reconciled(StoreTombstones(t, wallet, incoming).value, wallet, signer, incoming.Keys)
    ensures forall id :: id in incoming ==> id in after.tombstones && after.tombstones[id].text == incoming[id]
    ensures forall id :: id in incoming && id in after.approvals ==> !Live(after.approvals[id].state)
    ensures var local := EpochOf(t, wallet).value;
      EpochOf(after, wallet) == if signer < local then Epoch(local, false) else Epoch(signer, true)
    ensures signer > EpochOf(t, wallet).value ==> WalletCurrent(after, wallet, signer)
  {
    TombstonesStored(t, wallet, incoming);
    var stored := StoreTombstones(t, wallet, incoming).value;
    var stopped := stored.(approvals := StopAll(stored.approvals, incoming.Keys));
    StoppedKeepsEpochs(stored, incoming.Keys);
    SettlingMeans(stopped, wallet, signer);
    SettledDead(stopped.approvals, stored.approvals, after.approvals, incoming.Keys, Older(stopped.approvals, wallet, signer));
  }

  lemma SettledDead(
    stopped: map<string, Approval>, stored: map<string, Approval>, after: map<string, Approval>, ids: set<string>, older: set<string>)
    requires stopped == StopAll(stored, ids) && (after == stopped || after == StopAll(stopped, older))
    ensures forall id :: id in ids && id in after ==> !Live(after[id].state)
  {
    StoppedRowsAreDead(stored, ids);
    StoppedStaysDead(stopped, older);
  }

  lemma StoppedRowsAreDead(approvals: map<string, Approval>, ids: set<string>)
    ensures forall id :: id in ids && id in approvals ==> !Live(StopAll(approvals, ids)[id].state)
  {
  }

  lemma StoppedStaysDead(approvals: map<string, Approval>, ids: set<string>)
    ensures forall id :: id in approvals && !Live(approvals[id].state) ==> !Live(StopAll(approvals, ids)[id].state)
  {
  }

  /** The reservation a request asks for, its values accounted from its claim. */
  method DeclareCharge(limits: ApprovalLimits, q: AuthorizeRequest) returns (r: Result<ReservationRequest>)
    ensures r == ChargeOf(limits, q)
  {
    var values: Result<map<string, nat>> := Ok(map[]);
    if q.claim.Claim? {
      values := AccountDeclaredValues(limits.values, q.claim.debits, q.claim.expected, q.claim.fee);
    }
    if values.Err? { return Err(values.code); }
    return Ok(ReservationRequest(q.approval, q.operation, q.digest, q.signatures, q.at, values.value));
  }

  class Store {
    var approvals: map<string, Approval>
    var rows: nat
    var operations: map<string, Operation>
    var attempts: map<(string, string), Mark>
    var children: map<(string, nat), SigningResult>
    var reservations: seq<Reservation>
    var clock: Option<Clock>
    var stops: map<(string, string), string>
    var tombstones: map<string, Tombstone>
    var epochs: map<string, Epoch>

    function Db(): Tables
      reads this
    {
      T.Tables(approvals, rows, operations, attempts, children, reservations, clock, stops, tombstones, epochs)
    }

    /** The tables are the outcome of some run of transactions. */
    ghost predicate Valid()
      reads this
    {
      Reachable(Db())
    }

    constructor ()
      ensures Valid() && Db() == EMPTY
    {
      approvals, rows, operations, attempts, children := map[], 0, map[], map[], map[];
      reservations, clock, stops, tombstones, epochs := [], None, map[], map[], map[];
      new;
      assert Run(EMPTY, []) == Db();
    }

    // ------------------------------------------------------------ approvals

    /** `prepare_approval_with_claim`. */
    method PrepareApproval(q: PrepareRequest) returns (r: Result<()>)
      requires Valid()
      modifies this`approvals, this`rows
      ensures Valid() && Commits(old(Db()), T.PrepareApproval(old(Db()), q), r, Db())
      ensures r.Ok? <==> Acceptance.Preparable(old(Db()), q)
    {
      Acceptance.PrepareExact(Db(), q);
      SpecReaches(Db(), Prepare(q), T.PrepareApproval(Db(), q));
      r := InsertApproval(q);
    }

    /** The transaction itself: the gate in order, then the row. */
    method InsertApproval(q: PrepareRequest) returns (r: Result<()>)
      modifies this`approvals, this`rows
      ensures Commits(old(Db()), T.PrepareApproval(old(Db()), q), r, Db())
    {
      if !q.termsValid || !ValidLimits(q.terms.limits) { return Err(ApprovalInvalid); }
      if q.terms.selector == Petal && (q.terms.wallet, q.terms.keyRef) in stops { return Err(KeyStopped); }
      if !q.policyEnabled { return Err(PolicyRefused); }
      if q.id in approvals {
        var a := approvals[q.id];
        if a.terms != q.terms || a.review != q.review || a.claim != q.claim { return Err(OperationIdConflict); }
        return Ok(());
      }
      if q.id in tombstones { return Err(ApprovalRevoked); }
      if !q.policyMatches { return Err(PolicyRefused); }
      var epoch := if q.terms.wallet in epochs then epochs[q.terms.wallet] else Epoch(0, false);
      if !epoch.reconciled || q.terms.epoch != epoch.value { return Err(EpochUnreconciled); }
      if !q.provenanceMatches { return Err(PolicyRefused); }
      if q.terms.renewalOf.Some? {
        var p := q.terms.renewalOf.value;
        if p !in approvals { return Err(ApprovalNotFound); }
        if approvals[p].terms.wallet != q.terms.wallet || approvals[p].state != Active {
          return Err(RenewalPredecessorInvalid);
        }
      }
      approvals := approvals[q.id := Approval(rows, q.terms, q.review, q.claim, AwaitingCeremony, None, None)];
      rows := rows + 1;
      return Ok(());
    }

    /** `activate_approval` and `activate_signer_receipt`: gate, then the compare-and-set that also revokes a predecessor. */
    method ActivateApproval(q: ActivateRequest) returns (r: Result<()>)
      requires Valid()
      modifies this`approvals
      ensures Valid() && Commits(old(Db()), T.ActivateApproval(old(Db()), q), r, Db())
      ensures r.Ok? <==> Acceptance.Activatable(old(Db()), q)
    {
      Acceptance.ActivateExact(Db(), q);
      SpecReaches(Db(), Activate(q), T.ActivateApproval(Db(), q));
      if !q.authentic { return Err(CeremonyGrantInvalid); }
      if q.id !in approvals { return Err(ApprovalNotFound); }
      if q.id in tombstones { return Err(ApprovalRevoked); }
      var terms := approvals[q.id].terms;
      if q.path == CeremonyGrant && terms.selector == Petal && (terms.wallet, terms.keyRef) in stops {
        return Err(KeyStopped);
      }
      if !q.policyEnabled { return Err(PolicyRefused); }
      var epoch := if terms.wallet in epochs then epochs[terms.wallet] else Epoch(0, false);
      if !epoch.reconciled || epoch.value != terms.epoch { return Err(EpochUnreconciled); }
      if !q.bindingMatches { return Err(CeremonyGrantMismatch); }
      r := ActivateRecord(q.id, q.operation, q.grant);
    }

    /** `activate_approval_record`. */
    method ActivateRecord(id: string, operation: string, grant: string) returns (r: Result<()>)
      modifies this`approvals
      ensures Commits(old(Db()), T.ActivateRecord(old(Db()), id, operation, grant), r, Db())
    {
      if id !in approvals { return Err(ApprovalNotFound); }
      var a := approvals[id];
      if a.activationOp.Some? {
        if a.activationOp.value != operation || a.state != Active { return Err(OperationIdConflict); }
        return Ok(());
      }
      if a.state != AwaitingCeremony { return Err(OperationIdConflict); }
      var next := approvals;
      if a.terms.renewalOf.Some? {
        var p := a.terms.renewalOf.value;
        if p !in next { return Err(ApprovalNotFound); }
        if next[p].state != Active { return Err(OperationIdConflict); }
        next := next[p := next[p].(state := Revoked)];
      }
      // UNIQUE (activation_operation_id)
      if exists o :: o in next && next[o].activationOp == Some(operation) { return Err(Storage); }
      approvals := next[id := a.(state := Active, activationOp := Some(operation), grant := Some(grant))];
      return Ok(());
    }

    /** `stop_approval`, which cannot fail: every transition it asks for is allowed. */
    method StopApproval(id: string)
      requires Valid()
      modifies this`approvals
      ensures Valid() && T.StopApproval(old(Db()), id) == Ok(Db())
    {
      SpecReaches(Db(), Stop(id), T.StopApproval(Db(), id));
      if id in approvals && StopState(approvals[id].state).Some? {
        approvals := approvals[id := approvals[id].(state := StopState(approvals[id].state).value)];
      }
    }

    /** `transition_approval`; the Broker asks it only to retire authority, and then the store stays reachable. */
    method TransitionApproval(id: string, next: ApprovalState) returns (r: Result<()>)
      requires Valid()
      modifies this`approvals
      ensures Commits(old(Db()), T.TransitionApproval(old(Db()), id, next), r, Db())
      ensures Retiring(next) || r.Err? ==> Valid()
    {
      if Retiring(next) {
        SpecReaches(Db(), Retire(id, next), T.TransitionApproval(Db(), id, next));
      }
      if id !in approvals { return Err(ApprovalNotFound); }
      if !ValidApprovalTransition(approvals[id].state, next) { return Err(OperationIdConflict); }
      approvals := approvals[id := approvals[id].(state := next)];
      return Ok(());
    }

    // ---------------------------------------------------------- by-key stops

    /** `key_revocation_targets`: nothing for a fresh identifier, a refusal for a reused one, else the sorted list. */
    method KeyRevocationTargets(operation: string, parameters: string) returns (r: Result<Option<seq<Target>>>)
      ensures r.Err? <==>
        (operation in operations
         && (operations[operation].kind != KeyRevocation || operations[operation].digest != parameters))
      ensures r.Err? ==> r.code == OperationIdConflict
      ensures r.Ok? ==> (r.value.Some? <==> operation in operations)
      ensures r.Ok? && r.value.Some? ==> Lists(r.value.value, StopTargets(Db(), operation))
    {
      if operation !in operations { return Ok(None); }
      var o := operations[operation];
      if o.kind != KeyRevocation || o.digest != parameters { return Err(OperationIdConflict); }
      var list := ListTargets(StopTargets(Db(), operation));
      return Ok(Some(list));
    }

    /** `admit_key_revocation`: a replay writes nothing; a first admission writes all four tables at once. */
    method AdmitKeyRevocation(q: StopRequest) returns (r: Result<()>)
      requires Valid()
      modifies this`operations, this`attempts, this`stops, this`approvals
      ensures Valid() && Commits(old(Db()), AdmitStop(old(Db()), q), r, Db())
    {
      SpecReaches(Db(), AdmitKeyStop(q), AdmitStop(Db(), q));
      r := InsertStop(q);
    }

    /** The transaction itself: a replay is recognised first. */
    method InsertStop(q: StopRequest) returns (r: Result<()>)
      modifies this`operations, this`attempts, this`stops, this`approvals
      ensures Commits(old(Db()), AdmitStop(old(Db()), q), r, Db())
    {
      var replay := KeyRevocationTargets(q.operation, q.parameters);
      if replay.Err? { return Err(replay.code); }
      if replay.value.Some? { return Ok(()); }
      if q.stoppedAtMs > I64_MAX { return Err(Storage); }
      var bound := ApprovalsForKey(Db(), q.wallet, q.keyRef);
      var inserted := InsertTargets(attempts, q.operation, bound);
      if inserted.None? { return Err(Storage); }
      var fenced := FencePending(approvals, bound);
      operations := operations[q.operation :=
        Operation(q.parameters, q.parameters, Received, false, None, None, KeyRevocation)];
      attempts, stops, approvals := inserted.value, stops[(q.wallet, q.keyRef) := q.operation], fenced;
      return Ok(());
    }

    /** `complete_key_revocation`; the service passes the stop it has just admitted, and then the store stays reachable. */
    method CompleteKeyRevocation(operation: string)
      requires Valid()
      modifies this`operations
      ensures CompleteStop(old(Db()), operation) == Ok(Db())
      ensures (operation in operations ==> operations[operation].kind == KeyRevocation) || Db() == old(Db()) ==> Valid()
    {
      if operation in operations && operations[operation].kind == KeyRevocation {
        SpecReaches(Db(), CompleteKeyStop(operation), CompleteStop(Db(), operation));
      }
      if operation in operations && operations[operation].state == Received {
        operations := operations[operation := operations[operation].(state := Succeeded)];
      }
    }

    // -------------------------------------------------------------- policies

    /** The epoch row a first policy installation creates. */
    method InstallPolicy(wallet: string)
      requires Valid()
      modifies this`epochs
      ensures Valid() && T.InstallPolicy(old(Db()), wallet) == Ok(Db())
    {
      SpecReaches(Db(), Install(wallet), T.InstallPolicy(Db(), wallet));
      if wallet !in epochs {
        epochs := epochs[wallet := Epoch(0, true)];
      }
    }

    // ------------------------------------------------- epochs and tombstones

    /** `store_signer_tombstones`. */
    method StoreSignerTombstones(wallet: string, incoming: map<string, string>) returns (r: Result<()>)
      requires Valid()
      modifies this`tombstones
      ensures Valid() && Commits(old(Db()), StoreTombstones(old(Db()), wallet, incoming), r, Db())
    {
      SpecReaches(Db(), Tombstones(wallet, incoming), StoreTombstones(Db(), wallet, incoming));
      r := InsertUnion(wallet, incoming);
    }

    /** The transaction itself. */
    method InsertUnion(wallet: string, incoming: map<string, string>) returns (r: Result<()>)
      modifies this`tombstones
      ensures Commits(old(Db()), StoreTombstones(old(Db()), wallet, incoming), r, Db())
    {
      var kept := UnionKeepsHistory(tombstones, wallet, incoming);
      if !kept { return Err(RevocationStateInvalid); }
      var next := InsertTombstones(tombstones, wallet, incoming);
      if next.None? { return Err(RevocationStateInvalid); }
      tombstones := next.value;
      return Ok(());
    }

    /** Several calls of `stop_approval`, each its own commit. */
    method StopEach(ids: set<string>)
      requires Valid()
      modifies this`approvals
      ensures Valid()
      ensures approvals == StopAll(old(approvals), ids)
    {
      var todo := ids;
      assert StopAll(approvals, {}) == approvals && ids - todo == {};
      while todo != {}
        invariant Valid() && todo <= ids && approvals == StopAll(old(approvals), ids - todo)
        decreases |todo|
      {
        var id :| id in todo;
        ghost var before := Db();
        StopApproval(id);
        StopWritesRow(before, id);
        StopOneMore(old(approvals), ids - todo, id);
        assert ids - (todo - {id}) == (ids - todo) + {id};
        todo := todo - {id};
      }
      assert ids - todo == ids;
    }

    /** `revoke_older_approvals`. */
    method RevokeOlderApprovals(wallet: string, epoch: nat)
      requires Valid()
      modifies this`approvals
      ensures Valid()
      ensures approvals == StopAll(old(approvals), Older(old(approvals), wallet, epoch))
    {
      var ids := CollectOlder(approvals, wallet, epoch);
      StopEach(ids);
    }

    /** `advance_local_epoch`: the epoch commit, then one commit per approval left behind. */
    method AdvanceLocalEpoch(wallet: string, expected: U64, next: U64) returns (r: Result<()>)
      requires Valid()
      modifies this`epochs, this`approvals
      ensures Valid()
      ensures match AdvanceEpoch(old(Db()), wallet, expected, next)
        case Err(code) => r == Err(code) && Db() == old(Db())
        case Ok(t) =>
          && r == Ok(())
          && Db() == t.(approvals := StopAll(t.approvals, Older(t.approvals, wallet, next)))
          && WalletCurrent(Db(), wallet, next)
    {
      r := AdvanceEpochRow(wallet, expected, next);
      if r.Ok? {
        EpochReachable(Db());
        SweptIsCurrent(Db(), wallet, next);
        RevokeOlderApprovals(wallet, next);
      }
    }

    method AdvanceEpochRow(wallet: string, expected: U64, next: U64) returns (r: Result<()>)
      requires Valid()
      modifies this`epochs
      ensures Valid() && Commits(old(Db()), AdvanceEpoch(old(Db()), wallet, expected, next), r, Db())
    {
      SpecReaches(Db(), Advance(wallet, expected, next), AdvanceEpoch(Db(), wallet, expected, next));
      if next <= expected { return Err(EpochRollback); }
      if wallet !in epochs { return Err(PolicyNotFound); }
      if epochs[wallet].value != expected { return Err(EpochStale); }
      epochs := epochs[wallet := Epoch(next, false)];
      return Ok(());
    }

    /** The comparison and the epoch commit of `reconcile_revocation`. */
    method ReconcileEpochRow(wallet: string, signer: U64) returns (o: Reconciliation)
      requires Valid()
      modifies this`epochs
      ensures Valid() && o == ReconcileOutcome(old(Db()), wallet, signer)
      ensures ReconcileEpoch(old(Db()), wallet, signer) == Ok(Db())
    {
      SpecReaches(Db(), Reconcile(wallet, signer), ReconcileEpoch(Db(), wallet, signer));
      o := WriteEpoch(wallet, signer);
    }

    /** The transaction itself. */
    method WriteEpoch(wallet: string, signer: U64) returns (o: Reconciliation)
      modifies this`epochs
      ensures o == ReconcileOutcome(old(Db()), wallet, signer)
      ensures ReconcileEpoch(old(Db()), wallet, signer) == Ok(Db())
    {
      var local := if wallet in epochs then epochs[wallet].value else 0;
      if signer < local {
        epochs := epochs[wallet := Epoch(local, false)];
        return PushLocalEpoch;
      }
      if signer == local {
        epochs := epochs[wallet := Epoch(local, true)];
        return Converged;
      }
      epochs := epochs[wallet := Epoch(signer, true)];
      return AdoptedSignerEpoch;
    }

    /** The epoch half of `reconcile_revocation`, with the sweep an adopted epoch brings. */
    method SettleEpoch(wallet: string, signer: U64) returns (o: Reconciliation)
      requires Valid()
      modifies this`epochs, this`approvals
      ensures Valid()
      ensures o == ReconcileOutcome(old(Db()), wallet, signer) && Db() == Settled(old(Db()), wallet, signer)
    {
      o := ReconcileEpochRow(wallet, signer);
      if o == AdoptedSignerEpoch {
        RevokeOlderApprovals(wallet, signer);
      }
    }

    /**
      `reconcile_revocation`: the union is stored, everything it names is stopped,
      the epochs are reconciled and, when the Signer is ahead, everything older is
      stopped; each of these is a commit of its own.
    */
    method ReconcileRevocation(wallet: string, signer: U64, incoming: map<string, string>, authentic: bool)
      returns (r: Result<Reconciliation>)
      requires Valid()
      modifies this`tombstones, this`approvals, this`epochs
      ensures Valid()
      ensures match StoreTombstones(old(Db()), wallet, incoming)
        case Err(_) => r == Err(RevocationStateInvalid) && Db() == old(Db())
        case Ok(t) =>
          if !authentic then r == Err(RevocationStateInvalid) && Db() == old(Db())
          else r == Ok(ReconcileOutcome(old(Db()), wallet, signer)) && Db() == Reconciled(t, wallet, signer, incoming.Keys)
    {
      if !authentic { return Err(RevocationStateInvalid); }
      var stored := StoreSignerTombstones(wallet, incoming);
      if stored.Err? { return Err(stored.code); }
      StopEach(incoming.Keys);
      var outcome := SettleEpoch(wallet, signer);
      return Ok(outcome);
    }

    // -------------------------------------------------------------- operations

    /** `begin_sign_attempt`. */
    method BeginSignAttempt(q: AttemptRequest) returns (r: Result<()>)
      requires Valid()
      modifies this`operations, this`attempts
      ensures Valid() && Commits(old(Db()), BeginAttempt(old(Db()), q), r, Db())
    {
      SpecReaches(Db(), Attempt(q), BeginAttempt(Db(), q));
      r := InsertAttempt(q);
    }

    /** The transaction itself: operation row, then attempt row. */
    method InsertAttempt(q: AttemptRequest) returns (r: Result<()>)
      modifies this`operations, this`attempts
      ensures Commits(old(Db()), BeginAttempt(old(Db()), q), r, Db())
    {
      if !q.digestsMatch || q.receipt.operationDigest != q.digest { return Err(OperationIdConflict); }
      var next := operations;
      if q.operation in operations {
        var o := operations[q.operation];
        if o.digest != q.digest || o.isBatch != q.isBatch || o.binding != q.binding { return Err(OperationIdConflict); }
        if o.receipt.None? { return Err(Storage); }
        if o.receipt.value != q.receipt { return Err(OperationIdConflict); }
      } else {
        next := next[q.operation := Operation(q.digest, q.binding, Received, q.isBatch, None, Some(q.receipt), Signing)];
      }
      var key := (q.operation, q.attempt);
      if key in attempts && attempts[key] != SignAttempt(q.attemptDigest) { return Err(OperationIdConflict); }
      operations, attempts := next, RecordAttempt(attempts, q);
      return Ok(());
    }

    /** `transition_operation`. */
    method TransitionOperation(operation: string, next: OperationState) returns (r: Result<()>)
      requires Valid()
      modifies this`operations
      ensures Valid() && Commits(old(Db()), T.TransitionOperation(old(Db()), operation, next), r, Db())
    {
      SpecReaches(Db(), MoveOperation(operation, next), T.TransitionOperation(Db(), operation, next));
      if operation !in operations { return Err(ApprovalNotFound); }
      var o := operations[operation];
      if o.kind == KeyRevocation { return Err(OperationIdConflict); }
      if o.result.Some? || !ValidOperationTransition(o.state, next) { return Err(OperationIdConflict); }
      operations := operations[operation := o.(state := next)];
      return Ok(());
    }

    // -------------------------------------------------------------- the ledger

    /** `reserve_for_clock_profile` under the durable clock. */
    method Reserve(q: ReservationRequest, limits: BudgetLimits) returns (r: Result<()>)
      requires Ends(approvals, q.approval)
      modifies this`reservations
      ensures Commits(old(Db()), T.Reserve(old(Db()), q, limits), r, Db())
      ensures r.Ok? <==> Acceptance.Chargeable(old(Db()), q, limits)
    {
      Acceptance.ReserveExact(Db(), q, limits);
      if q.signatures == 0 { return Err(BackendInvalidRequest); }
      if q.approval !in approvals || approvals[q.approval].state != Active { return Err(ApprovalRevoked); }
      var trusted := limits.rateLimits != [] || limits.rollingValueLimits != [];
      r := ClockCheck(clock, q.at, trusted);
      if r.Err? { return; }
      var i := FindRow(reservations, q.approval, q.operation);
      if i < |reservations| {
        if reservations[i].state != Reserved || !Matches(reservations[i], q) { return Err(OperationIdConflict); }
        return Ok(());
      }
      var ids := Renewals.LineageQuery(approvals, q.approval);
      r := CheckLimits(reservations, ids, q, limits);
      if r.Err? { return; }
      reservations := reservations + [RowOf(q)];
      return Ok(());
    }

    /** The gate of `authorize_for_clock_profile`, in the source's order. */
    method PassGate(q: AuthorizeRequest) returns (r: Result<ApprovalLimits>)
      ensures r == T.Gate(Db(), q)
      ensures r.Ok? <==> Acceptance.Entitled(Db(), q)
    {
      Acceptance.GateExact(Db(), q);
      if q.approval !in approvals { return Err(ApprovalNotFound); }
      var a := approvals[q.approval];
      if q.approval in tombstones { return Err(ApprovalRevoked); }
      if a.state != Active { return Err(ApprovalInactive); }
      if q.at < a.terms.notBeforeMs || q.at > a.terms.expiresAtMs { return Err(ApprovalOutsideValidity); }
      if !q.requestMatches { return Err(ClaimRefused); }
      if !q.policyMatches { return Err(PolicyRefused); }
      var epoch := if a.terms.wallet in epochs then epochs[a.terms.wallet] else Epoch(0, false);
      if !epoch.reconciled || epoch.value != a.terms.epoch { return Err(ApprovalRevoked); }
      if !q.claimMatches { return Err(ClaimRefused); }
      return Ok(a.terms.limits);
    }

    /** `authorize_for_clock_profile`: the gate, what the claim charges, its identity, then the reservation. */
    method Authorize(q: AuthorizeRequest) returns (r: Result<()>)
      requires Valid()
      modifies this`reservations
      ensures Valid() && Commits(old(Db()), T.Authorize(old(Db()), q), r, Db())
      ensures r.Ok? <==> Acceptance.Authorizable(old(Db()), q)
    {
      Acceptance.AuthorizeExact(Db(), q);
      SpecReaches(Db(), Spend(q), T.Authorize(Db(), q));
      Renewals.LineageEndsWhenReachable(Db(), q.approval);
      r := Charge(q);
    }

    /** The transaction itself. */
    method Charge(q: AuthorizeRequest) returns (r: Result<()>)
      requires Ends(approvals, q.approval)
      modifies this`reservations
      ensures Commits(old(Db()), T.Authorize(old(Db()), q), r, Db())
    {
      var gate := PassGate(q);
      if gate.Err? { return Err(gate.code); }
      var charge := DeclareCharge(gate.value, q);
      if charge.Err? { return Err(charge.code); }
      if !q.approvedClaim { return Err(ClaimRefused); }
      if !q.identityMatches { return Err(OperationIdConflict); }
      var limits := BudgetLimitsFor(gate.value);
      r := Reserve(charge.value, limits);
    }

    /** `finalize_reservation`. */
    method FinalizeReservation(approval: string, operation: string, next: ReservationState) returns (r: Result<()>)
      requires Valid()
      modifies this`reservations
      ensures Valid() && Commits(old(Db()), T.FinalizeReservation(old(Db()), approval, operation, next), r, Db())
    {
      SpecReaches(Db(), Finalize(approval, operation, next), T.FinalizeReservation(Db(), approval, operation, next));
      r := SettleRow(approval, operation, next);
    }

    /** The transaction itself. */
    method SettleRow(approval: string, operation: string, next: ReservationState) returns (r: Result<()>)
      modifies this`reservations
      ensures Commits(old(Db()), T.FinalizeReservation(old(Db()), approval, operation, next), r, Db())
    {
      if next == Reserved { return Err(BackendInvalidRequest); }
      var i := FindRow(reservations, approval, operation);
      if i == |reservations| { return Err(OperationIdConflict); }
      if reservations[i].state == Reserved {
        reservations := reservations[i := reservations[i].(state := next)];
        return Ok(());
      }
      if reservations[i].state != next { return Err(OperationIdConflict); }
      return Ok(());
    }

    /** The reservation of an operation, if it stands in the given state. */
    method FindInState(approval: string, operation: string, state: ReservationState) returns (i: nat, found: bool)
      ensures i == Find(reservations, approval, operation)
      ensures found <==> HasState(Db(), approval, operation, state)
    {
      i := FindRow(reservations, approval, operation);
      found := i < |reservations| && reservations[i].state == state;
    }

    /** `batch_children`. */
    method BatchChildren(parent: string) returns (results: seq<SigningResult>)
      ensures results == ChildrenFrom(children, parent, 0)
    {
      results := ReadChildren(children, parent, 0);
    }

    /** The checks and the two row updates both publications end with. */
    method Publish(approval: string, result: SigningResult) returns (r: Result<()>)
      requires result.operation in operations
      modifies this`operations, this`reservations
      ensures var t, o := old(Db()), old(operations)[result.operation];
        match PublicationCheck(t, approval, o, result)
        case Err(code) => r == Err(code) && Db() == t
        case Ok(_) => r == Ok(()) && Db() == Published(t, approval, o, result)
    {
      var o := operations[result.operation];
      if o.state != OpCommitted { return Err(OperationIdConflict); }
      var i, reserved := FindInState(approval, result.operation, Reserved);
      if !reserved { return Err(OperationIdConflict); }
      if o.receipt.None? { return Err(Storage); }
      if o.receipt.value.approval != approval || o.receipt.value.operationDigest != result.digest {
        return Err(OperationIdConflict);
      }
      operations := operations[result.operation := o.(state := Succeeded, result := Some(result))];
      reservations := reservations[i := reservations[i].(state := Committed)];
      return Ok(());
    }

    /** `publish_result`. */
    method PublishResult(approval: string, result: SigningResult) returns (r: Result<()>)
      requires Valid()
      modifies this`operations, this`reservations
      ensures Valid() && Commits(old(Db()), T.PublishResult(old(Db()), approval, result), r, Db())
    {
      SpecReaches(Db(), Step.Publish(approval, result), T.PublishResult(Db(), approval, result));
      if result.operation !in operations { return Err(ApprovalNotFound); }
      var o := operations[result.operation];
      if o.digest != result.digest { return Err(OperationIdConflict); }
      if o.result.Some? {
        var _, committed := FindInState(approval, result.operation, Committed);
        if o.result.value != result || !committed { return Err(OperationIdConflict); }
        return Ok(());
      }
      r := Publish(approval, result);
    }

    /** `publish_batch`. */
    method PublishBatch(approval: string, result: SigningResult, results: seq<SigningResult>, derived: seq<string>)
      returns (r: Result<()>)
      requires Valid()
      modifies this`operations, this`reservations, this`children
      ensures Valid() && Commits(old(Db()), T.PublishBatch(old(Db()), approval, result, results, derived), r, Db())
    {
      SpecReaches(Db(), PublishMany(approval, result, results, derived), T.PublishBatch(Db(), approval, result, results, derived));
      r := InsertBatch(approval, result, results, derived);
    }

    /** The transaction itself: checks, child rows, then the parent. */
    method InsertBatch(approval: string, result: SigningResult, results: seq<SigningResult>, derived: seq<string>)
      returns (r: Result<()>)
      modifies this`operations, this`reservations, this`children
      ensures Commits(old(Db()), T.PublishBatch(old(Db()), approval, result, results, derived), r, Db())
    {
      if results == [] || |results| > MAX_CHILDREN { return Err(BackendInvalidRequest); }
      if |derived| != |results| { return Err(OperationIdConflict); }
      for k := 0 to |results|
        invariant forall j :: 0 <= j < k ==> results[j].operation == derived[j]
      {
        if results[k].operation != derived[k] { return Err(OperationIdConflict); }
      }
      if result.operation !in operations { return Err(ApprovalNotFound); }
      var o := operations[result.operation];
      if o.digest != result.digest { return Err(OperationIdConflict); }
      if o.result.Some? {
        var stored := BatchChildren(result.operation);
        var _, committed := FindInState(approval, result.operation, Committed);
        if o.result.value != result || stored != results || !committed { return Err(OperationIdConflict); }
        return Ok(());
      }
      if !o.isBatch { return Err(OperationIdConflict); }
      r := PublicationCheck(Db(), approval, o, result);
      if r.Err? { return; }
      var inserted := InsertChildren(Db(), result.operation, results);
      if inserted.None? { return Err(Storage); }
      r := Publish(approval, result);
      children := inserted.value;
    }

    // ------------------------------------------------------------------ clock

    /**
      `observe_time`, given the durable clock's decision: the reading is committed
      first, and a rate-limited caller is then refused an untrusted or frozen clock.
    */
    method ObserveTime(decision: Clock, rateLimited: bool) returns (r: Result<()>)
      requires Valid()
      modifies this`clock
      ensures Valid()
      ensures match T.ObserveTime(old(Db()), decision)
        case Err(code) => r == Err(code) && Db() == old(Db())
        case Ok(t) => r == ReadingVerdict(decision, rateLimited) && Db() == t
    {
      SpecReaches(Db(), Observe(decision), T.ObserveTime(Db(), decision));
      if clock.Some? && decision.effectiveMs < clock.value.effectiveMs { return Err(ClockUntrusted); }
      clock := Some(decision);
      if rateLimited && decision.condition == Untrusted { return Err(ClockUntrusted); }
      if rateLimited && decision.condition == RollbackFrozen { return Err(ClockRollback); }
      return Ok(());
    }

    /** `repair_clock`. */
    method RepairClock(acceptedMs: U64) returns (r: Result<()>)
      requires Valid()
      modifies this`clock
      ensures Valid() && Commits(old(Db()), T.RepairClock(old(Db()), acceptedMs), r, Db())
    {
      SpecReaches(Db(), Repair(acceptedMs), T.RepairClock(Db(), acceptedMs));
      if clock.None? { return Err(ClockUntrusted); }
      if acceptedMs < clock.value.effectiveMs { return Err(ClockRollback); }
      clock := Some(Clock(acceptedMs, Repaired));
      return Ok(());
    }
  }
}
