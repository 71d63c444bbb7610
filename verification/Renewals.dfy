/**
  Renewals form linear chains: an approval has at most one successor that ever
  activates, and whatever an activated approval renews is retired for good.
*/
module Renewals {
  import opened Wrappers
  import opened Tables
  import opened History

  /** `renewal_of` names a stored record inserted earlier. */
  predicate Ordered(approvals: map<string, Approval>)
  {
    forall id :: id in approvals && approvals[id].terms.renewalOf.Some? ==>
      var p := approvals[id].terms.renewalOf.value;
      p in approvals && approvals[p].row < approvals[id].row
  }

  predicate RowsBelow(approvals: map<string, Approval>, rows: nat)
  {
    forall id :: id in approvals ==> approvals[id].row < rows
  }

  /** Authority is active only after one activation, and pending only before it. */
  predicate ActivatedOnce(approvals: map<string, Approval>)
  {
    forall id :: id in approvals ==>
      && (approvals[id].state == Active ==> approvals[id].activationOp.Some?)
      && (Pending(approvals[id].state) ==> approvals[id].activationOp.None?)
      && (approvals[id].activationOp.Some? <==> approvals[id].grant.Some?)
  }

  predicate Activated(approvals: map<string, Approval>, id: string)
  {
    id in approvals && approvals[id].activationOp.Some?
  }

  /** Activated once and no longer active. */
  predicate Retired(approvals: map<string, Approval>, id: string)
  {
    Activated(approvals, id) && approvals[id].state != Active
  }

  ghost predicate Superseded(approvals: map<string, Approval>)
  {
    forall id :: Activated(approvals, id) && approvals[id].terms.renewalOf.Some? ==>
      Retired(approvals, approvals[id].terms.renewalOf.value)
  }

  ghost predicate Linear(approvals: map<string, Approval>)
  {
    forall a, b :: Activated(approvals, a) && Activated(approvals, b)
      && approvals[a].terms.renewalOf.Some? && approvals[a].terms.renewalOf == approvals[b].terms.renewalOf
      ==> a == b
  }

  ghost predicate RenewalInv(t: Tables)
  {
    && Ordered(t.approvals)
    && RowsBelow(t.approvals, t.rows)
    && ActivatedOnce(t.approvals)
    && Superseded(t.approvals)
    && Linear(t.approvals)
  }

  lemma PrepareKeeps(t: Tables, q: PrepareRequest)
    requires RenewalInv(t) && PrepareApproval(t, q).Ok?
    ensures RenewalInv(PrepareApproval(t, q).value)
  {
    if q.id !in t.approvals {
      var a := Approval(t.rows, q.terms, q.review, q.claim, AwaitingCeremony, None, None);
      PreparedKeeps(t.approvals, q.id, a, t.rows);
    }
  }

  lemma PreparedKeeps(a: map<string, Approval>, id: string, added: Approval, rows: nat)
    requires Ordered(a) && RowsBelow(a, rows) && ActivatedOnce(a) && Superseded(a) && Linear(a)
    requires id !in a && added.row == rows && added.state == AwaitingCeremony && added.activationOp.None? && added.grant.None?
    requires added.terms.renewalOf.Some? ==> added.terms.renewalOf.value in a
    ensures var b := a[id := added];
      Ordered(b) && RowsBelow(b, rows + 1) && ActivatedOnce(b) && Superseded(b) && Linear(b)
  {
    var b := a[id := added];
    assert forall x :: Activated(b, x) ==> Activated(a, x);
    assert forall x :: Retired(a, x) ==> Retired(b, x);
  }

  /** What one activation writes: the approval, and the predecessor it revokes. */
  predicate ActivatesTo(a: map<string, Approval>, b: map<string, Approval>, id: string)
  {
    && b.Keys == a.Keys && id in a
    && a[id].state == AwaitingCeremony && a[id].activationOp.None?
    && b[id].activationOp.Some? && b[id].grant.Some?
    && b[id] == a[id].(state := Active, activationOp := b[id].activationOp, grant := b[id].grant)
    && (a[id].terms.renewalOf.Some? ==>
          var p := a[id].terms.renewalOf.value;
          p in a && p != id && a[p].state == Active && b[p] == a[p].(state := Revoked))
    && forall x :: x in a && x != id && Some(x) != a[id].terms.renewalOf ==> b[x] == a[x]
  }

  lemma ActivateWrites(t: Tables, id: string, operation: string, grant: string)
    requires ActivateRecord(t, id, operation, grant).Ok?
    ensures ActivateRecord(t, id, operation, grant).value == t
         || ActivatesTo(t.approvals, ActivateRecord(t, id, operation, grant).value.approvals, id)
  {
  }

  lemma ActivationMoves(a: map<string, Approval>, b: map<string, Approval>, id: string)
    requires ActivatesTo(a, b, id)
    ensures forall x :: Activated(b, x) && x != id ==> Activated(a, x) && a[x].terms == b[x].terms
    ensures forall x :: Retired(a, x) ==> Retired(b, x)
    ensures b[id].terms == a[id].terms
  {
  }

  lemma ActivationKeepsSuperseded(a: map<string, Approval>, b: map<string, Approval>, id: string)
    requires ActivatedOnce(a) && Superseded(a) && ActivatesTo(a, b, id)
    ensures Superseded(b)
  {
    ActivationMoves(a, b, id);
    forall x | Activated(b, x) && b[x].terms.renewalOf.Some?
      ensures Retired(b, b[x].terms.renewalOf.value)
    {
      if x != id {
        assert Retired(a, a[x].terms.renewalOf.value);
      }
    }
  }

  /** The approval whose activation revokes its predecessor is that predecessor's only activated successor. */
  lemma ActivationKeepsLinear(a: map<string, Approval>, b: map<string, Approval>, id: string)
    requires Superseded(a) && Linear(a) && ActivatesTo(a, b, id)
    ensures Linear(b)
  {
    ActivationMoves(a, b, id);
    forall z | Activated(b, z) && z != id && b[z].terms.renewalOf.Some?
      ensures b[z].terms.renewalOf != b[id].terms.renewalOf
    {
      assert Retired(a, a[z].terms.renewalOf.value);
    }
  }

  lemma ActivateKeeps(t: Tables, id: string, operation: string, grant: string)
    requires RenewalInv(t) && ActivateRecord(t, id, operation, grant).Ok?
    ensures RenewalInv(ActivateRecord(t, id, operation, grant).value)
  {
    var b := ActivateRecord(t, id, operation, grant).value;
    ActivateWrites(t, id, operation, grant);
    if b != t {
      ActivationKeepsSuperseded(t.approvals, b.approvals, id);
      ActivationKeepsLinear(t.approvals, b.approvals, id);
      ActivationKeepsRows(t.approvals, b.approvals, id, t.rows);
    }
  }

  lemma ActivationKeepsRows(a: map<string, Approval>, b: map<string, Approval>, id: string, rows: nat)
    requires Ordered(a) && RowsBelow(a, rows) && ActivatedOnce(a) && ActivatesTo(a, b, id)
    ensures Ordered(b) && RowsBelow(b, rows) && ActivatedOnce(b)
  {
    forall x | x in a ensures b[x].terms == a[x].terms && b[x].row == a[x].row {}
  }

  predicate Demoted(a: Approval, b: Approval)
  {
    b == a.(state := b.state) && Retiring(b.state)
  }

  predicate DemotesTo(a: map<string, Approval>, b: map<string, Approval>)
  {
    b.Keys == a.Keys && forall id :: id in a ==> b[id] == a[id] || Demoted(a[id], b[id])
  }

  lemma DemotionKeepsChains(a: map<string, Approval>, b: map<string, Approval>)
    requires Superseded(a) && Linear(a) && DemotesTo(a, b)
    ensures Superseded(b) && Linear(b)
  {
    assert forall x :: Activated(b, x) ==> Activated(a, x) && a[x].terms == b[x].terms;
    assert forall x :: Retired(a, x) ==> Retired(b, x);
  }

  /** Retiring authority anywhere keeps the chains. */
  lemma DemotionKeeps(t: Tables, b: Tables)
    requires RenewalInv(t)
    requires b.rows == t.rows && DemotesTo(t.approvals, b.approvals)
    ensures RenewalInv(b)
  {
    DemotionKeepsChains(t.approvals, b.approvals);
    DemotionKeepsRows(t.approvals, b.approvals, t.rows);
  }

  lemma DemotionKeepsRows(a: map<string, Approval>, b: map<string, Approval>, rows: nat)
    requires Ordered(a) && RowsBelow(a, rows) && ActivatedOnce(a) && DemotesTo(a, b)
    ensures Ordered(b) && RowsBelow(b, rows) && ActivatedOnce(b)
  {
    forall x | x in a ensures b[x].terms == a[x].terms && b[x].row == a[x].row {}
  }

  lemma StopWrites(t: Tables, id: string)
    ensures StopApproval(t, id).Ok?
    ensures DemotesTo(t.approvals, StopApproval(t, id).value.approvals)
  {
    StopExtends(t, id);
    if id in t.approvals && StopState(t.approvals[id].state).Some? {
      TransitionWrites(t, id, StopState(t.approvals[id].state).value);
    }
  }

  lemma TransitionWrites(t: Tables, id: string, into: ApprovalState)
    requires Retiring(into) && TransitionApproval(t, id, into).Ok?
    ensures DemotesTo(t.approvals, TransitionApproval(t, id, into).value.approvals)
  {
  }

  lemma StopDemotes(t: Tables, id: string)
    requires RenewalInv(t)
    ensures StopApproval(t, id).Ok? && RenewalInv(StopApproval(t, id).value)
  {
    StopWrites(t, id);
    DemotionKeeps(t, StopApproval(t, id).value);
  }

  lemma AdmitDemotes(t: Tables, q: StopRequest)
    requires RenewalInv(t) && AdmitStop(t, q).Ok?
    ensures RenewalInv(AdmitStop(t, q).value)
  {
    var b := AdmitStop(t, q).value;
    if q.operation !in t.operations {
      assert b.approvals == Fence(t.approvals, BoundApprovals(t, q.wallet, q.keyRef));
    }
    DemotionKeeps(t, b);
  }

  lemma RenewalStep(t: Tables, step: Step)
    requires RenewalInv(t)
    ensures RenewalInv(Next(t, step))
  {
    Frame(t, step);
    if WritesApprovals(step) && Try(t, step).Ok? {
      match step
      case Prepare(q) => PrepareKeeps(t, q);
      case Activate(q) => ActivateIsRecord(t, q); ActivateKeeps(t, q.id, q.operation, q.grant);
      case Stop(id) => StopDemotes(t, id);
      case Retire(id, into) => TransitionWrites(t, id, into); DemotionKeeps(t, TransitionApproval(t, id, into).value);
      case AdmitKeyStop(q) => AdmitDemotes(t, q);
    }
  }

  lemma {:induction false} RenewalRun(t: Tables, steps: seq<Step>)
    requires RenewalInv(t)
    ensures RenewalInv(Run(t, steps))
  {
    if steps != [] {
      RenewalRun(t, steps[..|steps| - 1]);
      RenewalStep(Run(t, steps[..|steps| - 1]), steps[|steps| - 1]);
    }
  }

  /** On ordered tables the walk never meets an approval again, so what it has seen does not matter. */
  lemma {:induction false} SeenIsAhead(approvals: map<string, Approval>, id: string, seen: set<string>)
    requires Ordered(approvals) && id in approvals
    requires forall s :: s in seen ==> s in approvals && approvals[s].row > approvals[id].row
    ensures LineageFrom(approvals, id, seen) == LineageFrom(approvals, id, {})
    decreases approvals[id].row
  {
    if approvals[id].terms.renewalOf.Some? {
      var p := approvals[id].terms.renewalOf.value;
      SeenIsAhead(approvals, p, seen + {id});
      SeenIsAhead(approvals, p, {} + {id});
    }
  }

  lemma LineageUnfolds(approvals: map<string, Approval>, id: string)
    requires Ordered(approvals) && id in approvals
    ensures Lineage(approvals, id)
         == match approvals[id].terms.renewalOf case None => {id} case Some(p) => {id} + Lineage(approvals, p)
  {
    if approvals[id].terms.renewalOf.Some? {
      SeenIsAhead(approvals, approvals[id].terms.renewalOf.value, {} + {id});
    }
  }

  /** Every lineage member is stored, and is the approval itself or an older row. */
  lemma {:induction false} LineageStored(approvals: map<string, Approval>, id: string, a: string)
    requires Ordered(approvals) && id in approvals && a in Lineage(approvals, id)
    ensures a in approvals
    ensures a == id || approvals[a].row < approvals[id].row
    decreases approvals[id].row
  {
    LineageUnfolds(approvals, id);
    if a != id {
      LineageStored(approvals, approvals[id].terms.renewalOf.value, a);
    }
  }

  /** Once an approval has been activated, everything it renews is retired. */
  lemma {:induction false} AncestorsRetired(approvals: map<string, Approval>, id: string, a: string)
    requires Ordered(approvals) && Superseded(approvals)
    requires Activated(approvals, id) && a in Lineage(approvals, id) && a != id
    ensures Retired(approvals, a)
    decreases approvals[id].row
  {
    LineageUnfolds(approvals, id);
    var p := approvals[id].terms.renewalOf.value;
    assert Retired(approvals, p);
    if a != p {
      AncestorsRetired(approvals, p, a);
    }
  }

  /** Retirement is permanent. */
  lemma RetiredForever(t: Tables, more: seq<Step>, id: string)
    requires Retired(t.approvals, id)
    ensures Retired(Run(t, more).approvals, id)
  {
    RunExtends(t, more);
    assert ApprovalExtends(t.approvals[id], Run(t, more).approvals[id]);
  }

  lemma {:induction false} LineageFromStable(a: map<string, Approval>, b: map<string, Approval>, id: string, seen: set<string>)
    requires Ordered(a) && ApprovalsExtend(a, b) && id in a
    ensures LineageFrom(b, id, seen) == LineageFrom(a, id, seen)
    decreases a[id].row
  {
    assert ApprovalExtends(a[id], b[id]);
    if a[id].terms.renewalOf.Some? {
      LineageFromStable(a, b, a[id].terms.renewalOf.value, seen + {id});
    }
  }

  /** A growing approvals table leaves the lineage of a stored approval alone. */
  lemma LineageStable(a: map<string, Approval>, b: map<string, Approval>, id: string)
    requires Ordered(a) && ApprovalsExtend(a, b) && id in a
    ensures Lineage(b, id) == Lineage(a, id)
  {
    LineageFromStable(a, b, id, {});
  }

  lemma RenewalReachable(t: Tables)
    requires Reachable(t)
    ensures RenewalInv(t)
  {
    var steps :| Run(EMPTY, steps) == t;
    RenewalRun(EMPTY, steps);
  }

  /**
    In every state the Broker reaches, no approval has two successors that ever
    activated, and whatever an activated approval renews, at any distance, is
    retired in every continuation.
  */
  lemma RenewalsFormChains(t: Tables, more: seq<Step>)
    requires Reachable(t)
    ensures Linear(t.approvals)
    ensures forall id, a :: Activated(t.approvals, id) && a in Lineage(t.approvals, id) && a != id ==>
      Retired(Run(t, more).approvals, a)
  {
    RenewalReachable(t);
    forall id, a | Activated(t.approvals, id) && a in Lineage(t.approvals, id) && a != id
      ensures Retired(Run(t, more).approvals, a)
    {
      AncestorsRetired(t.approvals, id, a);
      RetiredForever(t, more, a);
    }
  }

  // ------------------------------------------------------- the lineage query

  /** Past the end there is nothing. */
  lemma {:induction false} RowsStayOut(approvals: map<string, Approval>, id: string, n: nat, m: nat)
    requires n <= m && LineageRow(approvals, id, n).None?
    ensures LineageRow(approvals, id, m).None?
    decreases m
  {
    if n < m {
      RowsStayOut(approvals, id, n, m - 1);
    }
  }

  /** The rows after the first are the rows of what the approval renews. */
  lemma {:induction false} RowsShift(approvals: map<string, Approval>, id: string, n: nat)
    requires id in approvals && approvals[id].terms.renewalOf.Some?
    ensures LineageRow(approvals, id, n + 1) == LineageRow(approvals, approvals[id].terms.renewalOf.value, n)
  {
    if n > 0 {
      RowsShift(approvals, id, n - 1);
    }
  }

  /** What a row renews is the next row, so two equal rows are followed alike. */
  lemma {:induction false} RowsRepeat(approvals: map<string, Approval>, id: string, i: nat, j: nat, k: nat)
    requires LineageRow(approvals, id, i) == LineageRow(approvals, id, j)
    ensures LineageRow(approvals, id, i + k) == LineageRow(approvals, id, j + k)
  {
    if k > 0 {
      RowsRepeat(approvals, id, i, j, k - 1);
    }
  }

  predicate SameRow(approvals: map<string, Approval>, id: string, i: nat, j: nat)
  {
    LineageRow(approvals, id, i).Some? && LineageRow(approvals, id, i) == LineageRow(approvals, id, j)
  }

  /** No row comes twice. */
  ghost predicate NoRowTwice(approvals: map<string, Approval>, id: string)
  {
    forall i: nat, j: nat :: i < j ==> !SameRow(approvals, id, i, j)
  }

  lemma {:induction false} RepeatedNeverEnds(approvals: map<string, Approval>, id: string, i: nat, j: nat, m: nat)
    requires i < j && SameRow(approvals, id, i, j)
    ensures LineageRow(approvals, id, m).Some?
  {
    if m <= j {
      if LineageRow(approvals, id, m).None? {
        RowsStayOut(approvals, id, m, j);
      }
    } else {
      RepeatedNeverEnds(approvals, id, i, j, m - (j - i));
      RowsRepeat(approvals, id, i, j, m - j);
    }
  }

  /** The approvals of the first `n` rows. */
  function FirstRows(approvals: map<string, Approval>, id: string, n: nat): set<string>
  {
    if n == 0 then {}
    else
      match LineageRow(approvals, id, n - 1)
      case None => FirstRows(approvals, id, n - 1)
      case Some(row) => FirstRows(approvals, id, n - 1) + {row}
  }

  lemma {:induction false} RowIsFirst(approvals: map<string, Approval>, id: string, n: nat, i: nat)
    requires i < n && LineageRow(approvals, id, i).Some?
    ensures LineageRow(approvals, id, i).value in FirstRows(approvals, id, n)
    decreases n
  {
    if i < n - 1 {
      RowIsFirst(approvals, id, n - 1, i);
    }
  }

  lemma {:induction false} FirstIsRow(approvals: map<string, Approval>, id: string, n: nat, x: string) returns (i: nat)
    requires x in FirstRows(approvals, id, n)
    ensures i < n && LineageRow(approvals, id, i) == Some(x)
    decreases n
  {
    if LineageRow(approvals, id, n - 1) == Some(x) {
      i := n - 1;
    } else {
      i := FirstIsRow(approvals, id, n - 1, x);
    }
  }

  /** Rows that go on and do not repeat are distinct stored approvals. */
  lemma {:induction false} DistinctRows(approvals: map<string, Approval>, id: string, n: nat)
    requires NoRowTwice(approvals, id) && LineageRow(approvals, id, n).Some?
    ensures |FirstRows(approvals, id, n)| == n && FirstRows(approvals, id, n) <= approvals.Keys
  {
    if n > 0 {
      DistinctRows(approvals, id, n - 1);
      var row := LineageRow(approvals, id, n - 1).value;
      if row in FirstRows(approvals, id, n - 1) {
        var i := FirstIsRow(approvals, id, n - 1, row);
        assert SameRow(approvals, id, i, n - 1);
      }
    }
  }

  lemma SubsetIsSmaller(a: set<string>, b: set<string>)
    requires a <= b
    ensures |a| <= |b|
  {
    assert b == a + (b - a);
  }

  /** The query ends if and only if no row comes twice; on any table. */
  lemma LineageEndsExactly(approvals: map<string, Approval>, id: string)
    ensures Ends(approvals, id) <==> NoRowTwice(approvals, id)
  {
    if Ends(approvals, id) {
      var n: nat :| LineageRow(approvals, id, n).None?;
      forall i: nat, j: nat | i < j ensures !SameRow(approvals, id, i, j) {
        if SameRow(approvals, id, i, j) {
          RepeatedNeverEnds(approvals, id, i, j, n);
        }
      }
    }
    if NoRowTwice(approvals, id) {
      var n := |approvals| + 1;
      if LineageRow(approvals, id, n).Some? {
        DistinctRows(approvals, id, n);
        SubsetIsSmaller(FirstRows(approvals, id, n), approvals.Keys);
        assert |approvals.Keys| == |approvals|;
      }
    }
  }

  /** On ordered tables each row is older than the one before, so the query ends within the approval's own row number. */
  lemma {:induction false} OrderedEnds(approvals: map<string, Approval>, id: string)
    requires Ordered(approvals) && id in approvals
    ensures LineageRow(approvals, id, approvals[id].row + 1).None?
    decreases approvals[id].row
  {
    match approvals[id].terms.renewalOf
    case None =>
      assert LineageRow(approvals, id, 1).None?;
      RowsStayOut(approvals, id, 1, approvals[id].row + 1);
    case Some(p) =>
      OrderedEnds(approvals, p);
      RowsShift(approvals, id, approvals[p].row + 1);
      RowsStayOut(approvals, id, approvals[p].row + 2, approvals[id].row + 1);
  }

  /** In every state the Broker reaches the query ends: what an approval renews was stored before it. */
  lemma LineageEndsWhenReachable(t: Tables, id: string)
    requires Reachable(t)
    ensures Ends(t.approvals, id)
    ensures id in t.approvals ==> LineageRow(t.approvals, id, t.approvals[id].row + 1).None?
  {
    RenewalReachable(t);
    if id in t.approvals {
      OrderedEnds(t.approvals, id);
    } else {
      assert LineageRow(t.approvals, id, 1).None?;
    }
  }

  /** An approval that renews itself is never done with, although it has only itself in its lineage. */
  lemma {:induction false} SelfRenewalNeverEnds(approvals: map<string, Approval>, id: string, n: nat)
    requires id in approvals && approvals[id].terms.renewalOf == Some(id)
    ensures LineageRow(approvals, id, n) == Some(id)
    ensures Lineage(approvals, id) == {id}
  {
    assert LineageFrom(approvals, id, {} + {id}) == {id};
    if n > 0 {
      SelfRenewalNeverEnds(approvals, id, n - 1);
    }
  }

  /** The set holds what it says: no more than the rows, */
  lemma {:induction false} LineageHasRow(approvals: map<string, Approval>, id: string, seen: set<string>, x: string) returns (n: nat)
    requires x in LineageFrom(approvals, id, seen)
    ensures LineageRow(approvals, id, n) == Some(x)
    decreases approvals.Keys - seen
  {
    if x == id {
      n := 0;
    } else {
      var m := LineageHasRow(approvals, approvals[id].terms.renewalOf.value, seen + {id}, x);
      RowsShift(approvals, id, m);
      n := m + 1;
    }
  }

  /** and no less: it is closed under renewal. */
  predicate Closed(approvals: map<string, Approval>, ids: set<string>)
  {
    forall s :: s in ids && s in approvals && approvals[s].terms.renewalOf.Some? ==> approvals[s].terms.renewalOf.value in ids
  }

  lemma {:induction false} LineageCloses(approvals: map<string, Approval>, id: string, seen: set<string>)
    requires forall s :: s in seen && s in approvals && approvals[s].terms.renewalOf.Some? ==>
      approvals[s].terms.renewalOf.value in seen + {id}
    ensures Closed(approvals, seen + LineageFrom(approvals, id, seen))
    decreases approvals.Keys - seen
  {
    if id in approvals && id !in seen && approvals[id].terms.renewalOf.Some? {
      var p := approvals[id].terms.renewalOf.value;
      LineageCloses(approvals, p, seen + {id});
      assert seen + LineageFrom(approvals, id, seen) == (seen + {id}) + LineageFrom(approvals, p, seen + {id});
    } else {
      assert seen + LineageFrom(approvals, id, seen) == seen + {id};
    }
  }

  lemma {:induction false} ClosedHasRows(approvals: map<string, Approval>, ids: set<string>, id: string, n: nat)
    requires Closed(approvals, ids) && id in ids && LineageRow(approvals, id, n).Some?
    ensures LineageRow(approvals, id, n).value in ids
  {
    if n > 0 {
      ClosedHasRows(approvals, ids, id, n - 1);
    }
  }

  /** On any table the lineage is exactly the approvals among the query's rows, whether or not the query ends. */
  lemma LineageIsItsRows(approvals: map<string, Approval>, id: string, x: string)
    ensures x in Lineage(approvals, id) <==> exists n: nat :: LineageRow(approvals, id, n) == Some(x)
  {
    if x in Lineage(approvals, id) {
      var n := LineageHasRow(approvals, id, {}, x);
    }
    if n: nat :| LineageRow(approvals, id, n) == Some(x) {
      LineageCloses(approvals, id, {});
      assert {} + Lineage(approvals, id) == Lineage(approvals, id);
      ClosedHasRows(approvals, Lineage(approvals, id), id, n);
    }
  }

  /** A query that has run out of rows has met its whole lineage. */
  lemma RowsAreLineage(approvals: map<string, Approval>, id: string, n: nat)
    requires LineageRow(approvals, id, n).None?
    ensures FirstRows(approvals, id, n) == Lineage(approvals, id)
  {
    forall x | x in FirstRows(approvals, id, n) ensures x in Lineage(approvals, id) {
      var i := FirstIsRow(approvals, id, n, x);
      LineageIsItsRows(approvals, id, x);
    }
    forall x | x in Lineage(approvals, id) ensures x in FirstRows(approvals, id, n) {
      var m := LineageHasRow(approvals, id, {}, x);
      if n <= m {
        RowsStayOut(approvals, id, n, m);
      }
      RowIsFirst(approvals, id, n, m);
    }
  }

  /** The recursive query, row after row until there is none. */
  method LineageQuery(approvals: map<string, Approval>, id: string) returns (ids: set<string>)
    requires Ends(approvals, id)
    ensures ids == Lineage(approvals, id)
  {
    ghost var end: nat :| LineageRow(approvals, id, end).None?;
    ghost var n := 0;
    var row := Some(id);
    ids := {};
    while row.Some?
      invariant row == LineageRow(approvals, id, n) && ids == FirstRows(approvals, id, n)
      decreases end - n
    {
      if end <= n {
        RowsStayOut(approvals, id, end, n);
      }
      ids := ids + {row.value};
      row := if row.value in approvals then approvals[row.value].terms.renewalOf else None;
      n := n + 1;
    }
    RowsAreLineage(approvals, id, n);
  }
}
