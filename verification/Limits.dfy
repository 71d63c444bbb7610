/**
  Budgets over whole runs. Lifetime limits hold per approval; sliding windows
  hold across renewals, because time never runs backwards for an approval that
  has windows and no ancestor of an activated approval can reserve again.
*/
module Limits {
  import opened Wrappers
  import opened Accounting
  import opened Budget
  import opened Tables
  import opened History
  import opened Renewals

  // ------------------------------------------------------------ ledger shape

  /** The primary key of `reservations`. */
  predicate KeysUnique(rows: seq<Reservation>)
  {
    forall i, j :: 0 <= i < j < |rows| ==> rows[i].approval != rows[j].approval || rows[i].operation != rows[j].operation
  }

  /** Only activated approvals were ever charged. */
  predicate OwnersActivated(t: Tables)
  {
    forall i :: 0 <= i < |t.reservations| ==> Activated(t.approvals, t.reservations[i].approval)
  }

  /** Later tables with the same number of rows never use more. */
  lemma SettlingUsesLess(m: Measure, scope: Scope, a: seq<Reservation>, b: seq<Reservation>)
    requires |a| == |b| && ReservationsExtend(a, b) && scope.states == UNRELEASED
    ensures Used(m, scope, b) <= Used(m, scope, a)
  {
    forall i | 0 <= i < |a| ensures Charge(m, scope, b[i]) <= Charge(m, scope, a[i]) {
      assert ReservationExtends(a[i], b[i]);
    }
    UsedPointwise(m, scope, scope, b, a);
  }

  lemma {:induction false} UsedNothing(m: Measure, scope: Scope, rows: seq<Reservation>)
    requires forall i :: 0 <= i < |rows| ==> Charge(m, scope, rows[i]) == 0
    ensures Used(m, scope, rows) == 0
  {
    if rows != [] {
      UsedNothing(m, scope, rows[..|rows| - 1]);
    }
  }

  // --------------------------------------------------------------- lifetimes

  /** One approval's unreleased charges against its fixed lifetime limits. */
  ghost predicate WithinLifetime(rows: seq<Reservation>, id: string, l: ApprovalLimits)
  {
    && Used(Operations, Ever(id), rows) <= l.maxOperations
    && Used(Signatures, Ever(id), rows) <= l.maxSignatures
    && forall asset :: Used(Value(asset), Ever(id), rows) <= LifetimeOf(l, asset)
  }

  /** An asset outside the effective limits may not be charged at all. */
  function LifetimeOf(l: ApprovalLimits, asset: string): nat
  {
    if asset in Effective(l.values) then Effective(l.values)[asset] else 0
  }

  ghost predicate LifetimeInv(t: Tables)
  {
    forall id :: id in t.approvals ==> WithinLifetime(t.reservations, id, t.approvals[id].terms.limits)
  }

  // ----------------------------------------------------------------- windows

  /** One reviewed sliding window: a measure, its maximum and its length. */
  datatype Cap = Cap(measure: Measure, maximum: nat, durationMs: nat)

  ghost predicate Imposes(l: ApprovalLimits, c: Cap)
  {
    match c.measure
    case Operations => exists w :: w in l.operationRates && w.maximum == c.maximum && w.durationMs == c.durationMs
    case Signatures => exists w :: w in l.signatureRates && w.maximum == c.maximum && w.durationMs == c.durationMs
    case Value(asset) => exists v, w :: v in l.values && v.asset == asset && w in v.rolling
                                        && w.maximum == c.maximum && w.durationMs == c.durationMs
  }

  /** The window constrains a row: value windows only look at rows that move the asset. */
  ghost predicate Applies(l: ApprovalLimits, c: Cap, values: map<string, nat>)
  {
    Imposes(l, c) && (c.measure.Value? ==> c.measure.asset in values)
  }

  /** The window of length `c.durationMs` ending at a charge of `id` at time `at`. */
  ghost predicate WindowHolds(t: Tables, id: string, at: nat, c: Cap)
  {
    Used(c.measure, Window(Lineage(t.approvals, id), at, c.durationMs), t.reservations) <= c.maximum
  }

  ghost predicate WindowInv(t: Tables)
  {
    forall i, c :: 0 <= i < |t.reservations| && t.reservations[i].approval in t.approvals
      && t.reservations[i].state != Released
      && Applies(t.approvals[t.reservations[i].approval].terms.limits, c, t.reservations[i].values)
      ==> WindowHolds(t, t.reservations[i].approval, t.reservations[i].at, c)
  }

  /** No charge of an approval with windows lies in the future of the durable clock. */
  predicate ClockInv(t: Tables)
  {
    forall i :: 0 <= i < |t.reservations| && t.reservations[i].approval in t.approvals
      && TrustedTimeRequired(LimitsOf(t.approvals[t.reservations[i].approval].terms.limits))
      ==> t.clock.Some? && t.reservations[i].at <= t.clock.value.effectiveMs
  }

  ghost predicate LedgerInv(t: Tables)
  {
    && KeysUnique(t.reservations)
    && OwnersActivated(t)
    && LifetimeInv(t)
    && WindowInv(t)
    && ClockInv(t)
  }

  lemma WindowsNeedTrustedTime(l: ApprovalLimits, c: Cap)
    requires Imposes(l, c)
    ensures TrustedTimeRequired(LimitsOf(l))
  {
    FoldEmpty(Caps(l));
    if c.measure.Value? {
      var v, w :| v in l.values && v.asset == c.measure.asset && w in v.rolling;
      RollingMembers(l.values, SlidingValueLimit(v.asset, w.maximum, w.durationMs));
    }
  }

  // -------------------------------------------- steps that charge nothing new

  lemma LifetimeCarries(t: Tables, b: Tables)
    requires Extends(t, b) && |b.reservations| == |t.reservations|
    requires OwnersActivated(t) && LifetimeInv(t)
    ensures LifetimeInv(b)
  {
    forall id | id in b.approvals ensures WithinLifetime(b.reservations, id, b.approvals[id].terms.limits) {
      forall m: Measure ensures Used(m, Ever(id), b.reservations) <= Used(m, Ever(id), t.reservations) {
        SettlingUsesLess(m, Ever(id), t.reservations, b.reservations);
      }
      if id in t.approvals {
        assert ApprovalExtends(t.approvals[id], b.approvals[id]);
      } else {
        forall m: Measure ensures Used(m, Ever(id), t.reservations) == 0 {
          UsedNothing(m, Ever(id), t.reservations);
        }
      }
    }
  }

  lemma WindowsCarry(t: Tables, b: Tables)
    requires Extends(t, b) && |b.reservations| == |t.reservations|
    requires Ordered(t.approvals) && OwnersActivated(t) && WindowInv(t)
    ensures WindowInv(b)
  {
    forall i, c | 0 <= i < |b.reservations| && b.reservations[i].approval in b.approvals
      && b.reservations[i].state != Released
      && Applies(b.approvals[b.reservations[i].approval].terms.limits, c, b.reservations[i].values)
      ensures WindowHolds(b, b.reservations[i].approval, b.reservations[i].at, c)
    {
      var r := t.reservations[i];
      assert ReservationExtends(r, b.reservations[i]);
      assert ApprovalExtends(t.approvals[r.approval], b.approvals[r.approval]);
      assert WindowHolds(t, r.approval, r.at, c);
      LineageStable(t.approvals, b.approvals, r.approval);
      SettlingUsesLess(c.measure, Window(Lineage(t.approvals, r.approval), r.at, c.durationMs), t.reservations, b.reservations);
    }
  }

  lemma LedgerCarries(t: Tables, b: Tables)
    requires Extends(t, b) && |b.reservations| == |t.reservations|
    requires Ordered(t.approvals) && LedgerInv(t)
    ensures LedgerInv(b)
  {
    LifetimeCarries(t, b);
    WindowsCarry(t, b);
    forall i | 0 <= i < |b.reservations|
      ensures b.reservations[i] == t.reservations[i].(state := b.reservations[i].state)
      ensures Activated(b.approvals, b.reservations[i].approval)
      ensures b.approvals[b.reservations[i].approval].terms == t.approvals[t.reservations[i].approval].terms
    {
      assert ReservationExtends(t.reservations[i], b.reservations[i]);
      assert ApprovalExtends(t.approvals[t.reservations[i].approval], b.approvals[t.reservations[i].approval]);
    }
    assert KeysUnique(b.reservations);
    assert ClockInv(b);
  }

  // -------------------------------------------------------------- one charge

  /** What an admitted, not yet recorded charge has passed. */
  ghost predicate Admitted(t: Tables, q: ReservationRequest)
  {
    && q.approval in t.approvals
    && t.approvals[q.approval].state == Active
    && (forall j :: 0 <= j < |t.reservations| ==>
          t.reservations[j].approval != q.approval || t.reservations[j].operation != q.operation)
    && ClockCheck(t.clock, q.at, TrustedTimeRequired(LimitsOf(t.approvals[q.approval].terms.limits))).Ok?
    && Verdict(t.reservations, Lineage(t.approvals, q.approval), q, LimitsOf(t.approvals[q.approval].terms.limits)).Ok?
  }

  lemma SpendAdmits(t: Tables, q: AuthorizeRequest)
    requires Authorize(t, q).Ok?
    ensures Authorize(t, q).value == t
         || (q.approval in t.approvals && ChargeOf(t.approvals[q.approval].terms.limits, q).Ok?
             && var charge := ChargeOf(t.approvals[q.approval].terms.limits, q).value;
                Admitted(t, charge) && Authorize(t, q).value == t.(reservations := t.reservations + [RowOf(charge)]))
  {
    AuthorizeIsReserve(t, q);
  }

  lemma ChargeKeepsLifetime(t: Tables, q: ReservationRequest)
    requires LifetimeInv(t) && Admitted(t, q)
    ensures LifetimeInv(t.(reservations := t.reservations + [RowOf(q)]))
  {
    var rows, r := t.reservations, RowOf(q);
    forall id | id in t.approvals ensures WithinLifetime(rows + [r], id, t.approvals[id].terms.limits) {
      forall m: Measure
        ensures Used(m, Ever(id), rows + [r]) == Used(m, Ever(id), rows) + (if id == q.approval then Weight(m, r) else 0)
      {
        UsedAppend(m, Ever(id), rows, r);
      }
      assert WithinLifetime(rows, id, t.approvals[id].terms.limits);
      if id == q.approval {
        forall asset ensures Used(Value(asset), Ever(id), rows + [r]) <= LifetimeOf(t.approvals[id].terms.limits, asset) {
          if asset in q.values {
            assert ValueAdmits(rows, q, Effective(t.approvals[id].terms.limits.values), asset);
          }
        }
      }
    }
  }

  /** The verdict bounds every reviewed window the new charge falls under. */
  lemma ChargeFitsWindow(t: Tables, q: ReservationRequest, c: Cap)
    requires Admitted(t, q) && Applies(t.approvals[q.approval].terms.limits, c, q.values)
    ensures Used(c.measure, Window(Lineage(t.approvals, q.approval), q.at, c.durationMs), t.reservations)
            + Weight(c.measure, RowOf(q)) <= c.maximum
  {
    var rows, ids, l := t.reservations, Lineage(t.approvals, q.approval), t.approvals[q.approval].terms.limits;
    match c.measure
    case Operations =>
      FoldSound(rows, ids, q, l);
      var w :| w in l.operationRates && w.maximum == c.maximum && w.durationMs == c.durationMs;
      assert OperationWindowAccepts(rows, ids, q, w);
    case Signatures =>
      FoldSound(rows, ids, q, l);
      var w :| w in l.signatureRates && w.maximum == c.maximum && w.durationMs == c.durationMs;
      assert SignatureWindowAccepts(rows, ids, q, w);
    case Value(asset) =>
      var v, w :| v in l.values && v.asset == asset && w in v.rolling && w.maximum == c.maximum && w.durationMs == c.durationMs;
      var s := SlidingValueLimit(asset, w.maximum, w.durationMs);
      RollingMembers(l.values, s);
      RollingVerdictMeaning(rows, ids, q, Rolling(l.values));
      assert RollingAdmits(rows, ids, q, s);
  }

  /**
    A new charge enters the window of an older one only when both belong to the
    same approval and the same instant: an ancestor cannot reserve any more, and
    the older charge is not in the future.
  */
  lemma NewChargeInOldWindow(t: Tables, q: ReservationRequest, i: nat, c: Cap)
    requires RenewalInv(t) && LedgerInv(t) && Admitted(t, q)
    requires i < |t.reservations|
    requires Imposes(t.approvals[t.reservations[i].approval].terms.limits, c)
    requires Counts(Window(Lineage(t.approvals, t.reservations[i].approval), t.reservations[i].at, c.durationMs), RowOf(q))
    ensures t.reservations[i].approval == q.approval && t.reservations[i].at == q.at
  {
    var earlier := t.reservations[i];
    if q.approval != earlier.approval {
      AncestorsRetired(t.approvals, earlier.approval, q.approval);
      assert false;
    }
    WindowsNeedTrustedTime(t.approvals[earlier.approval].terms.limits, c);
  }

  lemma ChargeKeepsWindows(t: Tables, q: ReservationRequest)
    requires RenewalInv(t) && LedgerInv(t) && Admitted(t, q)
    ensures WindowInv(t.(reservations := t.reservations + [RowOf(q)]))
  {
    var b := t.(reservations := t.reservations + [RowOf(q)]);
    forall i, c | 0 <= i < |b.reservations| && b.reservations[i].approval in b.approvals
      && b.reservations[i].state != Released
      && Applies(b.approvals[b.reservations[i].approval].terms.limits, c, b.reservations[i].values)
      ensures WindowHolds(b, b.reservations[i].approval, b.reservations[i].at, c)
    {
      var id, at := b.reservations[i].approval, b.reservations[i].at;
      var scope := Window(Lineage(t.approvals, id), at, c.durationMs);
      UsedAppend(c.measure, scope, t.reservations, RowOf(q));
      if i == |t.reservations| {
        ChargeFitsWindow(t, q, c);
      } else {
        assert WindowHolds(t, id, at, c);
        if Charge(c.measure, scope, RowOf(q)) != 0 {
          NewChargeInOldWindow(t, q, i, c);
          ChargeFitsWindow(t, q, c);
        }
      }
    }
  }

  lemma ChargeKeepsLedger(t: Tables, q: ReservationRequest)
    requires RenewalInv(t) && LedgerInv(t) && Admitted(t, q)
    ensures LedgerInv(t.(reservations := t.reservations + [RowOf(q)]))
  {
    ChargeKeepsLifetime(t, q);
    ChargeKeepsWindows(t, q);
    ChargeKeepsShape(t, q);
  }

  lemma ChargeKeepsShape(t: Tables, q: ReservationRequest)
    requires ActivatedOnce(t.approvals) && KeysUnique(t.reservations) && OwnersActivated(t) && ClockInv(t) && Admitted(t, q)
    ensures var b := t.(reservations := t.reservations + [RowOf(q)]);
      KeysUnique(b.reservations) && OwnersActivated(b) && ClockInv(b)
  {
    var b := t.(reservations := t.reservations + [RowOf(q)]);
    ChargeKeepsKeys(t.reservations, q);
    forall i | 0 <= i < |b.reservations|
      ensures Activated(b.approvals, b.reservations[i].approval)
    {
      if i < |t.reservations| {
        assert b.reservations[i] == t.reservations[i];
      }
    }
    ChargeKeepsClock(t, q);
  }

  lemma ChargeKeepsKeys(rows: seq<Reservation>, q: ReservationRequest)
    requires KeysUnique(rows)
    requires forall j :: 0 <= j < |rows| ==> rows[j].approval != q.approval || rows[j].operation != q.operation
    ensures KeysUnique(rows + [RowOf(q)])
  {
  }

  lemma ChargeKeepsClock(t: Tables, q: ReservationRequest)
    requires ClockInv(t) && q.approval in t.approvals
    requires ClockCheck(t.clock, q.at, TrustedTimeRequired(LimitsOf(t.approvals[q.approval].terms.limits))).Ok?
    ensures ClockInv(t.(reservations := t.reservations + [RowOf(q)]))
  {
    var b := t.(reservations := t.reservations + [RowOf(q)]);
    forall i | 0 <= i < |b.reservations| && b.reservations[i].approval in b.approvals
      && TrustedTimeRequired(LimitsOf(b.approvals[b.reservations[i].approval].terms.limits))
      ensures b.clock.Some? && b.reservations[i].at <= b.clock.value.effectiveMs
    {
      if i < |t.reservations| {
        assert b.reservations[i] == t.reservations[i];
      }
    }
  }

  // -------------------------------------------------------------------- runs

  lemma SpendKeepsLedger(t: Tables, q: AuthorizeRequest)
    requires RenewalInv(t) && LedgerInv(t) && Authorize(t, q).Ok?
    ensures LedgerInv(Authorize(t, q).value)
  {
    SpendAdmits(t, q);
    if Authorize(t, q).value != t {
      ChargeKeepsLedger(t, ChargeOf(t.approvals[q.approval].terms.limits, q).value);
    }
  }

  lemma LedgerStep(t: Tables, step: Step)
    requires RenewalInv(t) && LedgerInv(t)
    ensures LedgerInv(Next(t, step))
  {
    if step.Spend? && Try(t, step).Ok? {
      SpendKeepsLedger(t, step.spend);
    } else if !step.Spend? {
      StepExtends(t, step);
      OnlySpendAddsRows(t, step);
      LedgerCarries(t, Next(t, step));
    }
  }

  lemma OnlySpendAddsRows(t: Tables, step: Step)
    requires !step.Spend?
    ensures |Next(t, step).reservations| == |t.reservations|
  {
    Frame(t, step);
  }

  lemma {:induction false} LedgerRun(t: Tables, steps: seq<Step>)
    requires RenewalInv(t) && LedgerInv(t)
    ensures RenewalInv(Run(t, steps)) && LedgerInv(Run(t, steps))
  {
    if steps != [] {
      var last := |steps| - 1;
      LedgerRun(t, steps[..last]);
      RenewalStep(Run(t, steps[..last]), steps[last]);
      LedgerStep(Run(t, steps[..last]), steps[last]);
    }
  }

  lemma LedgerReachable(t: Tables)
    requires Reachable(t)
    ensures RenewalInv(t) && LedgerInv(t)
  {
    var steps :| Run(EMPTY, steps) == t;
    LedgerRun(EMPTY, steps);
  }

  // ---------------------------------------------------------------- theorems

  /**
    In every reachable state, for every unreleased charge of an approval at time
    t and every reviewed window of length d that the charge falls under (a value
    window when it moves that asset, a rate window always), the unreleased charges
    of the approval and everything it renews in the window ending at t stay within
    the maximum. The window is the interval (t - d, t] unless it reaches below zero
    and something was charged at time zero.
  */
  lemma WindowsHoldAcrossRenewals(t: Tables, i: nat, c: Cap)
    requires Reachable(t) && i < |t.reservations| && t.reservations[i].state != Released
    ensures t.reservations[i].approval in t.approvals
    ensures Applies(t.approvals[t.reservations[i].approval].terms.limits, c, t.reservations[i].values) ==>
      var ids, at := Lineage(t.approvals, t.reservations[i].approval), t.reservations[i].at;
      && Used(c.measure, Window(ids, at, c.durationMs), t.reservations) <= c.maximum
      && (at >= c.durationMs || Used(c.measure, Within(ids, -1, 0), t.reservations) == 0 ==>
            Used(c.measure, Within(ids, at - c.durationMs, at), t.reservations) <= c.maximum)
  {
    LedgerReachable(t);
    assert Activated(t.approvals, t.reservations[i].approval);
    if Applies(t.approvals[t.reservations[i].approval].terms.limits, c, t.reservations[i].values) {
      WindowInvMeans(t, i, c);
    }
  }

  lemma WindowInvMeans(t: Tables, i: nat, c: Cap)
    requires WindowInv(t) && i < |t.reservations| && t.reservations[i].state != Released
    requires t.reservations[i].approval in t.approvals
    requires Applies(t.approvals[t.reservations[i].approval].terms.limits, c, t.reservations[i].values)
    ensures var ids, at := Lineage(t.approvals, t.reservations[i].approval), t.reservations[i].at;
      && Used(c.measure, Window(ids, at, c.durationMs), t.reservations) <= c.maximum
      && (at >= c.durationMs || Used(c.measure, Within(ids, -1, 0), t.reservations) == 0 ==>
            Used(c.measure, Within(ids, at - c.durationMs, at), t.reservations) <= c.maximum)
  {
    var id, at := t.reservations[i].approval, t.reservations[i].at;
    assert WindowHolds(t, id, at, c);
    SaturatedWindowExact(c.measure, Lineage(t.approvals, id), at, c.durationMs, t.reservations);
  }

  /** What the source does not look at: a value window at a charge that does not move the asset. */
  predicate Overlooked(c: Cap, values: map<string, nat>)
  {
    c.measure.Value? && c.measure.asset !in values
  }

  /** The lineage's use of the window a charge of `id` at `at` would end. */
  function UsedBefore(t: Tables, id: string, at: nat, c: Cap): nat
  {
    Used(c.measure, Window(Lineage(t.approvals, id), at, c.durationMs), t.reservations)
  }

  lemma ChargeWindowExact(t: Tables, q: ReservationRequest, c: Cap)
    requires Admitted(t, q) && Imposes(t.approvals[q.approval].terms.limits, c)
    ensures WindowHolds(t.(reservations := t.reservations + [RowOf(q)]), q.approval, q.at, c)
       <==> !Overlooked(c, q.values) || UsedBefore(t, q.approval, q.at, c) <= c.maximum
  {
    var scope := Window(Lineage(t.approvals, q.approval), q.at, c.durationMs);
    UsedAppend(c.measure, scope, t.reservations, RowOf(q));
    if !Overlooked(c, q.values) {
      ChargeFitsWindow(t, q, c);
    }
  }

  /** A window that holds at a charge keeps holding there, whatever is charged later. */
  lemma WindowStaysAtCharge(t: Tables, q: ReservationRequest, i: nat, c: Cap)
    requires RenewalInv(t) && LedgerInv(t) && Admitted(t, q)
    requires i < |t.reservations| && Imposes(t.approvals[t.reservations[i].approval].terms.limits, c)
    requires WindowHolds(t, t.reservations[i].approval, t.reservations[i].at, c)
    ensures WindowHolds(t.(reservations := t.reservations + [RowOf(q)]), t.reservations[i].approval, t.reservations[i].at, c)
  {
    var scope := Window(Lineage(t.approvals, t.reservations[i].approval), t.reservations[i].at, c.durationMs);
    UsedAppend(c.measure, scope, t.reservations, RowOf(q));
    if Charge(c.measure, scope, RowOf(q)) != 0 {
      NewChargeInOldWindow(t, q, i, c);
      ChargeFitsWindow(t, q, c);
    }
  }

  lemma WindowStaysSettled(t: Tables, b: Tables, i: nat, c: Cap)
    requires Extends(t, b) && |b.reservations| == |t.reservations| && Ordered(t.approvals)
    requires i < |t.reservations| && t.reservations[i].approval in t.approvals
    requires WindowHolds(t, t.reservations[i].approval, t.reservations[i].at, c)
    ensures WindowHolds(b, t.reservations[i].approval, t.reservations[i].at, c)
  {
    var r := t.reservations[i];
    LineageStable(t.approvals, b.approvals, r.approval);
    SettlingUsesLess(c.measure, Window(Lineage(t.approvals, r.approval), r.at, c.durationMs), t.reservations, b.reservations);
  }

  lemma WindowStaysStep(t: Tables, step: Step, i: nat, c: Cap)
    requires RenewalInv(t) && LedgerInv(t)
    requires i < |t.reservations| && Imposes(t.approvals[t.reservations[i].approval].terms.limits, c)
    requires WindowHolds(t, t.reservations[i].approval, t.reservations[i].at, c)
    ensures WindowHolds(Next(t, step), t.reservations[i].approval, t.reservations[i].at, c)
  {
    if step.Spend? {
      if Try(t, step).Ok? {
        SpendAdmits(t, step.spend);
        if Authorize(t, step.spend).value != t {
          WindowStaysAtCharge(t, ChargeOf(t.approvals[step.spend.approval].terms.limits, step.spend).value, i, c);
        }
      }
    } else {
      StepExtends(t, step);
      OnlySpendAddsRows(t, step);
      WindowStaysSettled(t, Next(t, step), i, c);
    }
  }

  /** The charge a window was judged at, as later tables still hold it. */
  predicate SameCharge(t: Tables, b: Tables, i: nat)
    requires i < |t.reservations| && t.reservations[i].approval in t.approvals
  {
    && i < |b.reservations|
    && b.reservations[i].approval == t.reservations[i].approval && b.reservations[i].at == t.reservations[i].at
    && t.reservations[i].approval in b.approvals
    && b.approvals[t.reservations[i].approval].terms == t.approvals[t.reservations[i].approval].terms
  }

  lemma SameChargeStays(t: Tables, b: Tables, i: nat)
    requires Extends(t, b) && i < |t.reservations| && t.reservations[i].approval in t.approvals
    ensures SameCharge(t, b, i)
  {
    assert ReservationExtends(t.reservations[i], b.reservations[i]);
    assert ApprovalExtends(t.approvals[t.reservations[i].approval], b.approvals[t.reservations[i].approval]);
  }

  lemma {:induction false} WindowStays(t: Tables, more: seq<Step>, i: nat, c: Cap)
    requires RenewalInv(t) && LedgerInv(t)
    requires i < |t.reservations| && Imposes(t.approvals[t.reservations[i].approval].terms.limits, c)
    requires WindowHolds(t, t.reservations[i].approval, t.reservations[i].at, c)
    ensures WindowHolds(Run(t, more), t.reservations[i].approval, t.reservations[i].at, c)
  {
    if more != [] {
      var front := more[..|more| - 1];
      WindowStays(t, front, i, c);
      LedgerRun(t, front);
      RunExtends(t, front);
      SameChargeStays(t, Run(t, front), i);
      WindowStaysStep(Run(t, front), more[|more| - 1], i, c);
    }
  }

  /**
    Every reviewed window at every new charge, exactly. From any reachable state,
    right after a charge each window its approval was reviewed with holds over the
    whole lineage if and only if the source looked at it or the lineage was within
    it before; and a window that holds then holds at that charge for ever.
  */
  lemma WindowsExactAtCharge(t: Tables, q: AuthorizeRequest, c: Cap, b: Tables, more: seq<Step>)
    requires Reachable(t) && Authorize(t, q) == Ok(b) && b != t
    requires Imposes(b.approvals[q.approval].terms.limits, c)
    ensures q.approval in t.approvals && ChargeOf(t.approvals[q.approval].terms.limits, q).Ok?
    ensures var values := ChargeOf(t.approvals[q.approval].terms.limits, q).value.values;
      && (WindowHolds(b, q.approval, q.at, c)
          <==> !Overlooked(c, values) || UsedBefore(t, q.approval, q.at, c) <= c.maximum)
      && (WindowHolds(b, q.approval, q.at, c) ==> WindowHolds(Run(b, more), q.approval, q.at, c))
  {
    SpendAdmits(t, q);
    ChargeWindowExact(t, ChargeOf(t.approvals[q.approval].terms.limits, q).value, c);
    LedgerReachable(t);
    SpendKeepsLedger(t, q);
    SpendKeepsRenewals(t, q);
    if WindowHolds(b, q.approval, q.at, c) {
      WindowStays(b, more, |t.reservations|, c);
    }
  }

  lemma SpendKeepsRenewals(t: Tables, q: AuthorizeRequest)
    requires RenewalInv(t) && Authorize(t, q).Ok?
    ensures RenewalInv(Authorize(t, q).value)
  {
  }

  /** Lifetime budgets hold in every reachable state. */
  lemma LifetimesHold(t: Tables, id: string)
    requires Reachable(t) && id in t.approvals
    ensures WithinLifetime(t.reservations, id, t.approvals[id].terms.limits)
    ensures KeysUnique(t.reservations)
  {
    LedgerReachable(t);
  }

  /** The published counters of an approval partition its charges and never saturate. */
  method LimitStateOf(t: Tables, id: string) returns (l: LimitState)
    requires Reachable(t) && id in t.approvals
    ensures l.committedOperations + l.reservedOperations + l.quarantinedOperations
         == Used(Operations, Ever(id), t.reservations) <= t.approvals[id].terms.limits.maxOperations
    ensures l.committedSignatures + l.reservedSignatures + l.quarantinedSignatures
         == Used(Signatures, Ever(id), t.reservations) <= t.approvals[id].terms.limits.maxSignatures
    ensures Partitions(l, id, t.reservations)
  {
    LifetimesHold(t, id);
    LedgerPartition(Operations, id, t.reservations);
    LedgerPartition(Signatures, id, t.reservations);
    l := ApprovalLimitState(t.reservations, id);
    FittingCountersPartition(l, id, t.reservations);
  }
}
