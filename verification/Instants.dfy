/**
  Sliding windows at every instant, not only at the instants of charges, for an
  approval by itself and for its whole lineage; and the reachable tables that show
  why each condition on them is needed.
*/
module Instants {
  import opened Wrappers
  import opened Accounting
  import opened Budget
  import opened Tables
  import opened History
  import opened Renewals
  import opened Limits
  import opened Scenarios

  // ---------------------------------------------------------- every instant

  lemma RowCharges(m: Measure, scope: Scope, rows: seq<Reservation>, j: nat)
    requires j < |rows|
    ensures Charge(m, scope, rows[j]) <= Used(m, scope, rows)
  {
    assert rows[..j + 1] == rows[..j] + [rows[j]];
    UsedAppend(m, scope, rows[..j], rows[j]);
    UsedPrefix(m, scope, rows, j + 1);
  }

  /** Whatever is used was last used by some row. */
  lemma {:induction false} LatestCharge(m: Measure, scope: Scope, rows: seq<Reservation>) returns (i: nat)
    requires Used(m, scope, rows) != 0
    ensures i < |rows| && Charge(m, scope, rows[i]) != 0
    ensures forall j :: 0 <= j < |rows| && Charge(m, scope, rows[j]) != 0 ==> rows[j].at <= rows[i].at
  {
    var n := |rows| - 1;
    if Used(m, scope, rows[..n]) == 0 {
      i := n;
      forall j | 0 <= j < n ensures Charge(m, scope, rows[j]) == 0 {
        RowCharges(m, scope, rows[..n], j);
      }
    } else {
      i := LatestCharge(m, scope, rows[..n]);
      assert forall j :: 0 <= j < n ==> rows[..n][j] == rows[j];
      if Charge(m, scope, rows[n]) != 0 && rows[n].at > rows[i].at {
        i := n;
      }
    }
  }

  /** A window that ends at the latest charge inside it holds everything the window held. */
  lemma WindowOfLatest(m: Measure, some: set<string>, ids: set<string>, at: nat, d: nat, rows: seq<Reservation>, i: nat)
    requires some <= ids && i < |rows| && rows[i].at <= at
    requires forall j :: 0 <= j < |rows| && Charge(m, Window(some, at, d), rows[j]) != 0 ==> rows[j].at <= rows[i].at
    ensures Used(m, Window(some, at, d), rows) <= Used(m, Window(ids, rows[i].at, d), rows)
  {
    UsedPointwise(m, Window(some, at, d), Window(ids, rows[i].at, d), rows, rows);
  }

  lemma SelfInLineage(approvals: map<string, Approval>, id: string)
    ensures id in Lineage(approvals, id)
  {
  }

  /**
    In every reachable state, for every approval, every window reviewed for it
    and every instant whatever, the approval's unreleased charges in the window
    ending at that instant stay within the maximum.
  */
  lemma WindowsHoldAtEveryInstant(t: Tables, id: string, c: Cap, at: nat)
    requires Reachable(t) && id in t.approvals && Imposes(t.approvals[id].terms.limits, c)
    ensures Used(c.measure, Window({id}, at, c.durationMs), t.reservations) <= c.maximum
    ensures at >= c.durationMs || Used(c.measure, Within({id}, -1, 0), t.reservations) == 0 ==>
      Used(c.measure, Within({id}, at - c.durationMs, at), t.reservations) <= c.maximum
  {
    var rows, scope := t.reservations, Window({id}, at, c.durationMs);
    if Used(c.measure, scope, rows) != 0 {
      var i := LatestCharge(c.measure, scope, rows);
      WindowsHoldAcrossRenewals(t, i, c);
      SelfInLineage(t.approvals, id);
      WindowOfLatest(c.measure, {id}, Lineage(t.approvals, id), at, c.durationMs, rows, i);
    }
    SaturatedWindowExact(c.measure, {id}, at, c.durationMs, rows);
  }

  // ------------------------------------------------------ the whole lineage

  /** Ancestors were all charged before any charge of what renews them. */
  ghost predicate AncestorsFirst(t: Tables)
  {
    forall i, j ::
      (&& 0 <= i < |t.reservations| && 0 <= j < |t.reservations|
       && t.reservations[j].approval != t.reservations[i].approval
       && t.reservations[j].approval in Lineage(t.approvals, t.reservations[i].approval)) ==> j < i
  }

  lemma ChargeKeepsAncestorsFirst(t: Tables, q: ReservationRequest)
    requires RenewalInv(t) && OwnersActivated(t) && AncestorsFirst(t) && Admitted(t, q)
    ensures AncestorsFirst(t.(reservations := t.reservations + [RowOf(q)]))
  {
    var b := t.(reservations := t.reservations + [RowOf(q)]);
    forall i, j | 0 <= i < |b.reservations| && 0 <= j < |b.reservations|
      && b.reservations[j].approval != b.reservations[i].approval
      && b.reservations[j].approval in Lineage(b.approvals, b.reservations[i].approval)
      ensures j < i
    {
      if i < |t.reservations| && j == |t.reservations| {
        AncestorsRetired(t.approvals, t.reservations[i].approval, q.approval);
        assert false;
      }
    }
  }

  lemma SettlingKeepsAncestorsFirst(t: Tables, b: Tables)
    requires Extends(t, b) && |b.reservations| == |t.reservations|
    requires Ordered(t.approvals) && OwnersActivated(t) && AncestorsFirst(t)
    ensures AncestorsFirst(b)
  {
    forall i | 0 <= i < |b.reservations|
      ensures b.reservations[i].approval == t.reservations[i].approval
      ensures Lineage(b.approvals, b.reservations[i].approval) == Lineage(t.approvals, t.reservations[i].approval)
    {
      assert ReservationExtends(t.reservations[i], b.reservations[i]);
      assert Activated(t.approvals, t.reservations[i].approval);
      LineageStable(t.approvals, b.approvals, t.reservations[i].approval);
    }
  }

  /** From row `n` on, rows are in clock order and none is ahead of the clock. */
  predicate ClockedFrom(t: Tables, n: nat)
  {
    && t.clock.Some? && n <= |t.reservations|
    && (forall i, j :: n <= i <= j < |t.reservations| ==> t.reservations[i].at <= t.reservations[j].at)
    && (forall i :: n <= i < |t.reservations| ==> t.reservations[i].at <= t.clock.value.effectiveMs)
  }

  lemma ChargeKeepsClocked(t: Tables, q: ReservationRequest, n: nat)
    requires ClockedFrom(t, n) && Admitted(t, q)
    ensures ClockedFrom(t.(reservations := t.reservations + [RowOf(q)]), n)
  {
  }

  lemma SettlingKeepsClocked(t: Tables, b: Tables, n: nat)
    requires Extends(t, b) && |b.reservations| == |t.reservations| && ClockedFrom(t, n)
    ensures ClockedFrom(b, n)
  {
    forall i | 0 <= i < |b.reservations| ensures b.reservations[i].at == t.reservations[i].at {
      assert ReservationExtends(t.reservations[i], b.reservations[i]);
    }
  }

  lemma OrderStep(t: Tables, step: Step, n: nat)
    requires RenewalInv(t) && LedgerInv(t) && AncestorsFirst(t)
    ensures AncestorsFirst(Next(t, step))
    ensures ClockedFrom(t, n) ==> ClockedFrom(Next(t, step), n)
  {
    if step.Spend? {
      if Try(t, step).Ok? {
        SpendAdmits(t, step.spend);
        if Authorize(t, step.spend).value != t {
          var charge := ChargeOf(t.approvals[step.spend.approval].terms.limits, step.spend).value;
          ChargeKeepsAncestorsFirst(t, charge);
          if ClockedFrom(t, n) {
            ChargeKeepsClocked(t, charge, n);
          }
        }
      }
    } else {
      StepExtends(t, step);
      OnlySpendAddsRows(t, step);
      SettlingKeepsAncestorsFirst(t, Next(t, step));
      if ClockedFrom(t, n) {
        SettlingKeepsClocked(t, Next(t, step), n);
      }
    }
  }

  lemma {:induction false} OrderRun(t: Tables, steps: seq<Step>, n: nat)
    requires RenewalInv(t) && LedgerInv(t) && AncestorsFirst(t)
    ensures AncestorsFirst(Run(t, steps))
    ensures ClockedFrom(t, n) ==> ClockedFrom(Run(t, steps), n)
  {
    if steps != [] {
      var front := steps[..|steps| - 1];
      OrderRun(t, front, n);
      LedgerRun(t, front);
      OrderStep(Run(t, front), steps[|steps| - 1], n);
    }
  }

  lemma AncestorsFirstReachable(t: Tables)
    requires Reachable(t)
    ensures AncestorsFirst(t)
  {
    var steps :| Run(EMPTY, steps) == t;
    OrderRun(EMPTY, steps, 0);
  }

  /** Under a clock, the lineage's charges in a window are no later than the latest own charge in it. */
  lemma OwnChargeIsLatest(t: Tables, n: nat, id: string, m: Measure, at: nat, d: nat, i: nat)
    requires AncestorsFirst(t) && ClockedFrom(t, n) && i < |t.reservations| && t.reservations[i].approval == id
    requires forall j :: 0 <= j < n ==> t.reservations[j].approval !in Lineage(t.approvals, id)
    requires id in Lineage(t.approvals, id)
    requires forall j :: 0 <= j < |t.reservations| && Charge(m, Window({id}, at, d), t.reservations[j]) != 0 ==>
      t.reservations[j].at <= t.reservations[i].at
    ensures forall j :: 0 <= j < |t.reservations| && Charge(m, Window(Lineage(t.approvals, id), at, d), t.reservations[j]) != 0 ==>
      t.reservations[j].at <= t.reservations[i].at
  {
    forall j | 0 <= j < |t.reservations| && Charge(m, Window(Lineage(t.approvals, id), at, d), t.reservations[j]) != 0
      ensures t.reservations[j].at <= t.reservations[i].at
    {
      if t.reservations[j].approval == id {
        assert Charge(m, Window({id}, at, d), t.reservations[j]) != 0;
      } else {
        assert j < i && n <= j;
      }
    }
  }

  /** A cap kept by a set of approvals at one instant. */
  predicate KeptAt(rows: seq<Reservation>, ids: set<string>, c: Cap, at: nat)
  {
    Used(c.measure, Window(ids, at, c.durationMs), rows) <= c.maximum
  }

  /** A row of these approvals that counts for the measure. */
  predicate Weighs(rows: seq<Reservation>, ids: set<string>, m: Measure, i: nat)
    requires i < |rows|
  {
    rows[i].approval in ids && rows[i].state in UNRELEASED && Weight(m, rows[i]) != 0
  }

  /** On any ledger: a cap is kept at every instant if and only if it is kept at the instant of every charge. */
  lemma InstantsAreCharges(rows: seq<Reservation>, ids: set<string>, c: Cap)
    ensures (forall at: nat :: KeptAt(rows, ids, c, at))
       <==> forall i :: 0 <= i < |rows| && Weighs(rows, ids, c.measure, i) ==> KeptAt(rows, ids, c, rows[i].at)
  {
    if forall i :: 0 <= i < |rows| && Weighs(rows, ids, c.measure, i) ==> KeptAt(rows, ids, c, rows[i].at) {
      forall at: nat ensures KeptAt(rows, ids, c, at) {
        if Used(c.measure, Window(ids, at, c.durationMs), rows) != 0 {
          var i := LatestCharge(c.measure, Window(ids, at, c.durationMs), rows);
          assert Weighs(rows, ids, c.measure, i);
          WindowOfLatest(c.measure, ids, ids, at, c.durationMs, rows, i);
        }
      }
    }
  }

  /** An approval's own charges keep its windows over the lineage, so only its ancestors' instants are left to look at. */
  lemma OwnInstantsKept(t: Tables, id: string, c: Cap, i: nat)
    requires Reachable(t) && id in t.approvals && Imposes(t.approvals[id].terms.limits, c)
    requires i < |t.reservations| && Weighs(t.reservations, {id}, c.measure, i)
    ensures KeptAt(t.reservations, Lineage(t.approvals, id), c, t.reservations[i].at)
  {
    WindowsHoldAcrossRenewals(t, i, c);
  }

  /**
    Exactly when the whole lineage keeps a reviewed window at every instant. In
    every reachable state it does if and only if it keeps it at the instants at
    which its ancestors were charged.
  */
  lemma LineageInstantsExact(t: Tables, id: string, c: Cap)
    requires Reachable(t) && id in t.approvals && Imposes(t.approvals[id].terms.limits, c)
    ensures var ids := Lineage(t.approvals, id);
      (forall at: nat :: KeptAt(t.reservations, ids, c, at))
      <==> forall i :: 0 <= i < |t.reservations| && Weighs(t.reservations, ids - {id}, c.measure, i) ==>
             KeptAt(t.reservations, ids, c, t.reservations[i].at)
  {
    var rows, ids := t.reservations, Lineage(t.approvals, id);
    InstantsAreCharges(rows, ids, c);
    if forall i :: 0 <= i < |rows| && Weighs(rows, ids - {id}, c.measure, i) ==> KeptAt(rows, ids, c, rows[i].at) {
      forall i | 0 <= i < |rows| && Weighs(rows, ids, c.measure, i) ensures KeptAt(rows, ids, c, rows[i].at) {
        if rows[i].approval == id {
          OwnInstantsKept(t, id, c, i);
        } else {
          assert Weighs(rows, ids - {id}, c.measure, i);
        }
      }
    }
  }

  /**
    One instant by itself, with no word about the clock: where a charge of the
    approval is the latest of its lineage's charges in the window, the lineage
    keeps the window.
  */
  lemma LineageHoldsAfterOwnCharge(t: Tables, id: string, c: Cap, at: nat, i: nat)
    requires Reachable(t) && id in t.approvals && Imposes(t.approvals[id].terms.limits, c)
    requires i < |t.reservations| && Weighs(t.reservations, {id}, c.measure, i) && t.reservations[i].at <= at
    requires forall j ::
      0 <= j < |t.reservations| && Charge(c.measure, Window(Lineage(t.approvals, id), at, c.durationMs), t.reservations[j]) != 0 ==>
        t.reservations[j].at <= t.reservations[i].at
    ensures KeptAt(t.reservations, Lineage(t.approvals, id), c, at)
  {
    OwnInstantsKept(t, id, c, i);
    var ids := Lineage(t.approvals, id);
    WindowOfLatest(c.measure, ids, ids, at, c.durationMs, t.reservations, i);
  }

  /**
    A case that needs no look at the ledger: when the durable clock was initialized
    before anything of the lineage was charged, the lineage keeps every reviewed
    window at every instant whose window holds a charge of the approval itself.
  */
  lemma LineageHoldsAtEveryInstant(t0: Tables, more: seq<Step>, t: Tables, id: string, c: Cap, at: nat)
    requires Reachable(t0) && t0.clock.Some? && t == Run(t0, more)
    requires id in t.approvals && Imposes(t.approvals[id].terms.limits, c)
    requires forall j :: 0 <= j < |t0.reservations| ==> t0.reservations[j].approval !in Lineage(t.approvals, id)
    requires Used(c.measure, Window({id}, at, c.durationMs), t.reservations) != 0
    ensures KeptAt(t.reservations, Lineage(t.approvals, id), c, at)
  {
    LineageOrder(t0, more, t, id);
    SelfInLineage(t.approvals, id);
    var i := LatestCharge(c.measure, Window({id}, at, c.durationMs), t.reservations);
    OwnChargeIsLatest(t, |t0.reservations|, id, c.measure, at, c.durationMs, i);
    RunReaches(t0, more);
    LineageHoldsAfterOwnCharge(t, id, c, at, i);
  }

  lemma LineageOrder(t0: Tables, more: seq<Step>, t: Tables, id: string)
    requires Reachable(t0) && t0.clock.Some? && t == Run(t0, more)
    requires forall j :: 0 <= j < |t0.reservations| ==> t0.reservations[j].approval !in Lineage(t.approvals, id)
    ensures AncestorsFirst(t) && ClockedFrom(t, |t0.reservations|)
    ensures forall j :: 0 <= j < |t0.reservations| ==> t.reservations[j].approval !in Lineage(t.approvals, id)
  {
    LedgerReachable(t0);
    AncestorsFirstReachable(t0);
    OrderRun(t0, more, |t0.reservations|);
    RunExtends(t0, more);
    forall j | 0 <= j < |t0.reservations| ensures t.reservations[j].approval == t0.reservations[j].approval {
      assert ReservationExtends(t0.reservations[j], t.reservations[j]);
    }
  }

  lemma RunReaches(t: Tables, more: seq<Step>)
    requires Reachable(t)
    ensures Reachable(Run(t, more))
  {
    var steps :| Run(EMPTY, steps) == t;
    RunConcat(EMPTY, steps, more);
  }

  // -------------------------------------------------------------- time zero

  /** Limits with one window: a single operation in `d` milliseconds. */
  function OncePer(d: U64): ApprovalLimits
  {
    ApprovalLimits(U64_MAX, U64_MAX, [SlidingWindow(1, d)], [], [])
  }

  lemma OncePerLimits(d: U64)
    requires d != 0
    ensures ValidLimits(OncePer(d)) && Imposes(OncePer(d), Cap(Operations, 1, d))
    ensures LimitsOf(OncePer(d)) == BudgetLimits(U64_MAX, U64_MAX, [SlidingBudgetLimit(1, U64_MAX, d)], map[], [])
  {
    var l := OncePer(d);
    assert l.operationRates[0] == SlidingWindow(1, d);
    var cap := SlidingBudgetLimit(1, U64_MAX, d);
    assert Caps(l) == [cap];
    assert [cap][..0] == [];
    assert Fold([cap]) == Tighten([], cap) == [cap];
  }

  function Name(n: nat): string
  {
    if n == 0 then "" else Name(n - 1) + "x"
  }

  lemma {:induction false} NameLength(n: nat)
    ensures |Name(n)| == n
  {
    if n > 0 {
      NameLength(n - 1);
    }
  }

  /** One active approval at clock zero with `n` charges, all at time zero. */
  ghost predicate AtZero(t: Tables, d: U64, n: nat)
  {
    && Open(t)
    && t.clock == Some(Clock(0, Healthy))
    && t.approvals == map[ROOT := RootIn(OncePer(d), Active)]
    && |t.reservations| == n
    && ZeroRows(t.reservations)
  }

  predicate ZeroRows(rows: seq<Reservation>)
  {
    forall i :: 0 <= i < |rows| ==> rows[i] == RowOf(Charging(ROOT, Name(i), 0, map[]))
  }

  lemma {:induction false} ZeroUsed(rows: seq<Reservation>, d: nat)
    requires ZeroRows(rows)
    ensures Used(Operations, Ever(ROOT), rows) == |rows|
    ensures Used(Signatures, Ever(ROOT), rows) == |rows|
    ensures forall m, ids :: Used(m, Window(ids, 0, d), rows) == 0
    ensures d != 0 ==> Used(Operations, Within({ROOT}, 0 - d, 0), rows) == |rows|
  {
    if rows != [] {
      ZeroUsed(rows[..|rows| - 1], d);
    }
  }

  lemma {:induction false} ZeroVerdict(rows: seq<Reservation>, d: U64, ids: set<string>)
    requires d != 0 && |rows| < U64_MAX && ZeroRows(rows)
    ensures Verdict(rows, ids, Charging(ROOT, Name(|rows|), 0, map[]), LimitsOf(OncePer(d))) == Ok(())
  {
    OncePerLimits(d);
    ZeroUsed(rows, d);
    var limits := [SlidingBudgetLimit(1, U64_MAX, d)];
    assert RateVerdict(rows, ids, Charging(ROOT, Name(|rows|), 0, map[]), limits[1..]) == Ok(());
  }

  lemma ZeroIsNew(rows: seq<Reservation>)
    requires ZeroRows(rows)
    ensures Find(rows, ROOT, Name(|rows|)) == |rows|
  {
    NameLength(|rows|);
    forall j | 0 <= j < |rows| ensures rows[j].operation != Name(|rows|) {
      NameLength(j);
    }
  }

  lemma ZeroMore(t: Tables, d: U64, n: nat) returns (b: Tables)
    requires Reachable(t) && AtZero(t, d, n) && d != 0 && n < U64_MAX
    ensures Reachable(b) && AtZero(b, d, n + 1)
  {
    ZeroVerdict(t.reservations, d, Lineage(t.approvals, ROOT));
    ZeroIsNew(t.reservations);
    b := ChargeOnce(t, ROOT, Name(n), 0, NoClaim, map[]);
  }

  lemma {:induction false} ZeroMany(d: U64, n: nat) returns (t: Tables)
    requires d != 0 && n <= U64_MAX
    ensures Reachable(t) && AtZero(t, d, n)
  {
    if n == 0 {
      OncePerLimits(d);
      var start := Start();
      var clocked := Tick(start, 0);
      t := Root(clocked, OncePer(d));
    } else {
      var before := ZeroMany(d, n - 1);
      t := ZeroMore(before, d, n - 1);
    }
  }

  /**
    Why the condition on time zero is needed: with one operation per `d`
    milliseconds reviewed and the durable clock at zero, any number of
    operations is charged, and all of them lie in the interval `(-d, 0]`.
  */
  lemma ChargesAtZeroEscape(d: U64, n: nat) returns (t: Tables)
    requires d != 0 && n <= U64_MAX
    ensures Reachable(t) && ROOT in t.approvals
    ensures Imposes(t.approvals[ROOT].terms.limits, Cap(Operations, 1, d))
    ensures Used(Operations, Within({ROOT}, 0 - d, 0), t.reservations) == n
  {
    OncePerLimits(d);
    t := ZeroMany(d, n);
    ZeroUsed(t.reservations, d);
  }

  // ------------------------------------------------------- an unmoved asset

  const COIN: string := AssetId(Asset("chain", "coin"))

  /** Limits with one rolling value window: `maximum` of one asset in 5 milliseconds. */
  function Rolls(maximum: nat): ApprovalLimits
  {
    ApprovalLimits(U64_MAX, U64_MAX, [], [], [ValueLimit(COIN, maximum, [ValueWindow(maximum, 5)])])
  }

  lemma RollsLimits(maximum: nat)
    ensures ValidLimits(Rolls(maximum)) && Imposes(Rolls(maximum), Cap(Value(COIN), maximum, 5))
    ensures LimitsOf(Rolls(maximum))
         == BudgetLimits(U64_MAX, U64_MAX, [], map[COIN := maximum], [SlidingValueLimit(COIN, maximum, 5)])
  {
    var v := ValueLimit(COIN, maximum, [ValueWindow(maximum, 5)]);
    assert Rolls(maximum).values[0] == v && v.rolling[0] == ValueWindow(maximum, 5);
    assert Caps(Rolls(maximum)) == [];
    assert [v][..0] == [];
    assert Effective([v]) == map[COIN := maximum];
    assert RollingOf(v) == [SlidingValueLimit(COIN, maximum, 5)];
    assert Rolling([v]) == Rolling([]) + RollingOf(v);
  }

  function Moves(amount: nat): Claim
  {
    Claim([Debit(COIN, amount)], None, NoFee)
  }

  lemma MovesDeclared(amount: nat)
    requires amount < U256_MODULUS
    ensures DeclaredValues(Rolls(amount).values, Moves(amount)) == Ok(map[COIN := amount])
  {
    var es := [Debit(COIN, amount)];
    var vs := Rolls(amount).values;
    assert es[..0] == [] && vs[..0] == [];
    assert Declared(es, COIN) == amount;
    assert Effective(vs) == map[COIN := amount];
    assert Totals(es) == map[COIN := amount];
  }

  lemma RootVerdict(amount: nat, ids: set<string>)
    ensures Verdict([], ids, Charging(ROOT, "one", 10, map[COIN := amount]), LimitsOf(Rolls(amount))) == Ok(())
  {
    RollsLimits(amount);
    var q, ls := Charging(ROOT, "one", 10, map[COIN := amount]), [SlidingValueLimit(COIN, amount, 5)];
    assert RollingVerdict([], ids, q, ls[1..]) == Ok(());
  }

  lemma RootMoves(t: Tables, amount: nat) returns (b: Tables)
    requires Reachable(t) && Open(t) && t.clock == Some(Clock(10, Healthy)) && t.reservations == []
    requires t.approvals == map[ROOT := RootIn(Rolls(amount), Active)] && amount < U256_MODULUS
    ensures Reachable(b) && b == t.(reservations := [RowOf(Charging(ROOT, "one", 10, map[COIN := amount]))])
  {
    MovesDeclared(amount);
    RootVerdict(amount, Lineage(t.approvals, ROOT));
    b := ChargeOnce(t, ROOT, "one", 10, Moves(amount), map[COIN := amount]);
    assert [] + [RowOf(Charging(ROOT, "one", 10, map[COIN := amount]))] == [RowOf(Charging(ROOT, "one", 10, map[COIN := amount]))];
  }

  lemma RenewalVerdict(rows: seq<Reservation>, amount: nat, maximum: nat, ids: set<string>)
    requires rows == [RowOf(Charging(ROOT, "one", 10, map[COIN := amount]))]
    ensures Verdict(rows, ids, Charging(RENEWAL, "two", 10, map[]), LimitsOf(Rolls(maximum))) == Ok(())
    ensures Find(rows, RENEWAL, "two") == 1
  {
    NamesDiffer();
    RollsLimits(maximum);
    var q, ls := Charging(RENEWAL, "two", 10, map[]), [SlidingValueLimit(COIN, maximum, 5)];
    assert rows[1..] == [];
    OneRow(Operations, Ever(RENEWAL), rows[0]);
    OneRow(Signatures, Ever(RENEWAL), rows[0]);
    assert RollingVerdict(rows, ids, q, ls[1..]) == Ok(());
  }

  lemma RenewalMovesNothing(t: Tables, amount: nat, maximum: nat) returns (b: Tables)
    requires Reachable(t) && Open(t) && t.clock == Some(Clock(10, Healthy))
    requires t.reservations == [RowOf(Charging(ROOT, "one", 10, map[COIN := amount]))]
    requires t.approvals == map[ROOT := RootIn(Rolls(amount), Revoked), RENEWAL := RenewalIn(Rolls(maximum))]
    ensures Reachable(b) && b == t.(reservations := t.reservations + [RowOf(Charging(RENEWAL, "two", 10, map[]))])
  {
    NamesDiffer();
    RenewalVerdict(t.reservations, amount, maximum, Lineage(t.approvals, RENEWAL));
    b := ChargeOnce(t, RENEWAL, "two", 10, NoClaim, map[]);
  }

  /**
    Why value windows are only claimed at charges that move the asset: an approval
    that may move at most `maximum` of an asset in 5 milliseconds renews one that
    has just moved `amount` of it, and a charge that moves nothing is accepted
    inside that window, however far `amount` is above `maximum`.
  */
  lemma UnmovedAssetEscapes(amount: nat, maximum: nat) returns (t: Tables)
    requires maximum < amount < U256_MODULUS
    ensures Reachable(t) && RENEWAL in t.approvals && |t.reservations| == 2
    ensures Imposes(t.approvals[RENEWAL].terms.limits, Cap(Value(COIN), maximum, 5))
    ensures t.reservations[1].approval == RENEWAL && t.reservations[1].state == Reserved && t.reservations[1].at == 10
    ensures Used(Value(COIN), Within(Lineage(t.approvals, RENEWAL), 5, 10), t.reservations) == amount
  {
    t := UnmovedRun(amount, maximum);
    RollsLimits(maximum);
    RenewedLineage(t.approvals, Rolls(amount), Rolls(maximum));
    UsedByBoth(amount, t.reservations);
  }

  lemma RollsValid(maximum: nat)
    ensures ValidLimits(Rolls(maximum))
  {
  }

  lemma UnmovedRun(amount: nat, maximum: nat) returns (t: Tables)
    requires amount < U256_MODULUS
    ensures Reachable(t)
    ensures t.approvals == map[ROOT := RootIn(Rolls(amount), Revoked), RENEWAL := RenewalIn(Rolls(maximum))]
    ensures t.reservations
         == [RowOf(Charging(ROOT, "one", 10, map[COIN := amount])), RowOf(Charging(RENEWAL, "two", 10, map[]))]
  {
    RollsValid(amount);
    RollsValid(maximum);
    var start := Start();
    var clocked := Tick(start, 10);
    var root := Root(clocked, Rolls(amount));
    var moved := RootMoves(root, amount);
    var renewed := Renewed(moved, Rolls(amount), Rolls(maximum));
    t := RenewalMovesNothing(renewed, amount, maximum);
  }

  lemma OneRow(m: Measure, scope: Scope, r: Reservation)
    ensures Used(m, scope, [r]) == Charge(m, scope, r)
  {
    assert [r][..0] == [];
  }

  lemma UsedByBoth(amount: nat, rows: seq<Reservation>)
    requires rows == [RowOf(Charging(ROOT, "one", 10, map[COIN := amount])), RowOf(Charging(RENEWAL, "two", 10, map[]))]
    ensures Used(Value(COIN), Within({ROOT, RENEWAL}, 5, 10), rows) == amount
  {
    assert rows[..1] == [rows[0]];
    OneRow(Value(COIN), Within({ROOT, RENEWAL}, 5, 10), rows[0]);
  }

  // -------------------------------------------------- an unclocked ancestor

  const UNLIMITED := ApprovalLimits(U64_MAX, U64_MAX, [], [], [])

  lemma UnlimitedLimits()
    ensures ValidLimits(UNLIMITED) && LimitsOf(UNLIMITED) == BudgetLimits(U64_MAX, U64_MAX, [], map[], [])
  {
    assert Caps(UNLIMITED) == [];
  }

  lemma RootChargesUnclocked(t: Tables) returns (b: Tables)
    requires Reachable(t) && Open(t) && t.clock.None? && t.reservations == []
    requires t.approvals == map[ROOT := RootIn(UNLIMITED, Active)]
    ensures Reachable(b) && b == t.(reservations := [RowOf(Charging(ROOT, "one", 100, map[]))])
  {
    UnlimitedLimits();
    b := ChargeOnce(t, ROOT, "one", 100, NoClaim, map[]);
    assert [] + [RowOf(Charging(ROOT, "one", 100, map[]))] == [RowOf(Charging(ROOT, "one", 100, map[]))];
  }

  lemma RenewalChargesEarlier(t: Tables) returns (b: Tables)
    requires Reachable(t) && Open(t) && t.clock == Some(Clock(50, Healthy))
    requires t.reservations == [RowOf(Charging(ROOT, "one", 100, map[]))]
    requires t.approvals == map[ROOT := RootIn(UNLIMITED, Revoked), RENEWAL := RenewalIn(OncePer(60))]
    ensures Reachable(b) && b == t.(reservations := t.reservations + [RowOf(Charging(RENEWAL, "two", 50, map[]))])
  {
    NamesDiffer();
    OncePerLimits(60);
    var q := Charging(RENEWAL, "two", 50, map[]);
    var ids := Lineage(t.approvals, RENEWAL);
    var rows, ls := t.reservations, [SlidingBudgetLimit(1, U64_MAX, 60)];
    assert rows[1..] == [];
    OneRow(Operations, Ever(RENEWAL), rows[0]);
    OneRow(Signatures, Ever(RENEWAL), rows[0]);
    OneRow(Operations, Window(ids, 50, 60), rows[0]);
    OneRow(Signatures, Window(ids, 50, 60), rows[0]);
    assert RateVerdict(rows, ids, q, ls[1..]) == Ok(());
    assert Find(rows, RENEWAL, "two") == 1;
    b := ChargeOnce(t, RENEWAL, "two", 50, NoClaim, map[]);
  }

  /**
    Why the clock must come first: an ancestor charged before the durable clock was
    initialized may lie ahead of it, and at that instant the window of its renewal,
    one operation in 60 milliseconds, sees both.
  */
  lemma UnclockedAncestorEscapes() returns (t: Tables)
    ensures Reachable(t) && RENEWAL in t.approvals
    ensures Imposes(t.approvals[RENEWAL].terms.limits, Cap(Operations, 1, 60))
    ensures Used(Operations, Window({RENEWAL}, 100, 60), t.reservations) == 1
    ensures Used(Operations, Window(Lineage(t.approvals, RENEWAL), 100, 60), t.reservations) == 2
  {
    UnlimitedLimits();
    OncePerLimits(60);
    var start := Start();
    var root := Root(start, UNLIMITED);
    var charged := RootChargesUnclocked(root);
    var clocked := Tick(charged, 50);
    var renewed := Renewed(clocked, UNLIMITED, OncePer(60));
    t := RenewalChargesEarlier(renewed);
    RenewedLineage(t.approvals, UNLIMITED, OncePer(60));
    BothInWindow(t.reservations);
  }

  lemma BothInWindow(rows: seq<Reservation>)
    requires rows == [RowOf(Charging(ROOT, "one", 100, map[])), RowOf(Charging(RENEWAL, "two", 50, map[]))]
    ensures Used(Operations, Window({RENEWAL}, 100, 60), rows) == 1
    ensures Used(Operations, Window({ROOT, RENEWAL}, 100, 60), rows) == 2
  {
    NamesDiffer();
    assert rows[..1] == [rows[0]];
    OneRow(Operations, Window({RENEWAL}, 100, 60), rows[0]);
    OneRow(Operations, Window({ROOT, RENEWAL}, 100, 60), rows[0]);
  }
}
