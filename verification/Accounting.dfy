/**
  The reservation ledger of one Broker journal: rows in insertion order, and the
  one sum every limit of the source is stated with. `Used(m, scope, rows)` adds
  the weight `m` of the rows a scope selects.
*/
module Accounting {
  import opened Wrappers

  datatype ReservationState = Reserved | Committed | Released | Quarantined

  datatype Reservation = Reservation(
    approval: string,
    operation: string,
    digest: string,
    signatures: U64,
    at: U64,
    values: map<string, nat>,
    state: ReservationState)

  datatype ReservationRequest = ReservationRequest(
    approval: string,
    operation: string,
    digest: string,
    signatures: U64,
    at: U64,
    values: map<string, nat>)

  datatype SlidingBudgetLimit = SlidingBudgetLimit(maxOperations: U64, maxSignatures: U64, durationMs: U64)

  datatype SlidingValueLimit = SlidingValueLimit(asset: string, maximum: nat, durationMs: U64)

  datatype BudgetLimits = BudgetLimits(
    maxOperations: U64,
    maxSignatures: U64,
    rateLimits: seq<SlidingBudgetLimit>,
    valueLimits: map<string, nat>,
    rollingValueLimits: seq<SlidingValueLimit>)

  /** What a limit counts. */
  datatype Measure = Operations | Signatures | Value(asset: string)

  function Weight(m: Measure, r: Reservation): nat
  {
    match m
    case Operations => 1
    case Signatures => r.signatures
    case Value(asset) => if asset in r.values then r.values[asset] else 0
  }

  /** The half-open interval `(after, upTo]` of reservation times. */
  datatype Span = Span(after: int, upTo: int)

  datatype Scope = Scope(ids: set<string>, states: set<ReservationState>, span: Option<Span>)

  const UNRELEASED: set<ReservationState> := {Reserved, Committed, Quarantined}

  /** Every unreleased row of one approval. */
  function Ever(id: string): Scope
  {
    Scope({id}, UNRELEASED, None)
  }

  /** The unreleased rows of a set of approvals in `(after, upTo]`. */
  function Within(ids: set<string>, after: int, upTo: int): Scope
  {
    Scope(ids, UNRELEASED, Some(Span(after, upTo)))
  }

  predicate Counts(scope: Scope, r: Reservation)
  {
    && r.approval in scope.ids
    && r.state in scope.states
    && (scope.span.Some? ==> scope.span.value.after < r.at <= scope.span.value.upTo)
  }

  function Charge(m: Measure, scope: Scope, r: Reservation): nat
  {
    if Counts(scope, r) then Weight(m, r) else 0
  }

  function Used(m: Measure, scope: Scope, rows: seq<Reservation>): nat
  {
    if rows == [] then 0
    else Used(m, scope, rows[..|rows| - 1]) + Charge(m, scope, rows[|rows| - 1])
  }

  lemma UsedAppend(m: Measure, scope: Scope, rows: seq<Reservation>, r: Reservation)
    ensures Used(m, scope, rows + [r]) == Used(m, scope, rows) + Charge(m, scope, r)
  {
    assert (rows + [r])[..|rows|] == rows;
  }

  lemma {:induction false} UsedConcat(m: Measure, scope: Scope, a: seq<Reservation>, b: seq<Reservation>)
    ensures Used(m, scope, a + b) == Used(m, scope, a) + Used(m, scope, b)
  {
    if b == [] {
      assert a + b == a;
    } else {
      var last := |b| - 1;
      UsedConcat(m, scope, a, b[..last]);
      assert a + b == (a + b[..last]) + [b[last]];
      UsedAppend(m, scope, a + b[..last], b[last]);
    }
  }

  /** A prefix of the ledger never uses more than the whole. */
  lemma UsedPrefix(m: Measure, scope: Scope, rows: seq<Reservation>, n: nat)
    requires n <= |rows|
    ensures Used(m, scope, rows[..n]) <= Used(m, scope, rows)
  {
    assert rows == rows[..n] + rows[n..];
    UsedConcat(m, scope, rows[..n], rows[n..]);
  }

  /** Rows that charge at most as much, position by position, use at most as much. */
  lemma {:induction false} UsedPointwise(
    m: Measure, s1: Scope, s2: Scope, a: seq<Reservation>, b: seq<Reservation>)
    requires |a| == |b|
    requires forall i :: 0 <= i < |a| ==> Charge(m, s1, a[i]) <= Charge(m, s2, b[i])
    ensures Used(m, s1, a) <= Used(m, s2, b)
  {
    if a != [] {
      var last := |a| - 1;
      UsedPointwise(m, s1, s2, a[..last], b[..last]);
    }
  }

  // ---------------------------------------------------------------- verdicts

  function Lifetime(rows: seq<Reservation>, q: ReservationRequest, limits: BudgetLimits): Result<()>
  {
    var operations := Used(Operations, Ever(q.approval), rows);
    var signatures := Used(Signatures, Ever(q.approval), rows);
    if signatures > U64_MAX then Err(LimitExceededSignatures)
    else if operations + 1 > limits.maxOperations then Err(LimitExceededOperations)
    else if signatures + q.signatures > limits.maxSignatures then Err(LimitExceededSignatures)
    else Ok(())
  }

  /** The rows a sliding limit of length `d` looks at when a request arrives at `at`. */
  function Window(ids: set<string>, at: nat, d: nat): Scope
  {
    Within(ids, SaturatingSub(at, d), at)
  }

  predicate RateAdmits(rows: seq<Reservation>, ids: set<string>, q: ReservationRequest, l: SlidingBudgetLimit)
  {
    && Used(Operations, Window(ids, q.at, l.durationMs), rows) + 1 <= l.maxOperations
    && Used(Signatures, Window(ids, q.at, l.durationMs), rows) + q.signatures <= l.maxSignatures
  }

  predicate Positive(l: SlidingBudgetLimit)
  {
    l.durationMs != 0 && l.maxOperations != 0 && l.maxSignatures != 0
  }

  /** The first limit that refuses decides the error. */
  function RateVerdict(
    rows: seq<Reservation>, ids: set<string>, q: ReservationRequest, limits: seq<SlidingBudgetLimit>): Result<()>
  {
    if limits == [] then Ok(())
    else if !Positive(limits[0]) then Err(BackendInvalidRequest)
    else if !RateAdmits(rows, ids, q, limits[0]) then Err(LimitExceededRate)
    else RateVerdict(rows, ids, q, limits[1..])
  }

  predicate ValueAdmits(rows: seq<Reservation>, q: ReservationRequest, limits: map<string, nat>, asset: string)
    requires asset in q.values
  {
    && asset in limits
    && Used(Value(asset), Ever(q.approval), rows) + q.values[asset] <= limits[asset]
  }

  function ValueVerdict(rows: seq<Reservation>, q: ReservationRequest, limits: map<string, nat>): Result<()>
  {
    if forall asset :: asset in q.values ==> ValueAdmits(rows, q, limits, asset)
    then Ok(())
    else Err(LimitExceededValue)
  }

  predicate RollingAdmits(rows: seq<Reservation>, ids: set<string>, q: ReservationRequest, l: SlidingValueLimit)
  {
    l.asset in q.values ==>
      Used(Value(l.asset), Window(ids, q.at, l.durationMs), rows) + q.values[l.asset] <= l.maximum
  }

  function RollingVerdict(
    rows: seq<Reservation>, ids: set<string>, q: ReservationRequest, limits: seq<SlidingValueLimit>): Result<()>
  {
    if limits == [] then Ok(())
    else if limits[0].durationMs == 0 then Err(BackendInvalidRequest)
    else if !RollingAdmits(rows, ids, q, limits[0]) then Err(LimitExceededValue)
    else RollingVerdict(rows, ids, q, limits[1..])
  }

  /** All four checks in the order the journal runs them. */
  function Verdict(rows: seq<Reservation>, ids: set<string>, q: ReservationRequest, limits: BudgetLimits): Result<()>
  {
    var _ :- Lifetime(rows, q, limits);
    var _ :- RateVerdict(rows, ids, q, limits.rateLimits);
    var _ :- ValueVerdict(rows, q, limits.valueLimits);
    RollingVerdict(rows, ids, q, limits.rollingValueLimits)
  }

  /** An accepting verdict means every listed limit is positive and admits the request. */
  lemma {:induction false} RateVerdictMeaning(
    rows: seq<Reservation>, ids: set<string>, q: ReservationRequest, limits: seq<SlidingBudgetLimit>)
    ensures RateVerdict(rows, ids, q, limits).Ok?
       <==> forall l :: l in limits ==> Positive(l) && RateAdmits(rows, ids, q, l)
  {
    if limits != [] {
      RateVerdictMeaning(rows, ids, q, limits[1..]);
      assert limits == [limits[0]] + limits[1..];
    }
  }

  /** Lifetime acceptance, and which of the two counts a refusal names. */
  lemma LifetimeMeaning(rows: seq<Reservation>, q: ReservationRequest, limits: BudgetLimits)
    ensures var operations, signatures := Used(Operations, Ever(q.approval), rows), Used(Signatures, Ever(q.approval), rows);
      && (Lifetime(rows, q, limits).Ok? <==>
            operations + 1 <= limits.maxOperations && signatures + q.signatures <= limits.maxSignatures)
      && (signatures <= U64_MAX ==>
            (Lifetime(rows, q, limits) == Err(LimitExceededOperations) <==> operations + 1 > limits.maxOperations))
  {
  }

  lemma {:induction false} RollingVerdictMeaning(
    rows: seq<Reservation>, ids: set<string>, q: ReservationRequest, limits: seq<SlidingValueLimit>)
    ensures RollingVerdict(rows, ids, q, limits).Ok?
       <==> forall l :: l in limits ==> l.durationMs != 0 && RollingAdmits(rows, ids, q, l)
  {
    if limits != [] {
      RollingVerdictMeaning(rows, ids, q, limits[1..]);
      assert limits == [limits[0]] + limits[1..];
    }
  }

  /**
    A request within every limit, in numbers: the approval's unreleased use over
    its lifetime, and the whole lineage's in each sliding window.
  */
  ghost predicate WithinLimits(rows: seq<Reservation>, ids: set<string>, q: ReservationRequest, limits: BudgetLimits)
  {
    && Used(Operations, Ever(q.approval), rows) + 1 <= limits.maxOperations
    && Used(Signatures, Ever(q.approval), rows) + q.signatures <= limits.maxSignatures
    && (forall l :: l in limits.rateLimits ==>
          && l.durationMs > 0 && l.maxOperations > 0 && l.maxSignatures > 0
          && Used(Operations, Window(ids, q.at, l.durationMs), rows) + 1 <= l.maxOperations
          && Used(Signatures, Window(ids, q.at, l.durationMs), rows) + q.signatures <= l.maxSignatures)
    && (forall asset :: asset in q.values ==>
          && asset in limits.valueLimits
          && Used(Value(asset), Ever(q.approval), rows) + q.values[asset] <= limits.valueLimits[asset])
    && (forall l :: l in limits.rollingValueLimits ==>
          && l.durationMs > 0
          && (l.asset in q.values ==>
                Used(Value(l.asset), Window(ids, q.at, l.durationMs), rows) + q.values[l.asset] <= l.maximum))
  }

  /** The four checks accept exactly the requests within every limit. */
  lemma VerdictMeaning(rows: seq<Reservation>, ids: set<string>, q: ReservationRequest, limits: BudgetLimits)
    ensures Verdict(rows, ids, q, limits).Ok? <==> WithinLimits(rows, ids, q, limits)
  {
    LifetimeMeaning(rows, q, limits);
    RateVerdictMeaning(rows, ids, q, limits.rateLimits);
    RollingVerdictMeaning(rows, ids, q, limits.rollingValueLimits);
    if WithinLimits(rows, ids, q, limits) {
      assert forall asset :: asset in q.values ==> ValueAdmits(rows, q, limits.valueLimits, asset);
    }
    if Verdict(rows, ids, q, limits).Ok? {
      assert forall asset :: asset in q.values ==> ValueAdmits(rows, q, limits.valueLimits, asset);
      assert forall l :: l in limits.rollingValueLimits ==> RollingAdmits(rows, ids, q, l);
    }
  }

  // ------------------------------------------------------------- the queries

  /** `SELECT signature_count FROM reservations WHERE approval_id = ? AND state != 'RELEASED'`. */
  method CheckLifetime(rows: seq<Reservation>, q: ReservationRequest, limits: BudgetLimits) returns (r: Result<()>)
    ensures r == Lifetime(rows, q, limits)
  {
    var scope := Ever(q.approval);
    var operations, signatures := 0, 0;
    for i := 0 to |rows|
      invariant operations == Used(Operations, scope, rows[..i])
      invariant signatures == Used(Signatures, scope, rows[..i]) <= U64_MAX
    {
      assert rows[..i + 1] == rows[..i] + [rows[i]];
      UsedAppend(Operations, scope, rows[..i], rows[i]);
      UsedAppend(Signatures, scope, rows[..i], rows[i]);
      UsedPrefix(Signatures, scope, rows, i + 1);
      if rows[i].approval == q.approval && rows[i].state != Released {
        operations := operations + 1;
        if signatures + rows[i].signatures > U64_MAX {
          return Err(LimitExceededSignatures);
        }
        signatures := signatures + rows[i].signatures;
      }
    }
    assert rows[..|rows|] == rows;
    if operations + 1 > limits.maxOperations {
      return Err(LimitExceededOperations);
    }
    if signatures + q.signatures > limits.maxSignatures {
      return Err(LimitExceededSignatures);
    }
    return Ok(());
  }

  /** The unreleased rows of a lineage, as the recursive query returns them. */
  function Existing(ids: set<string>, rows: seq<Reservation>): seq<Reservation>
  {
    if rows == [] then []
    else if rows[|rows| - 1].approval in ids && rows[|rows| - 1].state != Released then
      Existing(ids, rows[..|rows| - 1]) + [rows[|rows| - 1]]
    else
      Existing(ids, rows[..|rows| - 1])
  }

  /** Selecting the rows of some approvals leaves what they use in any interval. */
  predicate SelectionKeeps(m: Measure, scope: Scope, rows: seq<Reservation>)
  {
    Used(m, scope, Existing(scope.ids, rows)) == Used(m, scope, rows)
  }

  lemma SelectionKeepsMore(m: Measure, scope: Scope, rows: seq<Reservation>, r: Reservation)
    requires scope.states == UNRELEASED && SelectionKeeps(m, scope, rows)
    ensures SelectionKeeps(m, scope, rows + [r])
  {
    assert (rows + [r])[..|rows|] == rows;
    UsedAppend(m, scope, rows, r);
    if r.approval in scope.ids && r.state != Released {
      UsedAppend(m, scope, Existing(scope.ids, rows), r);
    }
  }

  lemma {:induction false} ExistingKeepsWindows(m: Measure, scope: Scope, rows: seq<Reservation>)
    requires scope.states == UNRELEASED
    ensures SelectionKeeps(m, scope, rows)
  {
    if rows != [] {
      var front, r := rows[..|rows| - 1], rows[|rows| - 1];
      ExistingKeepsWindows(m, scope, front);
      SelectionKeepsMore(m, scope, front, r);
      assert rows == front + [r];
    }
  }

  lemma ExistingCounts(ids: set<string>, rows: seq<Reservation>)
    ensures forall r :: r in Existing(ids, rows) ==> r.approval in ids && r.state in UNRELEASED
  {
  }

  method SelectExisting(rows: seq<Reservation>, ids: set<string>) returns (existing: seq<Reservation>)
    ensures existing == Existing(ids, rows)
  {
    existing := [];
    for i := 0 to |rows|
      invariant existing == Existing(ids, rows[..i])
    {
      assert rows[..i + 1][..i] == rows[..i];
      if rows[i].approval in ids && rows[i].state != Released {
        existing := existing + [rows[i]];
      }
    }
    assert rows[..|rows|] == rows;
  }

  /** The two checked counters of one window. */
  predicate Counted(operations: nat, signatures: nat, scope: Scope, rows: seq<Reservation>)
  {
    operations == Used(Operations, scope, rows) && signatures == Used(Signatures, scope, rows)
  }

  lemma CountedMore(operations: nat, signatures: nat, scope: Scope, rows: seq<Reservation>, i: nat)
    requires i < |rows| && Counted(operations, signatures, scope, rows[..i])
    ensures Counted(operations + Charge(Operations, scope, rows[i]), signatures + Charge(Signatures, scope, rows[i]),
                    scope, rows[..i + 1])
    ensures operations + Charge(Operations, scope, rows[i]) <= Used(Operations, scope, rows)
    ensures signatures + Charge(Signatures, scope, rows[i]) <= Used(Signatures, scope, rows)
  {
    assert rows[..i + 1] == rows[..i] + [rows[i]];
    UsedAppend(Operations, scope, rows[..i], rows[i]);
    UsedAppend(Signatures, scope, rows[..i], rows[i]);
    UsedPrefix(Operations, scope, rows, i + 1);
    UsedPrefix(Signatures, scope, rows, i + 1);
  }

  /** One sliding window over the selected rows, with the source's checked counters. */
  method WindowUse(existing: seq<Reservation>, ids: set<string>, after: nat, upTo: nat)
    returns (overflow: bool, operations: nat, signatures: nat)
    requires forall r :: r in existing ==> r.approval in ids && r.state in UNRELEASED
    ensures !overflow ==> Counted(operations, signatures, Within(ids, after, upTo), existing)
    ensures overflow ==>
      (Used(Signatures, Within(ids, after, upTo), existing) > U64_MAX ||
       Used(Operations, Within(ids, after, upTo), existing) > U64_MAX)
  {
    ghost var scope := Within(ids, after, upTo);
    overflow, operations, signatures := false, 0, 0;
    for i := 0 to |existing|
      invariant Counted(operations, signatures, scope, existing[..i])
    {
      CountedMore(operations, signatures, scope, existing, i);
      assert existing[i] in existing;
      if after < existing[i].at <= upTo {
        if operations + 1 > U64_MAX || signatures + existing[i].signatures > U64_MAX {
          overflow := true;
          return;
        }
        operations, signatures := operations + 1, signatures + existing[i].signatures;
      }
    }
    assert existing[..|existing|] == existing;
  }

  method CheckRates(rows: seq<Reservation>, ids: set<string>, q: ReservationRequest, limits: seq<SlidingBudgetLimit>)
    returns (r: Result<()>)
    ensures r == RateVerdict(rows, ids, q, limits)
  {
    if limits == [] {
      return Ok(());
    }
    var existing := SelectExisting(rows, ids);
    ExistingCounts(ids, rows);
    for i := 0 to |limits|
      invariant RateVerdict(rows, ids, q, limits) == RateVerdict(rows, ids, q, limits[i..])
    {
      var l := limits[i];
      assert limits[i..][1..] == limits[i + 1..];
      if l.durationMs == 0 || l.maxOperations == 0 || l.maxSignatures == 0 {
        return Err(BackendInvalidRequest);
      }
      var after := SaturatingSub(q.at, l.durationMs);
      ExistingKeepsWindows(Operations, Within(ids, after, q.at), rows);
      ExistingKeepsWindows(Signatures, Within(ids, after, q.at), rows);
      var overflow, operations, signatures := WindowUse(existing, ids, after, q.at);
      if overflow || operations + 1 > l.maxOperations || signatures + q.signatures > l.maxSignatures {
        return Err(LimitExceededRate);
      }
    }
    return Ok(());
  }

  method AssetTotal(rows: seq<Reservation>, scope: Scope, asset: string) returns (total: nat)
    ensures total == Used(Value(asset), scope, rows)
  {
    total := 0;
    for i := 0 to |rows|
      invariant total == Used(Value(asset), scope, rows[..i])
    {
      assert rows[..i + 1] == rows[..i] + [rows[i]];
      UsedAppend(Value(asset), scope, rows[..i], rows[i]);
      if Counts(scope, rows[i]) && asset in rows[i].values {
        total := total + rows[i].values[asset];
      }
    }
    assert rows[..|rows|] == rows;
  }

  method CheckValues(rows: seq<Reservation>, q: ReservationRequest, limits: map<string, nat>) returns (r: Result<()>)
    ensures r == ValueVerdict(rows, q, limits)
  {
    var todo := q.values.Keys;
    while todo != {}
      invariant todo <= q.values.Keys
      invariant forall asset :: asset in q.values.Keys - todo ==> ValueAdmits(rows, q, limits, asset)
      decreases |todo|
    {
      var asset :| asset in todo;
      if asset !in limits {
        assert !ValueAdmits(rows, q, limits, asset);
        return Err(LimitExceededValue);
      }
      var total := AssetTotal(rows, Ever(q.approval), asset);
      if total + q.values[asset] > limits[asset] {
        assert !ValueAdmits(rows, q, limits, asset);
        return Err(LimitExceededValue);
      }
      todo := todo - {asset};
    }
    return Ok(());
  }

  method CheckRolling(rows: seq<Reservation>, ids: set<string>, q: ReservationRequest, limits: seq<SlidingValueLimit>)
    returns (r: Result<()>)
    ensures r == RollingVerdict(rows, ids, q, limits)
  {
    for i := 0 to |limits|
      invariant RollingVerdict(rows, ids, q, limits) == RollingVerdict(rows, ids, q, limits[i..])
    {
      var l := limits[i];
      assert limits[i..][1..] == limits[i + 1..];
      if l.durationMs == 0 {
        return Err(BackendInvalidRequest);
      }
      if l.asset in q.values {
        var total := AssetTotal(rows, Window(ids, q.at, l.durationMs), l.asset);
        if total + q.values[l.asset] > l.maximum {
          return Err(LimitExceededValue);
        }
      }
    }
    return Ok(());
  }

  /** Every limit of one approval against the ledger. */
  method CheckLimits(rows: seq<Reservation>, ids: set<string>, q: ReservationRequest, limits: BudgetLimits)
    returns (r: Result<()>)
    ensures r == Verdict(rows, ids, q, limits)
  {
    r := CheckLifetime(rows, q, limits);
    if r.Err? { return; }
    r := CheckRates(rows, ids, q, limits.rateLimits);
    if r.Err? { return; }
    r := CheckValues(rows, q, limits.valueLimits);
    if r.Err? { return; }
    r := CheckRolling(rows, ids, q, limits.rollingValueLimits);
  }

  // ------------------------------------------------------- saturated windows

  /**
    The window `(t - d, t]` and the saturated window the code computes agree
    exactly when the window does not reach below zero or nothing was charged
    at time zero.
  */
  lemma SaturatedWindowExact(m: Measure, ids: set<string>, t: nat, d: nat, rows: seq<Reservation>)
    ensures Used(m, Window(ids, t, d), rows) == Used(m, Within(ids, t - d, t), rows)
       <==> t >= d || Used(m, Within(ids, -1, 0), rows) == 0
  {
    if t < d {
      SplitAtZero(m, ids, t, d, rows);
    }
  }

  lemma {:induction false} SplitAtZero(m: Measure, ids: set<string>, t: nat, d: nat, rows: seq<Reservation>)
    requires t < d
    ensures Used(m, Within(ids, t - d, t), rows)
         == Used(m, Window(ids, t, d), rows) + Used(m, Within(ids, -1, 0), rows)
  {
    if rows != [] {
      SplitAtZero(m, ids, t, d, rows[..|rows| - 1]);
    }
  }

  // ------------------------------------------------------ approval_limit_state

  datatype LimitState = LimitState(
    committedOperations: nat, reservedOperations: nat, quarantinedOperations: nat,
    committedSignatures: nat, reservedSignatures: nat, quarantinedSignatures: nat)

  function In(id: string, state: ReservationState): Scope
  {
    Scope({id}, {state}, None)
  }

  /** The unreleased total of an approval is the sum of its three ledger states. */
  lemma {:induction false} LedgerPartition(m: Measure, id: string, rows: seq<Reservation>)
    ensures Used(m, Ever(id), rows)
         == Used(m, In(id, Committed), rows) + Used(m, In(id, Reserved), rows) + Used(m, In(id, Quarantined), rows)
  {
    if rows != [] {
      LedgerPartition(m, id, rows[..|rows| - 1]);
    }
  }

  function Capped(n: nat): nat
  {
    if n > U64_MAX then U64_MAX else n
  }

  function SaturatingAdd(a: nat, b: nat): nat
  {
    Capped(a + b)
  }

  /** One row added to the counters of its own state. */
  function AddRow(l: LimitState, id: string, r: Reservation): LimitState
  {
    if r.approval != id then l
    else
      match r.state
      case Committed =>
        l.(committedOperations := l.committedOperations + 1,
           committedSignatures := SaturatingAdd(l.committedSignatures, r.signatures))
      case Reserved =>
        l.(reservedOperations := l.reservedOperations + 1,
           reservedSignatures := SaturatingAdd(l.reservedSignatures, r.signatures))
      case Quarantined =>
        l.(quarantinedOperations := l.quarantinedOperations + 1,
           quarantinedSignatures := SaturatingAdd(l.quarantinedSignatures, r.signatures))
      case Released => l
  }

  /** The counters are the sums of the three ledger states. */
  predicate Partitions(l: LimitState, id: string, rows: seq<Reservation>)
  {
    && l.committedOperations == Used(Operations, In(id, Committed), rows)
    && l.reservedOperations == Used(Operations, In(id, Reserved), rows)
    && l.quarantinedOperations == Used(Operations, In(id, Quarantined), rows)
    && l.committedSignatures == Used(Signatures, In(id, Committed), rows)
    && l.reservedSignatures == Used(Signatures, In(id, Reserved), rows)
    && l.quarantinedSignatures == Used(Signatures, In(id, Quarantined), rows)
  }

  /** The same with each signature counter stopped at the largest 64-bit number. */
  predicate Saturates(l: LimitState, id: string, rows: seq<Reservation>)
  {
    && l.committedOperations == Used(Operations, In(id, Committed), rows)
    && l.reservedOperations == Used(Operations, In(id, Reserved), rows)
    && l.quarantinedOperations == Used(Operations, In(id, Quarantined), rows)
    && l.committedSignatures == Capped(Used(Signatures, In(id, Committed), rows))
    && l.reservedSignatures == Capped(Used(Signatures, In(id, Reserved), rows))
    && l.quarantinedSignatures == Capped(Used(Signatures, In(id, Quarantined), rows))
  }

  lemma CountersGrow(l: LimitState, id: string, rows: seq<Reservation>, r: Reservation)
    requires Saturates(l, id, rows)
    ensures Saturates(AddRow(l, id, r), id, rows + [r])
  {
    forall m: Measure, s ensures Used(m, In(id, s), rows + [r]) == Used(m, In(id, s), rows) + Charge(m, In(id, s), r) {
      UsedAppend(m, In(id, s), rows, r);
    }
  }

  /** Signatures that fit 64 bits in total saturate no counter. */
  lemma FittingCountersPartition(l: LimitState, id: string, rows: seq<Reservation>)
    requires Saturates(l, id, rows) && Used(Signatures, Ever(id), rows) <= U64_MAX
    ensures Partitions(l, id, rows)
  {
    LedgerPartition(Signatures, id, rows);
  }

  /** `approval_limit_state`: one pass over the approval's rows, with saturating signature counters. */
  method ApprovalLimitState(rows: seq<Reservation>, id: string) returns (l: LimitState)
    ensures Saturates(l, id, rows)
  {
    l := LimitState(0, 0, 0, 0, 0, 0);
    for i := 0 to |rows|
      invariant Saturates(l, id, rows[..i])
    {
      assert rows[..i + 1] == rows[..i] + [rows[i]];
      CountersGrow(l, id, rows[..i], rows[i]);
      l := AddRow(l, id, rows[i]);
    }
    assert rows[..|rows|] == rows;
  }
}
