/**
  From reviewed approval terms to the limits the journal enforces, and from a
  declared claim to the amounts it charges.
*/
module Budget {
  import opened Wrappers
  import opened Accounting

  datatype SlidingWindow = SlidingWindow(maximum: U64, durationMs: U64)

  datatype ValueWindow = ValueWindow(maximum: nat, durationMs: U64)

  datatype ValueLimit = ValueLimit(asset: string, lifetime: nat, rolling: seq<ValueWindow>)

  datatype ApprovalLimits = ApprovalLimits(
    maxOperations: U64,
    maxSignatures: U64,
    operationRates: seq<SlidingWindow>,
    signatureRates: seq<SlidingWindow>,
    values: seq<ValueLimit>)

  /** `validate_limits`: positive counts, positive windows, named assets. */
  predicate ValidLimits(l: ApprovalLimits)
  {
    && l.maxOperations != 0 && l.maxSignatures != 0
    && (forall w :: w in l.operationRates ==> w.maximum != 0 && w.durationMs != 0)
    && (forall w :: w in l.signatureRates ==> w.maximum != 0 && w.durationMs != 0)
    && (forall v :: v in l.values ==> v.asset != "" && forall w :: w in v.rolling ==> w.durationMs != 0)
  }

  // ------------------------------------------------------------ rate windows

  function OperationCap(w: SlidingWindow): SlidingBudgetLimit
  {
    SlidingBudgetLimit(w.maximum, U64_MAX, w.durationMs)
  }

  function SignatureCap(w: SlidingWindow): SlidingBudgetLimit
  {
    SlidingBudgetLimit(U64_MAX, w.maximum, w.durationMs)
  }

  /** Operation windows first, then signature windows, each unlimited in the other count. */
  function Caps(l: ApprovalLimits): seq<SlidingBudgetLimit>
  {
    seq(|l.operationRates|, i requires 0 <= i < |l.operationRates| => OperationCap(l.operationRates[i]))
    + seq(|l.signatureRates|, i requires 0 <= i < |l.signatureRates| => SignatureCap(l.signatureRates[i]))
  }

  predicate Ascending(ws: seq<SlidingBudgetLimit>)
  {
    forall i, j :: 0 <= i < j < |ws| ==> ws[i].durationMs < ws[j].durationMs
  }

  /** One `entry(duration).or_insert(unlimited)` followed by two minima, on a sorted association list. */
  function Tighten(ws: seq<SlidingBudgetLimit>, c: SlidingBudgetLimit): seq<SlidingBudgetLimit>
  {
    if ws == [] || c.durationMs < ws[0].durationMs then [c] + ws
    else if ws[0].durationMs == c.durationMs then
      [SlidingBudgetLimit(Min(ws[0].maxOperations, c.maxOperations),
                          Min(ws[0].maxSignatures, c.maxSignatures),
                          c.durationMs)] + ws[1..]
    else [ws[0]] + Tighten(ws[1..], c)
  }

  function Fold(caps: seq<SlidingBudgetLimit>): seq<SlidingBudgetLimit>
  {
    if caps == [] then [] else Tighten(Fold(caps[..|caps| - 1]), caps[|caps| - 1])
  }

  /** Every slot keeps a duration from the list or the new one. */
  lemma {:induction false} TightenDurations(ws: seq<SlidingBudgetLimit>, c: SlidingBudgetLimit, i: nat)
    requires i < |Tighten(ws, c)|
    ensures Tighten(ws, c)[i].durationMs == c.durationMs
         || exists k :: 0 <= k < |ws| && ws[k].durationMs == Tighten(ws, c)[i].durationMs
  {
    var t := Tighten(ws, c);
    if ws == [] || c.durationMs < ws[0].durationMs {
      assert i == 0 || t[i] == ws[i - 1];
    } else if ws[0].durationMs == c.durationMs {
      assert i == 0 || t[i] == ws[i];
    } else if i == 0 {
      assert t[0] == ws[0];
    } else {
      TightenDurations(ws[1..], c, i - 1);
      if k :| 0 <= k < |ws[1..]| && ws[1..][k].durationMs == t[i].durationMs {
        assert ws[k + 1].durationMs == t[i].durationMs;
      }
    }
  }

  lemma {:induction false} TightenAscending(ws: seq<SlidingBudgetLimit>, c: SlidingBudgetLimit)
    requires Ascending(ws)
    ensures Ascending(Tighten(ws, c))
  {
    if ws != [] && c.durationMs > ws[0].durationMs {
      var more := Tighten(ws[1..], c);
      TightenAscending(ws[1..], c);
      forall i | 0 <= i < |more| ensures ws[0].durationMs < more[i].durationMs {
        TightenDurations(ws[1..], c, i);
      }
    }
  }

  lemma {:induction false} FoldAscending(caps: seq<SlidingBudgetLimit>)
    ensures Ascending(Fold(caps))
  {
    if caps != [] {
      FoldAscending(caps[..|caps| - 1]);
      TightenAscending(Fold(caps[..|caps| - 1]), caps[|caps| - 1]);
    }
  }

  /** A list of limits admits a request when each of its members does. */
  predicate AllAdmit(rows: seq<Reservation>, ids: set<string>, q: ReservationRequest, ls: seq<SlidingBudgetLimit>)
  {
    forall i :: 0 <= i < |ls| ==> RateAdmits(rows, ids, q, ls[i])
  }

  lemma {:induction false} TightenAdmits(
    rows: seq<Reservation>, ids: set<string>, q: ReservationRequest, ws: seq<SlidingBudgetLimit>, c: SlidingBudgetLimit)
    ensures AllAdmit(rows, ids, q, Tighten(ws, c)) <==> AllAdmit(rows, ids, q, ws) && RateAdmits(rows, ids, q, c)
  {
    var t := Tighten(ws, c);
    if ws == [] || c.durationMs < ws[0].durationMs {
      assert t[0] == c && t[1..] == ws;
      assert AllAdmit(rows, ids, q, t) <==> RateAdmits(rows, ids, q, t[0]) && AllAdmit(rows, ids, q, t[1..]) by {
        HeadAndTail(rows, ids, q, t);
      }
    } else {
      HeadAndTail(rows, ids, q, ws);
      HeadAndTail(rows, ids, q, t);
      if ws[0].durationMs == c.durationMs {
        assert t[1..] == ws[1..];
      } else {
        assert t[1..] == Tighten(ws[1..], c);
        TightenAdmits(rows, ids, q, ws[1..], c);
      }
    }
  }

  lemma HeadAndTail(rows: seq<Reservation>, ids: set<string>, q: ReservationRequest, ls: seq<SlidingBudgetLimit>)
    requires ls != []
    ensures AllAdmit(rows, ids, q, ls) <==> RateAdmits(rows, ids, q, ls[0]) && AllAdmit(rows, ids, q, ls[1..])
  {
    forall i | 1 <= i < |ls| ensures ls[i] == ls[1..][i - 1] {}
  }

  lemma {:induction false} FoldAdmits(
    rows: seq<Reservation>, ids: set<string>, q: ReservationRequest, caps: seq<SlidingBudgetLimit>)
    ensures AllAdmit(rows, ids, q, Fold(caps)) <==> AllAdmit(rows, ids, q, caps)
  {
    if caps != [] {
      var last := |caps| - 1;
      FoldAdmits(rows, ids, q, caps[..last]);
      TightenAdmits(rows, ids, q, Fold(caps[..last]), caps[last]);
    }
  }

  /** One reviewed operation window judged by itself. */
  predicate OperationWindowAccepts(rows: seq<Reservation>, ids: set<string>, q: ReservationRequest, w: SlidingWindow)
  {
    Used(Operations, Window(ids, q.at, w.durationMs), rows) + 1 <= w.maximum
  }

  /** One reviewed signature window judged by itself. */
  predicate SignatureWindowAccepts(rows: seq<Reservation>, ids: set<string>, q: ReservationRequest, w: SlidingWindow)
  {
    Used(Signatures, Window(ids, q.at, w.durationMs), rows) + q.signatures <= w.maximum
  }

  /** The counts a window of length `d` would reach still fit 64-bit counters. */
  predicate CountersFit(rows: seq<Reservation>, ids: set<string>, q: ReservationRequest, d: nat)
  {
    && Used(Operations, Window(ids, q.at, d), rows) + 1 <= U64_MAX
    && Used(Signatures, Window(ids, q.at, d), rows) + q.signatures <= U64_MAX
  }

  /**
    The folded per-duration limits accept exactly when every reviewed window
    accepts by itself, the unlimited half of each window costing only that its
    64-bit counter must not overflow. Repeated durations are included.
  */
  lemma FoldPreservesMeaning(rows: seq<Reservation>, ids: set<string>, q: ReservationRequest, l: ApprovalLimits)
    requires ValidLimits(l)
    ensures RateVerdict(rows, ids, q, Fold(Caps(l))).Ok?
       <==> && (forall w :: w in l.operationRates ==>
                  OperationWindowAccepts(rows, ids, q, w)
                  && Used(Signatures, Window(ids, q.at, w.durationMs), rows) + q.signatures <= U64_MAX)
            && (forall w :: w in l.signatureRates ==>
                  SignatureWindowAccepts(rows, ids, q, w)
                  && Used(Operations, Window(ids, q.at, w.durationMs), rows) + 1 <= U64_MAX)
  {
    FoldPositive(Caps(l));
    RateVerdictMeaning(rows, ids, q, Fold(Caps(l)));
    assert RateVerdict(rows, ids, q, Fold(Caps(l))).Ok? <==> AllAdmit(rows, ids, q, Fold(Caps(l)));
    FoldAdmits(rows, ids, q, Caps(l));
    var n := |l.operationRates|;
    if AllAdmit(rows, ids, q, Caps(l)) {
      forall w | w in l.operationRates
        ensures RateAdmits(rows, ids, q, OperationCap(w))
      {
        var i :| 0 <= i < n && l.operationRates[i] == w;
        assert Caps(l)[i] == OperationCap(w);
      }
      forall w | w in l.signatureRates
        ensures RateAdmits(rows, ids, q, SignatureCap(w))
      {
        var i :| 0 <= i < |l.signatureRates| && l.signatureRates[i] == w;
        assert Caps(l)[n + i] == SignatureCap(w);
      }
    }
    if && (forall w :: w in l.operationRates ==> RateAdmits(rows, ids, q, OperationCap(w)))
       && (forall w :: w in l.signatureRates ==> RateAdmits(rows, ids, q, SignatureCap(w)))
    {
      forall i | 0 <= i < |Caps(l)| ensures RateAdmits(rows, ids, q, Caps(l)[i]) {
        if i < n {
          assert l.operationRates[i] in l.operationRates;
        } else {
          assert l.signatureRates[i - n] in l.signatureRates;
        }
      }
    }
  }

  /** An accepted request satisfies every reviewed window by itself. */
  lemma FoldSound(rows: seq<Reservation>, ids: set<string>, q: ReservationRequest, l: ApprovalLimits)
    requires RateVerdict(rows, ids, q, Fold(Caps(l))).Ok?
    ensures forall w :: w in l.operationRates ==> OperationWindowAccepts(rows, ids, q, w)
    ensures forall w :: w in l.signatureRates ==> SignatureWindowAccepts(rows, ids, q, w)
  {
    RateVerdictMeaning(rows, ids, q, Fold(Caps(l)));
    FoldAdmits(rows, ids, q, Caps(l));
    forall w | w in l.operationRates ensures OperationWindowAccepts(rows, ids, q, w) {
      var i :| 0 <= i < |l.operationRates| && l.operationRates[i] == w;
      assert RateAdmits(rows, ids, q, Caps(l)[i]);
    }
    forall w | w in l.signatureRates ensures SignatureWindowAccepts(rows, ids, q, w) {
      var i :| 0 <= i < |l.signatureRates| && l.signatureRates[i] == w;
      assert RateAdmits(rows, ids, q, Caps(l)[|l.operationRates| + i]);
    }
  }

  lemma {:induction false} TightenPositive(ws: seq<SlidingBudgetLimit>, c: SlidingBudgetLimit)
    requires forall w :: w in ws ==> Positive(w)
    requires Positive(c)
    ensures forall w :: w in Tighten(ws, c) ==> Positive(w)
  {
    if ws == [] || c.durationMs < ws[0].durationMs {
    } else if ws[0].durationMs == c.durationMs {
      assert Positive(ws[0]);
    } else {
      TightenPositive(ws[1..], c);
    }
  }

  lemma {:induction false} FoldPositive(caps: seq<SlidingBudgetLimit>)
    requires forall c :: c in caps ==> Positive(c)
    ensures forall w :: w in Fold(caps) ==> Positive(w)
  {
    if caps != [] {
      FoldPositive(caps[..|caps| - 1]);
      TightenPositive(Fold(caps[..|caps| - 1]), caps[|caps| - 1]);
    }
  }

  /** Where the counters fit, folding is exact: the reviewed windows and nothing else decide. */
  lemma FoldExact(rows: seq<Reservation>, ids: set<string>, q: ReservationRequest, l: ApprovalLimits)
    requires ValidLimits(l)
    requires forall w :: w in l.operationRates + l.signatureRates ==> CountersFit(rows, ids, q, w.durationMs)
    ensures RateVerdict(rows, ids, q, Fold(Caps(l))).Ok?
       <==> && (forall w :: w in l.operationRates ==> OperationWindowAccepts(rows, ids, q, w))
            && (forall w :: w in l.signatureRates ==> SignatureWindowAccepts(rows, ids, q, w))
  {
    FoldPreservesMeaning(rows, ids, q, l);
    assert forall w :: w in l.operationRates ==> w in l.operationRates + l.signatureRates;
    assert forall w :: w in l.signatureRates ==> w in l.operationRates + l.signatureRates;
  }

  /** A window list with no windows imposes no trusted-time requirement, and only then. */
  lemma {:induction false} FoldEmpty(caps: seq<SlidingBudgetLimit>)
    ensures Fold(caps) == [] <==> caps == []
  {
    if caps != [] {
      FoldEmpty(caps[..|caps| - 1]);
    }
  }

  // ------------------------------------------------------------ value limits

  /** Duplicate assets collapse to the last entry, as collecting into a map does. */
  function Effective(vs: seq<ValueLimit>): map<string, nat>
  {
    if vs == [] then map[]
    else Effective(vs[..|vs| - 1])[vs[|vs| - 1].asset := vs[|vs| - 1].lifetime]
  }

  function RollingOf(v: ValueLimit): seq<SlidingValueLimit>
  {
    seq(|v.rolling|, i requires 0 <= i < |v.rolling| =>
      SlidingValueLimit(v.asset, v.rolling[i].maximum, v.rolling[i].durationMs))
  }

  function Rolling(vs: seq<ValueLimit>): seq<SlidingValueLimit>
  {
    if vs == [] then [] else Rolling(vs[..|vs| - 1]) + RollingOf(vs[|vs| - 1])
  }

  /** The rolling limits are exactly the reviewed value windows, each under its own asset. */
  lemma {:induction false} RollingMembers(vs: seq<ValueLimit>, r: SlidingValueLimit)
    ensures r in Rolling(vs) <==>
            exists v, w :: v in vs && w in v.rolling && r == SlidingValueLimit(v.asset, w.maximum, w.durationMs)
  {
    if vs != [] {
      var v := vs[|vs| - 1];
      RollingMembers(vs[..|vs| - 1], r);
      assert vs == vs[..|vs| - 1] + [v];
      assert r in Rolling(vs) <==> r in Rolling(vs[..|vs| - 1]) || r in RollingOf(v);
      if r in RollingOf(v) {
        var i :| 0 <= i < |v.rolling| && RollingOf(v)[i] == r;
        assert v.rolling[i] in v.rolling;
      }
      if w :| w in v.rolling && r == SlidingValueLimit(v.asset, w.maximum, w.durationMs) {
        var i :| 0 <= i < |v.rolling| && v.rolling[i] == w;
        assert RollingOf(v)[i] == r;
      }
    }
  }

  /** `budget_limits` as a function of the reviewed limits. */
  function LimitsOf(l: ApprovalLimits): BudgetLimits
  {
    BudgetLimits(l.maxOperations, l.maxSignatures, Fold(Caps(l)), Effective(l.values), Rolling(l.values))
  }

  /** `windows.entry(duration)`: find the slot, then insert or tighten it. */
  /** Shorter durations are passed over. */
  lemma {:induction false} TightenSkips(ws: seq<SlidingBudgetLimit>, c: SlidingBudgetLimit, i: nat)
    requires i <= |ws| && forall j :: 0 <= j < i ==> ws[j].durationMs < c.durationMs
    ensures Tighten(ws, c) == ws[..i] + Tighten(ws[i..], c)
    decreases i
  {
    if i == 0 {
      assert ws[0..] == ws;
    } else {
      TightenSkips(ws[1..], c, i - 1);
      assert ws[1..][i - 1..] == ws[i..];
      assert [ws[0]] + ws[1..][..i - 1] == ws[..i];
    }
  }

  method TightenSlot(ws: seq<SlidingBudgetLimit>, c: SlidingBudgetLimit) returns (r: seq<SlidingBudgetLimit>)
    ensures r == Tighten(ws, c)
  {
    var i := 0;
    while i < |ws| && ws[i].durationMs < c.durationMs
      invariant 0 <= i <= |ws|
      invariant forall j :: 0 <= j < i ==> ws[j].durationMs < c.durationMs
    {
      i := i + 1;
    }
    TightenSkips(ws, c, i);
    if i < |ws| && ws[i].durationMs == c.durationMs {
      var slot := SlidingBudgetLimit(Min(ws[i].maxOperations, c.maxOperations),
                                     Min(ws[i].maxSignatures, c.maxSignatures), c.durationMs);
      assert ws[i..][1..] == ws[i + 1..];
      r := ws[..i] + ([slot] + ws[i + 1..]);
    } else {
      r := ws[..i] + ([c] + ws[i..]);
    }
  }

  method BudgetLimitsFor(l: ApprovalLimits) returns (b: BudgetLimits)
    ensures b == LimitsOf(l)
    ensures Ascending(b.rateLimits)
  {
    var caps := Caps(l);
    var windows: seq<SlidingBudgetLimit> := [];
    for i := 0 to |caps|
      invariant windows == Fold(caps[..i])
    {
      assert caps[..i + 1][..i] == caps[..i];
      windows := TightenSlot(windows, caps[i]);
    }
    assert caps[..|caps|] == caps;
    FoldAscending(caps);
    var lifetimes: map<string, nat> := map[];
    var rolling: seq<SlidingValueLimit> := [];
    for i := 0 to |l.values|
      invariant lifetimes == Effective(l.values[..i])
      invariant rolling == Rolling(l.values[..i])
    {
      assert l.values[..i + 1][..i] == l.values[..i];
      lifetimes := lifetimes[l.values[i].asset := l.values[i].lifetime];
      rolling := rolling + RollingOf(l.values[i]);
    }
    assert l.values[..|l.values|] == l.values;
    b := BudgetLimits(l.maxOperations, l.maxSignatures, windows, lifetimes, rolling);
  }

  // ---------------------------------------------------------- declared values

  const U256_MODULUS: nat := 0x1_0000000000000000000000000000000000000000000000000000000000000000

  datatype Asset = Asset(chain: string, name: string)

  /** `asset_id`: the name limits and totals are kept under. */
  function AssetId(a: Asset): string
  {
    a.chain + ":" + a.name
  }

  /** An amount under its `asset_id`, as `add_value` receives it. */
  datatype Debit = Debit(asset: string, amount: nat)

  datatype Fee = NoFee | DeclaredFee(asset: Asset, amount: nat)

  /** The exact total a list of debits and a fee declare for one asset. */
  function Declared(debits: seq<Debit>, asset: string): nat
  {
    if debits == [] then 0
    else Declared(debits[..|debits| - 1], asset)
         + (if debits[|debits| - 1].asset == asset then debits[|debits| - 1].amount else 0)
  }

  /** The entries in the order `add_value` sees them: debits, then the fee. */
  function Entries(debits: seq<Debit>, fee: Fee): seq<Debit>
  {
    match fee
    case NoFee => debits
    case DeclaredFee(asset, amount) => debits + [Debit(AssetId(asset), amount)]
  }

  /** The fee must be the one the catalogued operation class expects, chain and asset alike. */
  function FeeVerdict(expected: Option<Asset>, fee: Fee): Result<()>
  {
    match (expected, fee)
    case (None, NoFee) => Ok(())
    case (Some(_), NoFee) => Err(FeeRequired)
    case (None, DeclaredFee(_, _)) => Err(FeeNotAllowed)
    case (Some(asset), DeclaredFee(declared, _)) => Need(asset == declared, FeeAssetMismatch)
  }

  lemma {:induction false} DeclaredPrefix(es: seq<Debit>, asset: string, n: nat)
    requires n <= |es|
    ensures Declared(es[..n], asset) <= Declared(es, asset)
  {
    if n < |es| {
      DeclaredPrefix(es[..|es| - 1], asset, n);
      assert es[..|es| - 1][..n] == es[..n];
    } else {
      assert es[..n] == es;
    }
  }

  /** The running map holds exactly the totals of the entries seen, all below 2^256. */
  ghost predicate Tallies(values: map<string, nat>, es: seq<Debit>)
  {
    && (forall e :: e in es ==> e.asset in values)
    && (forall asset :: asset in values ==>
          && (exists e :: e in es && e.asset == asset)
          && values[asset] == Declared(es, asset) < U256_MODULUS)
  }

  lemma {:induction false} UnseenDeclaresNothing(es: seq<Debit>, asset: string)
    requires forall e :: e in es ==> e.asset != asset
    ensures Declared(es, asset) == 0
  {
    if es != [] {
      assert es[|es| - 1] in es;
      UnseenDeclaresNothing(es[..|es| - 1], asset);
    }
  }

  method AddValue(values: map<string, nat>, ghost es: seq<Debit>, e: Debit) returns (r: Result<map<string, nat>>)
    requires Tallies(values, es)
    ensures r.Ok? ==> Tallies(r.value, es + [e])
    ensures r.Err? ==> Overflows(es + [e])
  {
    if e.asset !in values {
      UnseenDeclaresNothing(es, e.asset);
    }
    assert (es + [e])[..|es|] == es;
    var total := (if e.asset in values then values[e.asset] else 0) + e.amount;
    if total >= U256_MODULUS {
      assert e in es + [e];
      return Err(ValueOverflow);
    }
    r := Ok(values[e.asset := total]);
    forall asset | asset in r.value
      ensures exists x :: x in es + [e] && x.asset == asset
      ensures r.value[asset] == Declared(es + [e], asset) < U256_MODULUS
    {
      if asset == e.asset {
        assert e in es + [e];
      } else {
        var x :| x in es && x.asset == asset;
        assert x in es + [e];
      }
    }
  }

  /** Some declared asset totals 2^256 or more. */
  predicate Overflows(es: seq<Debit>)
  {
    exists e :: e in es && Declared(es, e.asset) >= U256_MODULUS
  }

  /** Adding entries never repairs an overflow. */
  lemma OverflowPersists(es: seq<Debit>, n: nat)
    requires n <= |es| && Overflows(es[..n])
    ensures Overflows(es)
  {
    var e :| e in es[..n] && Declared(es[..n], e.asset) >= U256_MODULUS;
    DeclaredPrefix(es, e.asset, n);
    assert e in es;
  }

  method TallyDebits(debits: seq<Debit>) returns (r: Result<map<string, nat>>)
    ensures r.Ok? ==> Tallies(r.value, debits)
    ensures r.Err? ==> Overflows(debits)
  {
    var values: map<string, nat> := map[];
    for i := 0 to |debits|
      invariant Tallies(values, debits[..i])
    {
      assert debits[..i + 1] == debits[..i] + [debits[i]];
      var step := AddValue(values, debits[..i], debits[i]);
      if step.Err? {
        OverflowPersists(debits, i + 1);
        return Err(ValueOverflow);
      }
      values := step.value;
    }
    assert debits[..|debits|] == debits;
    return Ok(values);
  }

  /** What a signing request declares, if it carries a claim: its debits, its fee and the catalogued fee asset. */
  datatype Claim = NoClaim | Claim(debits: seq<Debit>, expected: Option<Asset>, fee: Fee)

  function DeclaredBy(claim: Claim): seq<Debit>
  {
    if claim.NoClaim? then [] else Entries(claim.debits, claim.fee)
  }

  /** Every declared asset with its total. */
  function Totals(es: seq<Debit>): map<string, nat>
  {
    map asset | asset in (set e | e in es :: e.asset) :: Declared(es, asset)
  }

  /** Every declared asset is one the approval was reviewed for. */
  predicate AllReviewed(limits: seq<ValueLimit>, es: seq<Debit>)
  {
    forall e :: e in es ==> e.asset in Effective(limits)
  }

  /** `account_declared_values`: debits, then the fee, then the reviewed assets, first refusal first. */
  function DeclaredValues(limits: seq<ValueLimit>, claim: Claim): Result<map<string, nat>>
  {
    if claim.NoClaim? then Ok(map[])
    else if Overflows(claim.debits) then Err(ValueOverflow)
    else if FeeVerdict(claim.expected, claim.fee).Err? then Err(FeeVerdict(claim.expected, claim.fee).code)
    else if Overflows(DeclaredBy(claim)) then Err(ValueOverflow)
    else if !AllReviewed(limits, DeclaredBy(claim)) then Err(ValueAssetNotAllowed)
    else Ok(Totals(DeclaredBy(claim)))
  }

  lemma TalliesAreTotals(values: map<string, nat>, es: seq<Debit>)
    requires Tallies(values, es)
    ensures values == Totals(es)
  {
  }

  /**
    What a charge means: for every declared asset, the exact sum of its debits and
    fee, below 2^256. Refused exactly when the fee is not the catalogued one, a
    total reaches 2^256, or an asset is outside the reviewed limits.
  */
  lemma DeclaredValuesMean(limits: seq<ValueLimit>, claim: Claim)
    ensures var r, es := DeclaredValues(limits, claim), DeclaredBy(claim);
      && (r.Ok? <==>
            && (claim.Claim? ==> FeeVerdict(claim.expected, claim.fee).Ok?)
            && !Overflows(es)
            && AllReviewed(limits, es))
      && (r.Ok? ==> Tallies(r.value, es))
  {
    if claim.Claim? {
      var es := DeclaredBy(claim);
      assert es[..|claim.debits|] == claim.debits;
      if Overflows(claim.debits) {
        OverflowPersists(es, |claim.debits|);
      }
    }
  }

  /** `account_declared_values` as the loop over the claim. */
  method AccountDeclaredValues(limits: seq<ValueLimit>, debits: seq<Debit>, expected: Option<Asset>, fee: Fee)
    returns (r: Result<map<string, nat>>)
    ensures r == DeclaredValues(limits, Claim(debits, expected, fee))
  {
    r := TallyDebits(debits);
    if r.Err? {
      return Err(ValueOverflow);
    }
    NoOverflow(r.value, debits);
    var charged := FeeVerdict(expected, fee);
    if charged.Err? {
      return Err(charged.code);
    }
    ghost var es := Entries(debits, fee);
    r := TallyFee(r.value, debits, fee);
    if r.Err? {
      return Err(ValueOverflow);
    }
    NoOverflow(r.value, es);
    TalliesAreTotals(r.value, es);
    var allowed := AssetsAllowed(limits, r.value, es);
    if !allowed {
      return Err(ValueAssetNotAllowed);
    }
  }

  method TallyFee(values: map<string, nat>, ghost debits: seq<Debit>, fee: Fee) returns (r: Result<map<string, nat>>)
    requires Tallies(values, debits)
    ensures r.Ok? ==> Tallies(r.value, Entries(debits, fee))
    ensures r.Err? ==> Overflows(Entries(debits, fee))
  {
    if fee.NoFee? {
      return Ok(values);
    }
    r := AddValue(values, debits, Debit(AssetId(fee.asset), fee.amount));
  }

  /** Every asset with a total is a reviewed one. */
  method AssetsAllowed(limits: seq<ValueLimit>, values: map<string, nat>, ghost es: seq<Debit>) returns (ok: bool)
    requires Tallies(values, es)
    ensures ok <==> AllReviewed(limits, es)
  {
    EffectiveKeys(limits);
    var assets := set v | v in limits :: v.asset;
    ok := values.Keys <= assets;
    if !ok {
      ghost var asset :| asset in values && asset !in assets;
      ghost var e :| e in es && e.asset == asset;
    }
  }

  lemma NoOverflow(values: map<string, nat>, es: seq<Debit>)
    requires Tallies(values, es)
    ensures !Overflows(es)
  {
  }

  lemma {:induction false} EffectiveKeys(vs: seq<ValueLimit>)
    ensures Effective(vs).Keys == set v | v in vs :: v.asset
  {
    if vs != [] {
      EffectiveKeys(vs[..|vs| - 1]);
      assert vs == vs[..|vs| - 1] + [vs[|vs| - 1]];
    }
  }
}
