/** The fixed-window mutation quota has a real rate bound. */
module MutationQuota {
  import opened Wrappers

  datatype Window = Window(start: nat, count: nat)

  /** One request against one principal's recorded window; `None` is refusal. */
  function Consume(current: Option<Window>, now: nat, window: nat, maximum: nat): Option<Window>
  {
    var next :=
      if current.Some? && SaturatingSub(now, current.value.start) < window
      then Window(current.value.start, current.value.count + 1)
      else Window(now, 1);
    if next.count > maximum then None else Some(next)
  }

  /** `consume_mutation_quota` over its table. */
  class Quota {
    var windows: map<string, Window>

    constructor ()
      ensures windows == map[]
    {
      windows := map[];
    }

    method ConsumeMutation(principal: string, now: U64, window: U64, maximum: U64) returns (r: Result<()>)
      modifies this
      ensures var next := Consume(Stored(old(windows), principal), now, window, maximum);
        && (r.Ok? <==> window != 0 && maximum != 0 && next.Some?)
        && windows == (if r.Ok? then old(windows)[principal := next.value] else old(windows))
        && (r.Err? ==> r.code == if window == 0 || maximum == 0 then QuotaInvalid else MutationQuotaExceeded)
    {
      if window == 0 || maximum == 0 {
        return Err(QuotaInvalid);
      }
      var start, next := now, 1;
      if principal in windows && SaturatingSub(now, windows[principal].start) < window {
        start := windows[principal].start;
        if windows[principal].count + 1 > U64_MAX {
          return Err(MutationQuotaExceeded);
        }
        next := windows[principal].count + 1;
      }
      if next > maximum {
        return Err(MutationQuotaExceeded);
      }
      windows := windows[principal := Window(start, next)];
      return Ok(());
    }
  }

  // -------------------------------------------------------------------- runs

  /** An admitted mutation: when, and in which recorded window. */
  datatype Admission = Admission(at: nat, start: nat)

  datatype Log = Log(current: Option<Window>, admitted: seq<Admission>)

  /** The requests of one principal, in order. */
  function Play(times: seq<nat>, window: nat, maximum: nat): Log
  {
    if times == [] then Log(None, [])
    else
      var before := Play(times[..|times| - 1], window, maximum);
      var now := times[|times| - 1];
      var next := Consume(before.current, now, window, maximum);
      if next.None? then before else Log(next, before.admitted + [Admission(now, next.value.start)])
  }

  predicate Nondecreasing(times: seq<nat>)
  {
    forall i, j :: 0 <= i < j < |times| ==> times[i] <= times[j]
  }

  /** Admissions recorded under one window. */
  function InWindow(log: seq<Admission>, start: nat): nat
  {
    if log == [] then 0
    else InWindow(log[..|log| - 1], start) + (if log[|log| - 1].start == start then 1 else 0)
  }

  /** Admissions of one window inside `[from, to)`. */
  function Inside(log: seq<Admission>, start: nat, from: nat, to: nat): nat
  {
    if log == [] then 0
    else
      var a := log[|log| - 1];
      Inside(log[..|log| - 1], start, from, to) + (if a.start == start && from <= a.at < to then 1 else 0)
  }

  /** Admissions inside `[from, to)`. */
  function Between(log: seq<Admission>, from: nat, to: nat): nat
  {
    if log == [] then 0
    else Between(log[..|log| - 1], from, to) + (if from <= log[|log| - 1].at < to then 1 else 0)
  }

  /** Each admission falls in its window, windows do not overlap, and each starts with an admission. */
  ghost predicate Spaced(log: seq<Admission>, window: nat)
  {
    && (forall i :: 0 <= i < |log| ==> log[i].start <= log[i].at < log[i].start + window)
    && (forall i, j :: 0 <= i < j < |log| ==> log[i].start == log[j].start || log[i].start + window <= log[j].start)
    && (forall i :: 0 <= i < |log| ==> Opens(log, log[i].start))
  }

  /** The window's first admission is at its very start. */
  ghost predicate Opens(log: seq<Admission>, start: nat)
  {
    exists j :: 0 <= j < |log| && log[j].start == start == log[j].at
  }

  ghost predicate LogInv(log: Log, window: nat, maximum: nat, now: nat)
  {
    && Spaced(log.admitted, window)
    && (forall s :: InWindow(log.admitted, s) <= maximum)
    && (log.current.None? <==> log.admitted == [])
    && (log.current.Some? ==>
          && log.current.value.start == log.admitted[|log.admitted| - 1].start <= now
          && log.current.value.count == InWindow(log.admitted, log.current.value.start))
  }

  lemma {:induction false} NewWindowIsEmpty(log: seq<Admission>, s: nat)
    requires forall i :: 0 <= i < |log| ==> log[i].start != s
    ensures InWindow(log, s) == 0
  {
    if log != [] {
      NewWindowIsEmpty(log[..|log| - 1], s);
    }
  }

  lemma InWindowAppend(log: seq<Admission>, a: Admission, s: nat)
    ensures InWindow(log + [a], s) == InWindow(log, s) + (if a.start == s then 1 else 0)
  {
    assert (log + [a])[..|log|] == log;
  }

  lemma OpensStays(log: seq<Admission>, a: Admission, start: nat)
    requires Opens(log, start) || a.at == a.start == start
    ensures Opens(log + [a], start)
  {
    var all := log + [a];
    if Opens(log, start) {
      var j :| 0 <= j < |log| && log[j].start == start == log[j].at;
      assert all[j] == log[j];
    } else {
      assert all[|log|] == a;
    }
  }

  /** The newest window is the latest, so a window past it is past all. */
  lemma PastTheNewest(log: seq<Admission>, start: nat, window: nat, i: nat)
    requires Spaced(log, window) && i < |log|
    requires start == log[|log| - 1].start || log[|log| - 1].start + window <= start
    ensures log[i].start == start || log[i].start + window <= start
  {
    if i < |log| - 1 {
      assert log[i].start == log[|log| - 1].start || log[i].start + window <= log[|log| - 1].start;
    }
  }

  lemma AdmitKeepsSpacing(log: seq<Admission>, a: Admission, window: nat)
    requires Spaced(log, window) && a.start <= a.at < a.start + window
    requires log != [] ==> a.start == log[|log| - 1].start || log[|log| - 1].start + window <= a.start
    requires Opens(log, a.start) || a.at == a.start
    ensures Spaced(log + [a], window)
  {
    var all := log + [a];
    forall i | 0 <= i < |all| ensures Opens(all, all[i].start) {
      OpensStays(log, a, all[i].start);
    }
    forall i, j | 0 <= i < j < |all| ensures all[i].start == all[j].start || all[i].start + window <= all[j].start {
      if j == |log| {
        PastTheNewest(log, a.start, window, i);
      }
    }
  }

  lemma ConsumeKeeps(log: Log, window: nat, maximum: nat, before: nat, now: nat)
    requires window > 0 && LogInv(log, window, maximum, before) && before <= now
    requires Consume(log.current, now, window, maximum).Some?
    ensures var next := Consume(log.current, now, window, maximum);
      LogInv(Log(next, log.admitted + [Admission(now, next.value.start)]), window, maximum, now)
  {
    var next := Consume(log.current, now, window, maximum);
    var a := Admission(now, next.value.start);
    var n := |log.admitted|;
    if log.current.Some? && SaturatingSub(now, log.current.value.start) < window {
      assert Opens(log.admitted, log.admitted[n - 1].start);
    } else {
      forall i | 0 <= i < n ensures log.admitted[i].start != now {
        assert log.admitted[i].start <= log.admitted[n - 1].start;
      }
      NewWindowIsEmpty(log.admitted, now);
    }
    AdmitKeepsSpacing(log.admitted, a, window);
    forall s ensures InWindow(log.admitted + [a], s) <= maximum {
      InWindowAppend(log.admitted, a, s);
    }
    InWindowAppend(log.admitted, a, a.start);
  }

  lemma {:induction false} PlayInv(times: seq<nat>, window: nat, maximum: nat)
    requires window > 0 && Nondecreasing(times)
    ensures LogInv(Play(times, window, maximum), window, maximum, if times == [] then 0 else times[|times| - 1])
  {
    if times != [] {
      var n := |times| - 1;
      PlayInv(times[..n], window, maximum);
      var before := if n == 0 then 0 else times[n - 1];
      var log := Play(times[..n], window, maximum);
      if Consume(log.current, times[n], window, maximum).Some? {
        ConsumeKeeps(log, window, maximum, before, times[n]);
      }
    }
  }

  // ------------------------------------------------------------------- bounds

  lemma {:induction false} InsideIsInWindow(log: seq<Admission>, start: nat, from: nat, to: nat)
    ensures Inside(log, start, from, to) <= InWindow(log, start)
    ensures (exists i :: 0 <= i < |log| && log[i].start == start && log[i].at < from) ==>
      Inside(log, start, from, to) + 1 <= InWindow(log, start)
  {
    if log != [] {
      var front := log[..|log| - 1];
      InsideIsInWindow(front, start, from, to);
      if i :| 0 <= i < |log| && log[i].start == start && log[i].at < from {
        if i < |front| {
          assert front[i].start == start && front[i].at < from;
        }
      }
    }
  }

  /** When two windows hold everything in an interval, their shares add up to it. */
  lemma {:induction false} TwoWindows(log: seq<Admission>, s1: nat, s2: nat, from: nat, to: nat)
    requires forall i :: 0 <= i < |log| && from <= log[i].at < to ==> log[i].start == s1 || log[i].start == s2
    ensures s1 != s2 ==> Between(log, from, to) == Inside(log, s1, from, to) + Inside(log, s2, from, to)
    ensures s1 == s2 ==> Between(log, from, to) == Inside(log, s1, from, to)
  {
    if log != [] {
      TwoWindows(log[..|log| - 1], s1, s2, from, to);
    }
  }

  lemma {:induction false} NothingBetween(log: seq<Admission>, from: nat, to: nat)
    requires forall i :: 0 <= i < |log| ==> !(from <= log[i].at < to)
    ensures Between(log, from, to) == 0
  {
    if log != [] {
      NothingBetween(log[..|log| - 1], from, to);
    }
  }

  /** The first and the last admission of an interval name every window it touches. */
  lemma FirstAndLast(log: seq<Admission>, window: nat, from: nat, first: nat, last: nat, i: nat)
    requires Spaced(log, window) && first <= i <= last < |log|
    requires from <= log[first].at && log[last].at < from + window
    ensures log[i].start == log[first].start || log[i].start == log[last].start
    ensures log[first].start != log[last].start ==> log[first].start < from
  {
    if first < last {
      assert log[first].start == log[last].start || log[first].start + window <= log[last].start;
    }
    if first < i && i < last {
      assert log[first].start == log[i].start || log[first].start + window <= log[i].start;
      assert log[i].start == log[last].start || log[i].start + window <= log[last].start;
    }
  }

  /** The window a first admission belongs to opened before the interval, so it lends the interval one less. */
  lemma OpeningIsOutside(log: seq<Admission>, window: nat, s: nat, from: nat, to: nat)
    requires Spaced(log, window) && Opens(log, s) && s < from
    ensures Inside(log, s, from, to) + 1 <= InWindow(log, s)
  {
    var j :| 0 <= j < |log| && log[j].start == s == log[j].at;
    InsideIsInWindow(log, s, from, to);
  }

  ghost predicate Falls(log: seq<Admission>, i: int, from: nat, to: nat)
  {
    0 <= i < |log| && from <= log[i].at < to
  }

  lemma Extremes(log: seq<Admission>, from: nat, to: nat, i: nat) returns (first: nat, last: nat)
    requires Falls(log, i, from, to)
    ensures Falls(log, first, from, to) && Falls(log, last, from, to)
    ensures forall j :: Falls(log, j, from, to) ==> first <= j <= last
  {
    first, last := i, i;
    for k := i downto 0
      invariant first <= i && Falls(log, first, from, to)
      invariant forall j :: k <= j <= i && Falls(log, j, from, to) ==> first <= j
    {
      if Falls(log, k, from, to) {
        first := k;
      }
    }
    for k := i to |log|
      invariant i <= last && Falls(log, last, from, to)
      invariant forall j :: i <= j < k && Falls(log, j, from, to) ==> j <= last
    {
      if Falls(log, k, from, to) {
        last := k;
      }
    }
  }

  /** In a log of spaced windows, any interval of one window's length holds less than two windows' worth. */
  lemma SpacedLogsAreSlow(log: seq<Admission>, window: nat, maximum: nat, from: nat)
    requires maximum > 0 && Spaced(log, window) && forall s :: InWindow(log, s) <= maximum
    ensures Between(log, from, from + window) <= 2 * maximum - 1
  {
    var to := from + window;
    if i: nat :| Falls(log, i, from, to) {
      var first, last := Extremes(log, from, to, i);
      var s1, s2 := log[first].start, log[last].start;
      forall j | Falls(log, j, from, to) ensures log[j].start == s1 || log[j].start == s2 {
        FirstAndLast(log, window, from, first, last, j);
      }
      FirstAndLast(log, window, from, first, last, first);
      TwoWindows(log, s1, s2, from, to);
      InsideIsInWindow(log, s1, from, to);
      InsideIsInWindow(log, s2, from, to);
      if s1 != s2 {
        OpeningIsOutside(log, window, s1, from, to);
      }
    } else {
      forall i | 0 <= i < |log| ensures !(from <= log[i].at < to) {
        assert !Falls(log, i, from, to);
      }
      NothingBetween(log, from, to);
    }
  }

  // ---------------------------------------------------------- many principals

  datatype Request = Request(principal: string, at: nat)

  datatype Grant = Grant(principal: string, admission: Admission)

  /** The table and every admission, over all principals' interleaved requests. */
  datatype Served = Served(windows: map<string, Window>, grants: seq<Grant>)

  function Stored(windows: map<string, Window>, principal: string): Option<Window>
  {
    if principal in windows then Some(windows[principal]) else None
  }

  function Serve(requests: seq<Request>, window: nat, maximum: nat): Served
  {
    if requests == [] then Served(map[], [])
    else
      var before := Serve(requests[..|requests| - 1], window, maximum);
      var q := requests[|requests| - 1];
      var next := Consume(Stored(before.windows, q.principal), q.at, window, maximum);
      if next.None? then before
      else Served(before.windows[q.principal := next.value],
                  before.grants + [Grant(q.principal, Admission(q.at, next.value.start))])
  }

  function TimesOf(requests: seq<Request>, principal: string): seq<nat>
  {
    if requests == [] then []
    else
      var q := requests[|requests| - 1];
      TimesOf(requests[..|requests| - 1], principal) + (if q.principal == principal then [q.at] else [])
  }

  function GrantsTo(grants: seq<Grant>, principal: string): seq<Admission>
  {
    if grants == [] then []
    else
      var g := grants[|grants| - 1];
      GrantsTo(grants[..|grants| - 1], principal) + (if g.principal == principal then [g.admission] else [])
  }

  /** Requests arrive in the order of the broker's clock. */
  predicate InClockOrder(requests: seq<Request>)
  {
    forall i, j :: 0 <= i < j < |requests| ==> requests[i].at <= requests[j].at
  }

  lemma {:induction false} TimesInOrder(requests: seq<Request>, principal: string)
    requires InClockOrder(requests)
    ensures Nondecreasing(TimesOf(requests, principal))
    ensures forall t :: t in TimesOf(requests, principal) ==> requests != [] && t <= requests[|requests| - 1].at
  {
    if requests != [] {
      var front := requests[..|requests| - 1];
      TimesInOrder(front, principal);
      forall t | t in TimesOf(front, principal) ensures t <= requests[|requests| - 1].at {
        assert t <= front[|front| - 1].at;
      }
      var times := TimesOf(front, principal);
      assert forall i :: 0 <= i < |times| ==> times[i] in times;
    }
  }

  /** Serving everyone is, for each principal, playing that principal's requests alone. */
  lemma {:induction false} PrincipalsAreIndependent(requests: seq<Request>, window: nat, maximum: nat, principal: string)
    ensures
      var all := Serve(requests, window, maximum);
      var alone := Play(TimesOf(requests, principal), window, maximum);
      && Stored(all.windows, principal) == alone.current
      && GrantsTo(all.grants, principal) == alone.admitted
  {
    if requests != [] {
      var n := |requests| - 1;
      var q := requests[n];
      PrincipalsAreIndependent(requests[..n], window, maximum, principal);
      var before := Serve(requests[..n], window, maximum);
      var times := TimesOf(requests[..n], principal);
      if q.principal == principal {
        assert (times + [q.at])[..|times|] == times;
      } else {
        assert TimesOf(requests, principal) == times;
      }
      var all := Serve(requests, window, maximum);
      if all != before {
        assert all.grants[..|before.grants|] == before.grants;
      }
    }
  }

  /**
    Whatever every principal asks for, in any clock-ordered interleaving: no recorded
    window lets a principal do more than `maximum` mutations, and no interval of one
    window's length, wherever it starts, sees `2 * maximum` of them.
  */
  lemma QuotaBoundsRate(requests: seq<Request>, window: nat, maximum: nat, principal: string, start: nat, from: nat)
    requires window > 0 && maximum > 0 && InClockOrder(requests)
    ensures
      var mine := GrantsTo(Serve(requests, window, maximum).grants, principal);
      && InWindow(mine, start) <= maximum
      && Between(mine, from, from + window) <= 2 * maximum - 1
  {
    PrincipalsAreIndependent(requests, window, maximum, principal);
    TimesInOrder(requests, principal);
    var times := TimesOf(requests, principal);
    PlayInv(times, window, maximum);
    SpacedLogsAreSlow(Play(times, window, maximum).admitted, window, maximum, from);
  }

  lemma PlayMore(times: seq<nat>, now: nat, window: nat, maximum: nat)
    ensures
      var before := Play(times, window, maximum);
      var next := Consume(before.current, now, window, maximum);
      Play(times + [now], window, maximum)
      == if next.None? then before else Log(next, before.admitted + [Admission(now, next.value.start)])
  {
    assert (times + [now])[..|times|] == times;
  }

  lemma BetweenAppend(log: seq<Admission>, a: Admission, from: nat, to: nat)
    ensures Between(log + [a], from, to) == Between(log, from, to) + (if from <= a.at < to then 1 else 0)
  {
    assert (log + [a])[..|log|] == log;
  }

  lemma LaterStaysInOrder(times: seq<nat>, now: nat)
    requires Nondecreasing(times) && (times != [] ==> times[|times| - 1] <= now)
    ensures Nondecreasing(times + [now])
  {
    forall i, j | 0 <= i < j < |times + [now]| ensures (times + [now])[i] <= (times + [now])[j] {
      if j == |times| && i < |times| - 1 {
        assert times[i] <= times[|times| - 1];
      }
    }
  }

  /** The next request is let through, inside the interval. */
  lemma OneMore(times: seq<nat>, now: nat, window: nat, maximum: nat, from: nat, to: nat)
    requires from <= now < to && Consume(Play(times, window, maximum).current, now, window, maximum).Some?
    ensures
      var before, after := Play(times, window, maximum), Play(times + [now], window, maximum);
      && after.current == Consume(before.current, now, window, maximum)
      && Between(after.admitted, from, to) == Between(before.admitted, from, to) + 1
  {
    var before := Play(times, window, maximum);
    PlayMore(times, now, window, maximum);
    var next := Consume(before.current, now, window, maximum);
    BetweenAppend(before.admitted, Admission(now, next.value.start), from, to);
  }

  /** A clock-ordered run with the given newest window and number of admissions in the interval. */
  ghost predicate Reaches(times: seq<nat>, last: nat, w: Window, admitted: nat, window: nat, maximum: nat, from: nat, to: nat)
  {
    && Nondecreasing(times) && times != [] && times[|times| - 1] == last
    && Play(times, window, maximum).current == Some(w)
    && Between(Play(times, window, maximum).admitted, from, to) == admitted
  }

  /** A principal that asks `k` times at one instant of its current window is let through `k` times. */
  lemma {:induction false} Burst(
    times: seq<nat>, last: nat, w: Window, n: nat, now: nat, k: nat, window: nat, maximum: nat, from: nat, to: nat)
    returns (more: seq<nat>)
    requires Reaches(times, last, w, n, window, maximum, from, to)
    requires last <= now && from <= now < to
    requires SaturatingSub(now, w.start) < window && w.count + k <= maximum
    ensures Reaches(more, if k == 0 then last else now, Window(w.start, w.count + k), n + k, window, maximum, from, to)
  {
    if k == 0 {
      more := times;
    } else {
      var most := Burst(times, last, w, n, now, k - 1, window, maximum, from, to);
      BurstOnce(most, if k == 1 then last else now, Window(w.start, w.count + k - 1), n + k - 1, now, window, maximum, from, to);
      more := most + [now];
    }
  }

  lemma BurstOnce(times: seq<nat>, last: nat, w: Window, n: nat, now: nat, window: nat, maximum: nat, from: nat, to: nat)
    requires Reaches(times, last, w, n, window, maximum, from, to)
    requires last <= now && from <= now < to
    requires SaturatingSub(now, w.start) < window && w.count < maximum
    ensures Reaches(times + [now], now, Window(w.start, w.count + 1), n + 1, window, maximum, from, to)
  {
    OneMore(times, now, window, maximum, from, to);
    LaterStaysInOrder(times, now);
  }

  lemma FirstRequest(window: nat, maximum: nat, from: nat, to: nat) returns (times: seq<nat>)
    requires window > 0 && maximum > 0 && from > 0
    ensures Reaches(times, 0, Window(0, 1), 0, window, maximum, from, to)
  {
    times := [] + [0];
    PlayMore([], 0, window, maximum);
    BetweenAppend([], Admission(0, 0), from, to);
  }

  /** A request one window later opens the next window. */
  lemma NextWindow(times: seq<nat>, last: nat, w: Window, n: nat, now: nat, window: nat, maximum: nat, from: nat, to: nat)
    requires Reaches(times, last, w, n, window, maximum, from, to)
    requires last <= now && from <= now < to && w.start + window <= now && maximum > 0
    ensures Reaches(times + [now], now, Window(now, 1), n + 1, window, maximum, from, to)
  {
    OneMore(times, now, window, maximum, from, to);
    LaterStaysInOrder(times, now);
  }

  /** The interval bound is exact: requests in clock order can reach `2 * maximum - 1` of it. */
  lemma QuotaBoundIsTight(window: nat, maximum: nat) returns (times: seq<nat>)
    requires window > 1 && maximum > 0
    ensures Nondecreasing(times)
    ensures Between(Play(times, window, maximum).admitted, window - 1, window - 1 + window) == 2 * maximum - 1
  {
    var from, to := window - 1, window - 1 + window;
    var start := FirstRequest(window, maximum, from, to);
    var first := Burst(start, 0, Window(0, 1), 0, from, maximum - 1, window, maximum, from, to);
    NextWindow(first, if maximum == 1 then 0 else from, Window(0, maximum), maximum - 1, window, window, maximum, from, to);
    times := Burst(first + [window], window, Window(window, 1), maximum, window, maximum - 1, window, maximum, from, to);
  }

  // ------------------------------------------------------- any clock at all

  /** One step forward opens a window; falling back to zero spends more of it at an instant already past. */
  lemma RockOnce(times: seq<nat>, peak: nat, window: nat, maximum: nat)
    requires 0 < window <= peak && maximum >= 2
    requires var c := Play(times, window, maximum).current; c.Some? ==> c.value.start + window <= peak
    ensures
      var before, after := Play(times, window, maximum), Play(times + [peak] + [0], window, maximum);
      && after.current == Some(Window(peak, 2))
      && Between(after.admitted, 0, window) == Between(before.admitted, 0, window) + 1
  {
    var before := Play(times, window, maximum);
    PlayMore(times, peak, window, maximum);
    PlayMore(times + [peak], 0, window, maximum);
    BetweenAppend(before.admitted, Admission(peak, peak), 0, window);
    BetweenAppend(before.admitted + [Admission(peak, peak)], Admission(0, peak), 0, window);
  }

  /** With a maximum of two or more, under a clock that steps back one interval can see any number of mutations. */
  lemma {:induction false} SteppedBackClockEscapes(n: nat, window: nat, maximum: nat) returns (times: seq<nat>, peak: nat)
    requires window > 0 && maximum >= 2
    ensures Between(Play(times, window, maximum).admitted, 0, window) == n
    ensures var c := Play(times, window, maximum).current; c.Some? ==> c.value.start == peak
  {
    if n == 0 {
      times, peak := [], 0;
    } else {
      var before, last := SteppedBackClockEscapes(n - 1, window, maximum);
      peak := last + window;
      times := before + [peak] + [0];
      RockOnce(before, peak, window, maximum);
    }
  }

  /** With a maximum of one an admission always opens its window, a window's length past the last one. */
  lemma {:induction false} OneAtATime(times: seq<nat>, window: nat)
    requires window > 0
    ensures var log := Play(times, window, 1);
      LogInv(log, window, 1, if log.current.Some? then log.current.value.start else 0)
  {
    if times != [] {
      var n := |times| - 1;
      OneAtATime(times[..n], window);
      var log := Play(times[..n], window, 1);
      if Consume(log.current, times[n], window, 1).Some? {
        CurrentCounts(log, window);
        ConsumeKeeps(log, window, 1, if log.current.Some? then log.current.value.start else 0, times[n]);
      }
    }
  }

  /** A recorded window has been counted at least once. */
  lemma CurrentCounts(log: Log, window: nat)
    requires LogInv(log, window, 1, if log.current.Some? then log.current.value.start else 0)
    ensures log.current.Some? ==> log.current.value.count == 1
  {
    if log.current.Some? {
      var n := |log.admitted| - 1;
      InWindowAppend(log.admitted[..n], log.admitted[n], log.admitted[n].start);
      assert log.admitted[..n] + [log.admitted[n]] == log.admitted;
    }
  }

  /** No interval of one window's length holds `2 * maximum` admissions of the given requests. */
  ghost predicate Bounded(times: seq<nat>, window: nat, maximum: nat)
  {
    forall from: nat :: Rate(times, window, maximum, from) <= 2 * maximum - 1
  }

  /** The admissions of one principal in the interval of one window's length that starts at `from`. */
  function Rate(times: seq<nat>, window: nat, maximum: nat, from: nat): nat
  {
    Between(Play(times, window, maximum).admitted, from, from + window)
  }

  /** Exactly which quotas bound the rate whatever the clock does: those of one mutation per window. */
  lemma AnyClockExact(window: nat, maximum: nat)
    requires window > 0 && maximum > 0
    ensures (forall times: seq<nat> :: Bounded(times, window, maximum)) <==> maximum == 1
  {
    if maximum == 1 {
      forall times: seq<nat> ensures Bounded(times, window, 1) {
        OneAtATime(times, window);
        forall from: nat ensures Rate(times, window, 1, from) <= 1 {
          SpacedLogsAreSlow(Play(times, window, 1).admitted, window, 1, from);
        }
      }
    } else {
      var times, _ := SteppedBackClockEscapes(2 * maximum, window, maximum);
      assert Rate(times, window, maximum, 0) == 2 * maximum;
      assert !Bounded(times, window, maximum);
    }
  }
}
