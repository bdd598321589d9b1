/** How many triggers are admitted and run in an hour. */
module TriggerBounds {
  import opened RateWindows
  import opened Triggers

  function RateOf(s: TriggerState): Rate { Rate(s.count, s.resetAt) }

  function RateAfter(attempts: seq<Attempt>, k: nat): Rate
    requires k <= |attempts|
  {
    RateOf(After(attempts, k).state)
  }

  function Times(attempts: seq<Attempt>): seq<real> {
    seq(|attempts|, k requires 0 <= k < |attempts| => attempts[k].rateAt)
  }

  ghost function Admits(attempts: seq<Attempt>): seq<bool> {
    seq(|attempts|, k requires 0 <= k < |attempts| => AdmittedAt(attempts, k))
  }

  function Rates(attempts: seq<Attempt>): seq<Rate> {
    seq(|attempts| + 1, k requires 0 <= k <= |attempts| => RateAfter(attempts, k))
  }

  /** The attempts as the rate limiter sees them. */
  ghost function TraceOf(attempts: seq<Attempt>): Trace {
    Trace(Times(attempts), Admits(attempts), Rates(attempts))
  }

  lemma ExecuteIsStep(store: Store, a: Attempt)
    ensures Step(RateOf(store.state), RateOf(Execute(store, a).state), a.rateAt, Admitted(store.state, a))
  {
  }

  lemma AttemptsAreTrace(attempts: seq<Attempt>)
    requires Rising(attempts)
    ensures IsTrace(TraceOf(attempts))
  {
    var tr := TraceOf(attempts);
    forall k | 0 <= k < |attempts| ensures Step(tr.rates[k], tr.rates[k + 1], tr.times[k], tr.admits[k]) {
      ExecuteIsStep(After(attempts, k), attempts[k]);
    }
    forall j, k | 0 <= j < k < |attempts| ensures tr.times[j] <= tr.times[k] {
      assert attempts[j].rateAt <= attempts[j].storedAt <= attempts[k].rateAt;
    }
  }

  /** How many of the attempts were admitted within the span. */
  ghost function AdmittedWithin(attempts: seq<Attempt>, span: Span): nat
    requires Rising(attempts)
  {
    AttemptsAreTrace(attempts);
    AdmittedIn(TraceOf(attempts), |attempts|, span)
  }

  ghost predicate RanAt(attempts: seq<Attempt>, k: nat)
    requires k < |attempts|
  {
    Decide(After(attempts, k).state, attempts[k]) == Ran
  }

  /** How many of the first `n` attempts created a run within the span. */
  ghost function RanIn(attempts: seq<Attempt>, n: nat, span: Span): nat
    requires n <= |attempts|
  {
    if n == 0 then 0
    else RanIn(attempts, n - 1, span) + if RanAt(attempts, n - 1) && span.Has(attempts[n - 1].rateAt) then 1 else 0
  }

  lemma {:induction false} RanIsAdmitted(attempts: seq<Attempt>, n: nat, span: Span, tr: Trace)
    requires n <= |attempts| && tr == TraceOf(attempts) && IsTrace(tr)
    ensures RanIn(attempts, n, span) <= AdmittedIn(tr, n, span)
    ensures AllManual(attempts) ==> RanIn(attempts, n, span) == AdmittedIn(tr, n, span)
  {
    if n > 0 {
      RanIsAdmitted(attempts, n - 1, span, tr);
      AdmittedAtIndex(attempts, n - 1);
    }
  }

  lemma {:induction false} AdmittedAtIndex(attempts: seq<Attempt>, k: nat)
    requires k < |attempts|
    ensures TraceOf(attempts).admits[k] == AdmittedAt(attempts, k) && TraceOf(attempts).times[k] == attempts[k].rateAt
    ensures RanAt(attempts, k) ==> AdmittedAt(attempts, k)
    ensures AllManual(attempts) ==> RanAt(attempts, k) == AdmittedAt(attempts, k)
  {
    if AllManual(attempts) {
      ManualRuns(After(attempts, k).state, attempts[k].rateAt);
    }
  }

  lemma {:induction false} RanWithin(attempts: seq<Attempt>, span: Span)
    requires Rising(attempts)
    ensures RanIn(attempts, |attempts|, span) <= AdmittedWithin(attempts, span)
    ensures AllManual(attempts) ==> RanIn(attempts, |attempts|, span) == AdmittedWithin(attempts, span)
  {
    AttemptsAreTrace(attempts);
    RanIsAdmitted(attempts, |attempts|, span, TraceOf(attempts));
  }

  /** At most 200 triggers are admitted, and at most 200 runs created, in an hour; 199 when its end is left out. */
  lemma {:induction false} HourlyBounds(attempts: seq<Attempt>, from: real)
    requires Rising(attempts)
    ensures var hour := Span(from, from + HOUR, true);
            RanIn(attempts, |attempts|, hour) <= AdmittedWithin(attempts, hour) <= 200
    ensures var hour := Span(from, from + HOUR, false);
            RanIn(attempts, |attempts|, hour) <= AdmittedWithin(attempts, hour) <= 199
  {
    AttemptsAreTrace(attempts);
    ClosedHour(TraceOf(attempts), from);
    HalfOpenHour(TraceOf(attempts), from);
    RanWithin(attempts, Span(from, from + HOUR, true));
    RanWithin(attempts, Span(from, from + HOUR, false));
  }

  /** Attempt `k` starts a window within the span after an earlier attempt was admitted within it. */
  ghost predicate OpensAgain(attempts: seq<Attempt>, k: nat, span: Span)
    requires Rising(attempts) && k < |attempts|
  {
    AttemptsAreTrace(attempts);
    OpensAgainAt(TraceOf(attempts), k, span)
  }

  /** Without such an attempt at most 100 triggers are admitted within the span. */
  lemma {:induction false} HundredPerWindow(attempts: seq<Attempt>, span: Span)
    requires Rising(attempts) && forall k | 0 <= k < |attempts| :: !OpensAgain(attempts, k, span)
    ensures RanIn(attempts, |attempts|, span) <= AdmittedWithin(attempts, span) <= 100
  {
    AttemptsAreTrace(attempts);
    forall k | 0 <= k < |attempts| ensures !OpensAgainAt(TraceOf(attempts), k, span) {
      assert !OpensAgain(attempts, k, span);
    }
    AtMostOneWindow(TraceOf(attempts), span);
    RanWithin(attempts, span);
  }

  // ----- manual triggers fill every window

  /** A manual trigger of a live workflow whose conditions hold, at one instant. */
  function Manual(t: real): Attempt {
    Attempt(true, 0, t, t, t, Live(true), true, NoFault)
  }

  ghost predicate AllManual(attempts: seq<Attempt>) {
    forall k | 0 <= k < |attempts| :: attempts[k] == Manual(attempts[k].rateAt)
  }

  lemma ManualRuns(s: TriggerState, t: real)
    ensures Decide(s, Manual(t)) == if Opens(RateOf(s), t) || s.count < MAX_PER_WINDOW then Ran else RateLimited
  {
  }

  function Manuals(attempts: seq<Attempt>, t: real, m: nat): seq<Attempt> {
    if m == 0 then attempts else Manuals(attempts, t, m - 1) + [Manual(t)]
  }

  lemma {:induction false} AfterPrefix(attempts: seq<Attempt>, more: seq<Attempt>, n: nat)
    requires n <= |attempts| && attempts <= more
    ensures After(more, n) == After(attempts, n)
  {
    if n > 0 {
      AfterPrefix(attempts, more, n - 1);
    }
  }

  lemma {:induction false} RatesPrefix(attempts: seq<Attempt>, a: Attempt)
    ensures Rates(attempts + [a])[..|attempts| + 1] == Rates(attempts)
  {
    forall k | 0 <= k <= |attempts| ensures RateAfter(attempts + [a], k) == RateAfter(attempts, k) {
      AfterPrefix(attempts, attempts + [a], k);
    }
  }

  lemma {:induction false} AdmitsPrefix(attempts: seq<Attempt>, a: Attempt)
    ensures Admits(attempts + [a])[..|attempts|] == Admits(attempts)
  {
    forall k | 0 <= k < |attempts| ensures AdmittedAt(attempts + [a], k) == AdmittedAt(attempts, k) {
      AfterPrefix(attempts, attempts + [a], k);
    }
  }

  lemma {:induction false} LastOne(attempts: seq<Attempt>, a: Attempt, store: Store)
    requires store == After(attempts, |attempts|)
    ensures AdmittedAt(attempts + [a], |attempts|) == Admitted(store.state, a)
    ensures RateAfter(attempts + [a], |attempts| + 1) == RateOf(Execute(store, a).state)
  {
    AfterPrefix(attempts, attempts + [a], |attempts|);
  }

  lemma {:induction false} OneMore(attempts: seq<Attempt>, a: Attempt, store: Store)
    requires store == After(attempts, |attempts|)
    ensures Times(attempts + [a]) == Times(attempts) + [a.rateAt]
    ensures Admits(attempts + [a]) == Admits(attempts) + [Admitted(store.state, a)]
    ensures Rates(attempts + [a]) == Rates(attempts) + [RateOf(Execute(store, a).state)]
  {
    RatesPrefix(attempts, a);
    AdmitsPrefix(attempts, a);
    LastOne(attempts, a, store);
  }

  lemma ManualStep(store: Store, t: real)
    requires Opens(RateOf(store.state), t) || store.state.count < MAX_PER_WINDOW
    ensures Admitted(store.state, Manual(t))
    ensures Step(RateOf(store.state), RateOf(Execute(store, Manual(t)).state), t, true)
  {
    ManualRuns(store.state, t);
    ExecuteIsStep(store, Manual(t));
  }

  ghost predicate Before(attempts: seq<Attempt>, t: real) {
    Rising(attempts) && (attempts != [] ==> attempts[|attempts| - 1].storedAt <= t)
  }

  lemma {:induction false} ManualKeepsBefore(attempts: seq<Attempt>, t: real)
    requires Before(attempts, t)
    ensures Before(attempts + [Manual(t)], t)
    ensures AllManual(attempts) ==> AllManual(attempts + [Manual(t)])
  {
    var n := |attempts|;
    forall k | 0 <= k < n ensures attempts[k].storedAt <= t {
      assert attempts[n - 1].rateAt <= attempts[n - 1].storedAt;
    }
  }

  /** A manual trigger that the limiter lets through extends the trace by an admission. */
  lemma {:induction false} ManualAdmits(attempts: seq<Attempt>, t: real, tr: Trace)
    requires tr == TraceOf(attempts)
    requires Opens(tr.rates[|attempts|], t) || tr.rates[|attempts|].count < MAX_PER_WINDOW
    ensures TraceOf(attempts + [Manual(t)]) == Admit(tr, t)
  {
    var store := After(attempts, |attempts|);
    OneMore(attempts, Manual(t), store);
    ManualStep(store, t);
  }

  lemma {:induction false} StillOpen(tr: Trace, t: real, m: nat, more: Trace)
    requires IsTrace(tr) && tr.times != [] && tr.times[|tr.times| - 1] <= t && more == AdmitTimes(tr, t, m)
    requires !Opens(tr.rates[|tr.times|], t) && tr.rates[|tr.times|].count + m < MAX_PER_WINDOW
    ensures IsTrace(more) && |more.times| == |tr.times| + m && more.rates[|more.times|].count < MAX_PER_WINDOW
  {
    FillWindow(tr, t, m, Span(t, t, true));
  }

  lemma {:induction false} ManualsKeepBefore(attempts: seq<Attempt>, t: real, m: nat)
    requires Before(attempts, t)
    ensures Before(Manuals(attempts, t, m), t) && |Manuals(attempts, t, m)| == |attempts| + m
    ensures AllManual(attempts) ==> AllManual(Manuals(attempts, t, m))
  {
    if m > 0 {
      ManualsKeepBefore(attempts, t, m - 1);
      ManualKeepsBefore(Manuals(attempts, t, m - 1), t);
    }
  }

  /** So do as many of them as the counter leaves. */
  lemma {:induction false} ManualsAdmit(attempts: seq<Attempt>, t: real, m: nat, tr: Trace, more: seq<Attempt>)
    requires Before(attempts, t) && attempts != [] && tr == TraceOf(attempts) && more == Manuals(attempts, t, m)
    requires IsTrace(tr) && !Opens(tr.rates[|attempts|], t) && tr.rates[|attempts|].count + m <= MAX_PER_WINDOW
    requires tr.times[|attempts| - 1] <= t
    ensures Before(more, t) && |more| == |attempts| + m && (AllManual(attempts) ==> AllManual(more))
    ensures TraceOf(more) == AdmitTimes(tr, t, m)
  {
    ManualsKeepBefore(attempts, t, m);
    TraceOfManuals(attempts, t, m, tr);
  }

  lemma {:induction false} TraceOfManuals(attempts: seq<Attempt>, t: real, m: nat, tr: Trace)
    requires tr == TraceOf(attempts) && IsTrace(tr) && attempts != [] && tr.times[|attempts| - 1] <= t
    requires !Opens(tr.rates[|attempts|], t) && tr.rates[|attempts|].count + m <= MAX_PER_WINDOW
    ensures |Manuals(attempts, t, m)| == |attempts| + m
    ensures TraceOf(Manuals(attempts, t, m)) == AdmitTimes(tr, t, m)
  {
    if m > 0 {
      TraceOfManuals(attempts, t, m - 1, tr);
      StillOpen(tr, t, m - 1, AdmitTimes(tr, t, m - 1));
      ManualAdmits(Manuals(attempts, t, m - 1), t, AdmitTimes(tr, t, m - 1));
    }
  }

  /** When the last attempt starts a window again, 99 manual triggers once it is over make more than 100 admissions. */
  lemma {:induction false} OpeningAgainAdmitsMore(attempts: seq<Attempt>, span: Span)
    requires Rising(attempts) && attempts != [] && OpensAgain(attempts, |attempts| - 1, span)
    requires var last := attempts[|attempts| - 1]; span.Has(last.storedAt) && last.storedAt < last.rateAt + HOUR
    ensures var more := Manuals(attempts, attempts[|attempts| - 1].storedAt, 99);
            Rising(more) && AdmittedWithin(more, span) > 100
  {
    var tr, n, t := TraceOf(attempts), |attempts|, attempts[|attempts| - 1].storedAt;
    AttemptsAreTrace(attempts);
    assert Step(tr.rates[n - 1], tr.rates[n], tr.times[n - 1], tr.admits[n - 1]);
    OpeningAgainExceeds(tr, t, span);
    ManualsAdmit(attempts, t, 99, tr, Manuals(attempts, t, 99));
  }

  /** A manual trigger at 0, 99 at `x`, and 100 at the end of the hour. */
  function Bursts(x: real): seq<Attempt> {
    Manuals(Manuals([Manual(0.0)], x, 99) + [Manual(HOUR)], HOUR, 99)
  }

  lemma OneManual()
    ensures Before([Manual(0.0)], 0.0) && AllManual([Manual(0.0)])
    ensures TraceOf([Manual(0.0)]) == Admit(NO_TRACE, 0.0)
  {
    var none: seq<Attempt> := [];
    assert none + [Manual(0.0)] == [Manual(0.0)] && TraceOf(none) == NO_TRACE;
    ManualAdmits(none, 0.0, NO_TRACE);
  }

  lemma BurstsAreTwo(x: real)
    requires 0.0 <= x < HOUR
    ensures Before(Bursts(x), HOUR) && AllManual(Bursts(x)) && TraceOf(Bursts(x)) == TwoBursts(x)
  {
    var span, one := Span(0.0, HOUR, true), Admit(NO_TRACE, 0.0);
    var many, full := AdmitTimes(one, x, 99), Manuals([Manual(0.0)], x, 99);
    OneManual();
    AdmitOne(NO_TRACE, 0.0, span);
    ManualsAdmit([Manual(0.0)], x, 99, one, full);
    FillWindow(one, x, 99, span);
    ManualKeepsBefore(full, HOUR);
    ManualAdmits(full, HOUR, many);
    AdmitOne(many, HOUR, span);
    ManualsAdmit(full + [Manual(HOUR)], HOUR, 99, Admit(many, HOUR), Bursts(x));
  }

  /** Both hourly bounds are reached, and every admission is a run. */
  lemma {:induction false} HourlyBoundsAreReached(x: real)
    requires 0.0 < x < HOUR
    ensures Rising(Bursts(x))
    ensures var hour := Span(0.0, HOUR, true);
            RanIn(Bursts(x), |Bursts(x)|, hour) == AdmittedWithin(Bursts(x), hour) == 200
    ensures var hour := Span(x, x + HOUR, false);
            RanIn(Bursts(x), |Bursts(x)|, hour) == AdmittedWithin(Bursts(x), hour) == 199
  {
    BurstsAreTwo(x);
    BoundsAreReached(x);
    RanWithin(Bursts(x), Span(0.0, HOUR, true));
    RanWithin(Bursts(x), Span(x, x + HOUR, false));
  }
}
