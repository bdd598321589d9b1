/**
 The lazy fixed-window limiter on its own: a trace of times, of which some are admitted, with the
 counter and the end of its window before and after each.
 */
module RateWindows {
  import opened Results

  const MAX_PER_WINDOW := 100
  const HOUR := 3600.0

  datatype Rate = Rate(count: int, resetAt: Option<real>)

  datatype Trace = Trace(times: seq<real>, admits: seq<bool>, rates: seq<Rate>)

  /** An admission at `now` starts a window. */
  predicate Opens(r: Rate, now: real) {
    r.resetAt.None? || now >= r.resetAt.value
  }

  /** Only admissions move the window or the counter, and a full window admits nothing. */
  ghost predicate Step(r: Rate, next: Rate, now: real, admits: bool) {
    if !admits then next == r
    else if Opens(r, now) then next == Rate(1, Some(now + HOUR))
    else r.count < MAX_PER_WINDOW && next == Rate(r.count + 1, r.resetAt)
  }

  ghost predicate IsTrace(tr: Trace) {
    && |tr.admits| == |tr.times| && |tr.rates| == |tr.times| + 1 && tr.rates[0] == Rate(0, None)
    && (forall k | 0 <= k < |tr.times| :: Step(tr.rates[k], tr.rates[k + 1], tr.times[k], tr.admits[k]))
    && forall j, k | 0 <= j < k < |tr.times| :: tr.times[j] <= tr.times[k]
  }

  /** A stretch of time that includes its start, and its end when closed. */
  datatype Span = Span(from: real, to: real, closed: bool) {
    predicate Has(t: real) {
      from <= t && (t < to || (closed && t == to))
    }
  }

  /** How many of the first `n` times were admitted within the span. */
  ghost function AdmittedIn(tr: Trace, n: nat, span: Span): nat
    requires IsTrace(tr) && n <= |tr.times|
  {
    if n == 0 then 0 else AdmittedIn(tr, n - 1, span) + if tr.admits[n - 1] && span.Has(tr.times[n - 1]) then 1 else 0
  }

  /** Where the window began. */
  ghost function Start(r: Rate): real
    requires r.resetAt.Some?
  {
    r.resetAt.value - HOUR
  }

  lemma {:induction false} NoneAdmitted(tr: Trace, n: nat, span: Span)
    requires IsTrace(tr) && n <= |tr.times| && forall k | 0 <= k < n && tr.admits[k] :: tr.times[k] < span.from
    ensures AdmittedIn(tr, n, span) == 0
  {
    if n > 0 {
      NoneAdmitted(tr, n - 1, span);
    }
  }

  /** Nothing is admitted at or after the end of the open window. */
  ghost predicate WindowFits(tr: Trace, n: nat)
    requires IsTrace(tr) && n <= |tr.times|
  {
    var r := tr.rates[n];
    && 0 <= r.count <= MAX_PER_WINDOW && (r.resetAt.Some? ==> r.count >= 1)
    && (r.resetAt.None? ==> forall k | 0 <= k < n :: !tr.admits[k])
    && (r.resetAt.Some? ==> n > 0 && Start(r) <= tr.times[n - 1])
    && (r.resetAt.Some? ==> forall k | 0 <= k < n && tr.admits[k] :: tr.times[k] < r.resetAt.value)
  }

  lemma {:induction false} WindowsFit(tr: Trace, n: nat)
    requires IsTrace(tr) && n <= |tr.times|
    ensures WindowFits(tr, n)
  {
    if n > 0 {
      WindowsFit(tr, n - 1);
      assert Step(tr.rates[n - 1], tr.rates[n], tr.times[n - 1], tr.admits[n - 1]);
    }
  }

  /** The counter is the number of admissions since its window began. */
  lemma {:induction false} CounterCountsWindow(tr: Trace, n: nat, to: real)
    requires IsTrace(tr) && n <= |tr.times| && (n > 0 ==> tr.times[n - 1] <= to)
    ensures var r := tr.rates[n];
            r.resetAt.Some? ==> r.count == AdmittedIn(tr, n, Span(Start(r), to, true)) <= MAX_PER_WINDOW
  {
    WindowsFit(tr, n);
    if n > 0 {
      var r, now := tr.rates[n - 1], tr.times[n - 1];
      CounterCountsWindow(tr, n - 1, to);
      WindowsFit(tr, n - 1);
      assert Step(r, tr.rates[n], now, tr.admits[n - 1]);
      if tr.admits[n - 1] && Opens(r, now) {
        NoneAdmitted(tr, n - 1, Span(now, to, true));
      }
    }
  }

  // ----- bounds over any hour

  /** Up to the end of a closed hour: at most a window that began by then, and one before it. */
  ghost predicate WithinClosed(r: Rate, admitted: nat, from: real) {
    if r.resetAt.None? then admitted == 0
    else admitted <= if Start(r) <= from then r.count else MAX_PER_WINDOW + r.count
  }

  /**
   Before the end of an hour that leaves its end out: the first admission of an earlier window lies before
   the hour.
   */
  ghost predicate WithinOpen(r: Rate, admitted: nat, from: real) {
    if r.resetAt.None? then admitted == 0
    else admitted <= if Start(r) < from then r.count - 1
                     else if Start(r) == from then r.count else MAX_PER_WINDOW - 1 + r.count
  }

  ghost predicate Within(r: Rate, admitted: nat, span: Span) {
    if span.closed then WithinClosed(r, admitted, span.from) else WithinOpen(r, admitted, span.from)
  }

  lemma WithinStep(r: Rate, next: Rate, now: real, admits: bool, span: Span, before: nat)
    requires Within(r, before, span) && Step(r, next, now, admits) && 0 <= r.count <= MAX_PER_WINDOW
    requires span.to == span.from + HOUR && (now < span.from || span.Has(now)) && (r.resetAt.Some? ==> r.count >= 1)
    requires Opens(r, now) && now <= span.from ==> before == 0
    ensures Within(next, before + if admits && span.Has(now) then 1 else 0, span)
  {
  }

  lemma NothingBefore(tr: Trace, n: nat, span: Span)
    requires IsTrace(tr) && n < |tr.times| && Opens(tr.rates[n], tr.times[n]) && tr.times[n] <= span.from
    ensures AdmittedIn(tr, n, span) == 0
  {
    WindowsFit(tr, n);
    NoneAdmitted(tr, n, span);
  }

  lemma {:induction false} HourIsWithin(tr: Trace, n: nat, span: Span)
    requires IsTrace(tr) && n <= |tr.times| && span.to == span.from + HOUR
    ensures AdmittedIn(tr, n, span) <= if span.closed then 2 * MAX_PER_WINDOW else 2 * MAX_PER_WINDOW - 1
    ensures n == 0 || tr.times[n - 1] < span.from || span.Has(tr.times[n - 1]) ==>
              Within(tr.rates[n], AdmittedIn(tr, n, span), span)
  {
    if n > 0 {
      var r, now := tr.rates[n - 1], tr.times[n - 1];
      HourIsWithin(tr, n - 1, span);
      if now < span.from || span.Has(now) {
        WindowsFit(tr, n - 1);
        WindowsFit(tr, n);
        assert Step(r, tr.rates[n], now, tr.admits[n - 1]);
        assert n > 1 ==> tr.times[n - 2] <= now;
        if Opens(r, now) && now <= span.from { NothingBefore(tr, n - 1, span); }
        WithinStep(r, tr.rates[n], now, tr.admits[n - 1], span, AdmittedIn(tr, n - 1, span));
      }
    }
  }

  /** No hour that includes its end admits more than 200. */
  lemma ClosedHour(tr: Trace, from: real)
    requires IsTrace(tr)
    ensures AdmittedIn(tr, |tr.times|, Span(from, from + HOUR, true)) <= 200
  {
    HourIsWithin(tr, |tr.times|, Span(from, from + HOUR, true));
  }

  /** No hour that leaves its end out admits more than 199. */
  lemma HalfOpenHour(tr: Trace, from: real)
    requires IsTrace(tr)
    ensures AdmittedIn(tr, |tr.times|, Span(from, from + HOUR, false)) <= 199
  {
    HourIsWithin(tr, |tr.times|, Span(from, from + HOUR, false));
  }

  // ----- when a stretch of time admits no more than one window

  /** The admission at index `k` starts a window within the span, after an admission within the span. */
  ghost predicate OpensAgainAt(tr: Trace, k: nat, span: Span)
    requires IsTrace(tr) && k < |tr.times|
  {
    tr.admits[k] && Opens(tr.rates[k], tr.times[k]) && span.Has(tr.times[k]) && AdmittedIn(tr, k, span) > 0
  }

  lemma {:induction false} OneWindow(tr: Trace, n: nat, span: Span)
    requires IsTrace(tr) && n <= |tr.times| && forall k | 0 <= k < n :: !OpensAgainAt(tr, k, span)
    ensures AdmittedIn(tr, n, span) <= MAX_PER_WINDOW
    ensures n == 0 || tr.times[n - 1] < span.from || span.Has(tr.times[n - 1]) ==>
        AdmittedIn(tr, n, span) <= tr.rates[n].count
  {
    WindowsFit(tr, n);
    if n > 0 {
      var now := tr.times[n - 1];
      OneWindow(tr, n - 1, span);
      WindowsFit(tr, n - 1);
      assert Step(tr.rates[n - 1], tr.rates[n], now, tr.admits[n - 1]);
      assert !OpensAgainAt(tr, n - 1, span);
      assert n > 1 ==> tr.times[n - 2] <= now;
      if now < span.from { NoneAdmitted(tr, n, span); }
    }
  }

  /** A stretch of time in which no window starts after an earlier admission admits at most 100. */
  lemma AtMostOneWindow(tr: Trace, span: Span)
    requires IsTrace(tr) && forall k | 0 <= k < |tr.times| :: !OpensAgainAt(tr, k, span)
    ensures AdmittedIn(tr, |tr.times|, span) <= 100
  {
    OneWindow(tr, |tr.times|, span);
  }

  // ----- longer traces

  /** `tr` with one more time, admitted. */
  function Admit(tr: Trace, now: real): Trace
    requires tr.rates != []
  {
    var r := tr.rates[|tr.rates| - 1];
    Trace(tr.times + [now], tr.admits + [true],
          tr.rates + [if Opens(r, now) then Rate(1, Some(now + HOUR)) else Rate(r.count + 1, r.resetAt)])
  }

  ghost predicate CanAdmit(tr: Trace, now: real)
    requires IsTrace(tr)
  {
    var r := tr.rates[|tr.times|];
    && (Opens(r, now) || r.count < MAX_PER_WINDOW)
    && (tr.times != [] ==> tr.times[|tr.times| - 1] <= now)
  }

  lemma {:induction false} SamePrefix(tr: Trace, more: Trace, n: nat, span: Span)
    requires IsTrace(tr) && IsTrace(more) && n <= |tr.times| && tr.times <= more.times && tr.admits <= more.admits
    ensures n <= |more.times| && AdmittedIn(more, n, span) == AdmittedIn(tr, n, span)
  {
    if n > 0 {
      SamePrefix(tr, more, n - 1, span);
    }
  }

  lemma AdmitIsTrace(tr: Trace, now: real, more: Trace)
    requires IsTrace(tr) && CanAdmit(tr, now) && more == Admit(tr, now)
    ensures IsTrace(more)
  {
    forall k | 0 <= k < |more.times| ensures Step(more.rates[k], more.rates[k + 1], more.times[k], more.admits[k]) {
      if k < |tr.times| {
        assert Step(tr.rates[k], tr.rates[k + 1], tr.times[k], tr.admits[k]);
      }
    }
  }

  lemma AdmitOne(tr: Trace, now: real, span: Span)
    requires IsTrace(tr) && CanAdmit(tr, now)
    ensures var more := Admit(tr, now);
            && IsTrace(more)
            && AdmittedIn(more, |more.times|, span) == AdmittedIn(tr, |tr.times|, span) + if span.Has(now) then 1 else 0
  {
    AdmitIsTrace(tr, now, Admit(tr, now));
    SamePrefix(tr, Admit(tr, now), |tr.times|, span);
  }

  function AdmitTimes(tr: Trace, now: real, m: nat): (more: Trace)
    requires tr.rates != []
    ensures more.rates != []
  {
    if m == 0 then tr else Admit(AdmitTimes(tr, now, m - 1), now)
  }

  /** `more` is `tr` with `m` more admissions at `now` in its window. */
  ghost predicate Filled(tr: Trace, more: Trace, now: real, m: nat, span: Span)
    requires IsTrace(tr)
  {
    var r := tr.rates[|tr.times|];
    && IsTrace(more) && |more.times| == |tr.times| + m && more.times != [] && more.times[|more.times| - 1] <= now
    && more.rates[|more.times|] == Rate(r.count + m, r.resetAt)
    && AdmittedIn(more, |more.times|, span) == AdmittedIn(tr, |tr.times|, span) + if span.Has(now) then m else 0
  }

  /** A window takes as many more admissions as its counter leaves. */
  lemma {:induction false} FillWindow(tr: Trace, now: real, m: nat, span: Span)
    requires IsTrace(tr) && tr.times != [] && tr.times[|tr.times| - 1] <= now
    requires !Opens(tr.rates[|tr.times|], now) && tr.rates[|tr.times|].count + m <= MAX_PER_WINDOW
    ensures Filled(tr, AdmitTimes(tr, now, m), now, m, span)
  {
    if m > 0 {
      FillWindow(tr, now, m - 1, span);
      FillOne(tr, AdmitTimes(tr, now, m - 1), now, m - 1, span);
    }
  }

  lemma FillOne(tr: Trace, most: Trace, now: real, m: nat, span: Span)
    requires IsTrace(tr) && Filled(tr, most, now, m, span)
    requires !Opens(tr.rates[|tr.times|], now) && tr.rates[|tr.times|].count + m < MAX_PER_WINDOW
    ensures Filled(tr, Admit(most, now), now, m + 1, span)
  {
    AdmitOne(most, now, span);
  }

  /**
   When the last admission of a trace starts a window again, 99 more within that window and the span make
   more than 100.
   */
  lemma OpeningAgainExceeds(tr: Trace, now: real, span: Span)
    requires IsTrace(tr) && tr.times != [] && OpensAgainAt(tr, |tr.times| - 1, span)
    requires tr.times[|tr.times| - 1] <= now < tr.times[|tr.times| - 1] + HOUR && span.Has(now)
    ensures var more := AdmitTimes(tr, now, 99);
            IsTrace(more) && AdmittedIn(more, |more.times|, span) > 100
  {
    var n := |tr.times|;
    assert Step(tr.rates[n - 1], tr.rates[n], tr.times[n - 1], tr.admits[n - 1]);
    FillWindow(tr, now, 99, span);
  }

  const NO_TRACE := Trace([], [], [Rate(0, None)])

  /** One admission at 0, 99 at `x`, and 100 at the end of the hour. */
  function TwoBursts(x: real): Trace {
    AdmitTimes(Admit(AdmitTimes(Admit(NO_TRACE, 0.0), x, 99), HOUR), HOUR, 99)
  }

  /** 200 in an hour that includes its end; 199 in one that does not. */
  lemma BoundsAreReached(x: real)
    requires 0.0 <= x < HOUR
    ensures var tr := TwoBursts(x);
            && IsTrace(tr) && AdmittedIn(tr, |tr.times|, Span(0.0, HOUR, true)) == 200
            && (x > 0.0 ==> AdmittedIn(tr, |tr.times|, Span(x, x + HOUR, false)) == 199)
  {
    BurstsCount(x, Span(0.0, HOUR, true));
    BurstsCount(x, Span(x, x + HOUR, false));
  }

  lemma BurstsCount(x: real, span: Span)
    requires 0.0 <= x < HOUR
    ensures IsTrace(TwoBursts(x))
    ensures AdmittedIn(TwoBursts(x), |TwoBursts(x).times|, span)
         == (if span.Has(0.0) then 1 else 0) + (if span.Has(x) then 99 else 0) + (if span.Has(HOUR) then 100 else 0)
  {
    var one := Admit(NO_TRACE, 0.0);
    AdmitOne(NO_TRACE, 0.0, span);
    FillWindow(one, x, 99, span);
    var full := AdmitTimes(one, x, 99);
    AdmitOne(full, HOUR, span);
    FillWindow(Admit(full, HOUR), HOUR, 99, span);
  }
}
