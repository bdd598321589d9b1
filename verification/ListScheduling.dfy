/**
 The greedy rule behind the CI shards: jobs are taken in turn and each goes to the
 least loaded of `m` shards.  Everything here is about sequences of times; the
 hook that uses the rule is in module Sharding.
 */
module ListScheduling {

  /** One shard per job, each shard among the first `m`. */
  ghost predicate Assignment(a: seq<nat>, n: nat, m: nat) {
    |a| == n && forall i | 0 <= i < n :: a[i] < m
  }

  ghost predicate NonNegative(ps: seq<real>) {
    forall i | 0 <= i < |ps| :: ps[i] >= 0.0
  }

  ghost predicate Falling(ps: seq<real>) {
    forall i, j | 0 <= i < j < |ps| :: ps[i] >= ps[j]
  }

  function Total(ps: seq<real>): real {
    if ps == [] then 0.0 else Total(ps[..|ps| - 1]) + ps[|ps| - 1]
  }

  /** The summed times of the jobs that `a` puts on shard `j`. */
  function Load(ps: seq<real>, a: seq<nat>, j: nat): real
    requires |a| == |ps|
  {
    if ps == [] then 0.0
    else Load(ps[..|ps| - 1], a[..|ps| - 1], j) + if a[|ps| - 1] == j then ps[|ps| - 1] else 0.0
  }

  function Loads(ps: seq<real>, a: seq<nat>, m: nat): seq<real>
    requires |a| == |ps|
  {
    seq(m, j requires 0 <= j => Load(ps, a, j))
  }

  /** The first index that holds the smallest value. */
  function LeastLoaded(loads: seq<real>): (k: nat)
    requires loads != []
    ensures k < |loads|
    ensures forall j | 0 <= j < |loads| :: loads[k] <= loads[j]
    ensures forall j | 0 <= j < k :: loads[k] < loads[j]
  {
    if |loads| == 1 then 0
    else
      var k := LeastLoaded(loads[..|loads| - 1]);
      if loads[|loads| - 1] < loads[k] then |loads| - 1 else k
  }

  /** The shard of every job when each goes to the least loaded shard. */
  function Greedy(ps: seq<real>, m: nat): (a: seq<nat>)
    requires m >= 1
    ensures Assignment(a, |ps|, m)
  {
    if ps == [] then []
    else
      var front := ps[..|ps| - 1];
      var a := Greedy(front, m);
      a + [LeastLoaded(Loads(front, a, m))]
  }

  function MaxLoad(ps: seq<real>, a: seq<nat>, m: nat): (c: real)
    requires |a| == |ps| && m >= 1
    ensures exists j: nat | j < m :: c == Load(ps, a, j)
    ensures forall j: nat | j < m :: Load(ps, a, j) <= c
  {
    if m == 1 then Load(ps, a, 0)
    else
      var c := MaxLoad(ps, a, m - 1);
      if Load(ps, a, m - 1) > c then Load(ps, a, m - 1) else c
  }

  // ----- loads and counts

  /** How many jobs `a` puts on shard `j`. */
  ghost function Count(a: seq<nat>, j: nat): nat {
    if a == [] then 0 else Count(a[..|a| - 1], j) + if a[|a| - 1] == j then 1 else 0
  }

  ghost function SumCounts(a: seq<nat>, m: nat): nat {
    if m == 0 then 0 else SumCounts(a, m - 1) + Count(a, m - 1)
  }

  ghost function SumLoads(ps: seq<real>, a: seq<nat>, m: nat): real
    requires |a| == |ps|
  {
    if m == 0 then 0.0 else SumLoads(ps, a, m - 1) + Load(ps, a, m - 1)
  }

  lemma {:induction false} SumLoadsStep(ps: seq<real>, a: seq<nat>, m: nat)
    requires |a| == |ps| > 0
    ensures SumLoads(ps, a, m) ==
            SumLoads(ps[..|ps| - 1], a[..|ps| - 1], m) + if a[|ps| - 1] < m then ps[|ps| - 1] else 0.0
  {
    if m > 0 {
      SumLoadsStep(ps, a, m - 1);
    }
  }

  /** However the jobs are spread, the loads add up to the total time. */
  lemma {:induction false} LoadsAddUp(ps: seq<real>, a: seq<nat>, m: nat)
    requires Assignment(a, |ps|, m)
    ensures SumLoads(ps, a, m) == Total(ps)
  {
    if ps == [] {
      NoLoads(a, m);
    } else {
      SumLoadsStep(ps, a, m);
      LoadsAddUp(ps[..|ps| - 1], a[..|ps| - 1], m);
    }
  }

  lemma {:induction false} NoLoads(a: seq<nat>, m: nat)
    requires a == []
    ensures SumLoads([], a, m) == 0.0 && SumCounts(a, m) == 0
  {
    if m > 0 {
      NoLoads(a, m - 1);
    }
  }

  lemma {:induction false} SumCountsStep(a: seq<nat>, m: nat)
    requires a != []
    ensures SumCounts(a, m) == SumCounts(a[..|a| - 1], m) + if a[|a| - 1] < m then 1 else 0
  {
    if m > 0 {
      SumCountsStep(a, m - 1);
    }
  }

  lemma {:induction false} CountsAddUp(a: seq<nat>, m: nat)
    requires Assignment(a, |a|, m)
    ensures SumCounts(a, m) == |a|
  {
    if a == [] {
      NoLoads(a, m);
    } else {
      SumCountsStep(a, m);
      CountsAddUp(a[..|a| - 1], m);
    }
  }

  lemma {:induction false} LoadNonNegative(ps: seq<real>, a: seq<nat>, j: nat)
    requires |a| == |ps| && NonNegative(ps)
    ensures Load(ps, a, j) >= 0.0
  {
    if ps != [] {
      LoadNonNegative(ps[..|ps| - 1], a[..|ps| - 1], j);
    }
  }

  lemma {:induction false} LoadOfJob(ps: seq<real>, a: seq<nat>, i: nat)
    requires |a| == |ps| && NonNegative(ps) && i < |ps|
    ensures Load(ps, a, a[i]) >= ps[i]
  {
    var n := |ps| - 1;
    LoadNonNegative(ps[..n], a[..n], a[i]);
    if i < n {
      LoadOfJob(ps[..n], a[..n], i);
    }
  }

  lemma {:induction false} LoadOfTwoJobs(ps: seq<real>, a: seq<nat>, i: nat, k: nat)
    requires |a| == |ps| && NonNegative(ps) && i < k < |ps| && a[i] == a[k]
    ensures Load(ps, a, a[i]) >= ps[i] + ps[k]
  {
    var n := |ps| - 1;
    LoadNonNegative(ps[..n], a[..n], a[i]);
    if k < n {
      LoadOfTwoJobs(ps[..n], a[..n], i, k);
    } else {
      LoadOfJob(ps[..n], a[..n], i);
    }
  }

  lemma {:induction false} NoJob(ps: seq<real>, a: seq<nat>, j: nat)
    requires |a| == |ps| && Count(a, j) == 0
    ensures Load(ps, a, j) == 0.0
  {
    if ps != [] {
      NoJob(ps[..|ps| - 1], a[..|ps| - 1], j);
    }
  }

  /** A shard with exactly one job carries exactly that job's time. */
  lemma {:induction false} OnlyJob(ps: seq<real>, a: seq<nat>, j: nat) returns (i: nat)
    requires |a| == |ps| && Count(a, j) == 1
    ensures i < |a| && a[i] == j && Load(ps, a, j) == ps[i]
  {
    var n := |ps| - 1;
    if a[n] == j {
      NoJob(ps[..n], a[..n], j);
      i := n;
    } else {
      i := OnlyJob(ps[..n], a[..n], j);
    }
  }

  lemma {:induction false} SomeJob(a: seq<nat>, j: nat) returns (i: nat)
    requires Count(a, j) >= 1
    ensures i < |a| && a[i] == j
  {
    if a[|a| - 1] == j {
      i := |a| - 1;
    } else {
      i := SomeJob(a[..|a| - 1], j);
    }
  }

  lemma {:induction false} TwoJobs(a: seq<nat>, j: nat) returns (i: nat, k: nat)
    requires Count(a, j) >= 2
    ensures i < k < |a| && a[i] == a[k] == j
  {
    if a[|a| - 1] == j {
      k := |a| - 1;
      i := SomeJob(a[..|a| - 1], j);
    } else {
      i, k := TwoJobs(a[..|a| - 1], j);
    }
  }

  // ----- counting shards that hold a single job

  ghost predicate AtMostTwo(a: seq<nat>, m: nat) {
    forall j: nat | j < m :: Count(a, j) <= 2
  }

  lemma {:induction false} FewWhenManySingles(a: seq<nat>, m: nat, t: set<nat>)
    requires AtMostTwo(a, m)
    requires forall j | j in t :: j < m && Count(a, j) <= 1
    ensures SumCounts(a, m) <= 2 * m - |t|
  {
    if m > 0 {
      FewWhenManySingles(a, m - 1, t - {m - 1});
    } else {
      assert t == {};
    }
  }

  lemma {:induction false} ManyWhenFewSingles(a: seq<nat>, m: nat, s: set<nat>)
    requires forall j: nat | j < m && j !in s :: Count(a, j) >= 2
    requires forall j: nat | j < m :: Count(a, j) >= 1
    requires forall j | j in s :: j < m
    ensures SumCounts(a, m) >= 2 * m - |s|
  {
    if m > 0 {
      ManyWhenFewSingles(a, m - 1, s - {m - 1});
    } else {
      assert s == {};
    }
  }

  lemma {:induction false} Image(s: set<nat>, f: map<nat, nat>) returns (t: set<nat>)
    requires s <= f.Keys
    requires forall x, y | x in s && y in s && x != y :: f[x] != f[y]
    ensures forall y | y in t :: exists x :: x in s && f[x] == y
    ensures |t| == |s|
  {
    t := {};
    if s != {} {
      var x :| x in s;
      var rest := Image(s - {x}, f);
      assert f[x] !in rest;
      t := rest + {f[x]};
    }
  }

  // ----- the bound for any order of the jobs

  /** `m * x`, in the form in which loads add up. */
  ghost function Scaled(m: nat, x: real): real {
    if m == 0 then 0.0 else Scaled(m - 1, x) + x
  }

  lemma {:induction false} ScaledIsProduct(m: nat, x: real)
    ensures Scaled(m, x) == m as real * x
  {
    if m > 0 {
      ScaledIsProduct(m - 1, x);
      assert m as real * x == (m - 1) as real * x + x;
    }
  }

  lemma {:induction false} LeastIsBelowAverage(ps: seq<real>, a: seq<nat>, m: nat, low: real)
    requires |a| == |ps|
    requires forall j: nat | j < m :: low <= Load(ps, a, j)
    ensures Scaled(m, low) <= SumLoads(ps, a, m)
  {
    if m > 0 {
      LeastIsBelowAverage(ps, a, m - 1, low);
    }
  }

  lemma {:induction false} BoundIsAboveAverage(ps: seq<real>, a: seq<nat>, m: nat, c: real)
    requires |a| == |ps| && forall j: nat | j < m :: Load(ps, a, j) <= c
    ensures SumLoads(ps, a, m) <= Scaled(m, c)
  {
    if m > 0 {
      BoundIsAboveAverage(ps, a, m - 1, c);
    }
  }

  lemma {:induction false} LastOfGreedy(ps: seq<real>, m: nat)
    requires m >= 1 && ps != []
    ensures var front := ps[..|ps| - 1];
            && Greedy(ps, m)[..|ps| - 1] == Greedy(front, m)
            && Greedy(ps, m)[|ps| - 1] == LeastLoaded(Loads(front, Greedy(front, m), m))
  {
  }

  /** The load after one more job: only the chosen shard `k` grows, and `k` was least loaded. */
  lemma GreedyStep(ps: seq<real>, m: nat) returns (front: seq<real>, g: seq<nat>, k: nat)
    requires m >= 1 && ps != []
    ensures front == ps[..|ps| - 1] && g == Greedy(front, m) && k < m
    ensures k == Greedy(ps, m)[|ps| - 1]
    ensures forall j: nat | j < m :: Load(front, g, k) <= Load(front, g, j)
    ensures forall j: nat :: Load(ps, Greedy(ps, m), j) == Load(front, g, j) + if j == k then ps[|ps| - 1] else 0.0
    ensures Scaled(m, Load(front, g, k)) <= Total(front)
  {
    front := ps[..|ps| - 1];
    g := Greedy(front, m);
    LastOfGreedy(ps, m);
    var loads := Loads(front, g, m);
    k := LeastLoaded(loads);
    assert loads[k] == Load(front, g, k);
    forall j: nat | j < m ensures Load(front, g, k) <= Load(front, g, j) {
      assert loads[j] == Load(front, g, j);
    }
    LeastIsBelowAverage(front, g, m, Load(front, g, k));
    LoadsAddUp(front, g, m);
  }

  /** The jobs `ps` have been placed as `g` and the shards carry `loads`. */
  ghost predicate Turn(ps: seq<real>, g: seq<nat>, loads: seq<real>, m: nat) {
    m >= 1 && g == Greedy(ps, m) && loads == Loads(ps, g, m)
  }

  lemma {:induction false} FirstTurn(loads: seq<real>)
    requires loads != [] && forall j | 0 <= j < |loads| :: loads[j] == 0.0
    ensures Turn([], [], loads, |loads|)
  {
  }

  lemma {:induction false} LoadsExtend(ps: seq<real>, a: seq<nat>, m: nat, p: real, k: nat)
    requires |a| == |ps| && k < m
    ensures Loads(ps + [p], a + [k], m) == Loads(ps, a, m)[k := Load(ps, a, k) + p]
  {
    assert (ps + [p])[..|ps|] == ps && (a + [k])[..|a|] == a;
    forall j: nat | j < m ensures Load(ps + [p], a + [k], j) == Load(ps, a, j) + if j == k then p else 0.0 {
    }
  }

  lemma {:induction false} GreedyExtends(ps: seq<real>, p: real, m: nat)
    requires m >= 1
    ensures Greedy(ps + [p], m) == Greedy(ps, m) + [LeastLoaded(Loads(ps, Greedy(ps, m), m))]
  {
    assert (ps + [p])[..|ps|] == ps;
  }

  /** One turn of the loop: the next job goes to the least loaded shard, and that load grows by its time. */
  lemma {:induction false} NextTurn(ps: seq<real>, g: seq<nat>, loads: seq<real>, m: nat, p: real, k: nat,
                                    more: seq<real>)
    requires Turn(ps, g, loads, m) && k == LeastLoaded(loads) && more == ps + [p]
    ensures |loads| == m
    ensures Turn(more, g + [k], loads[k := loads[k] + p], m)
  {
    GreedyExtends(ps, p, m);
    LoadsExtend(ps, g, m, p, k);
  }

  /** At every point of the loop, any two loads differ by at most the longest time placed so far. */
  lemma {:induction false} GreedyIsBalanced(ps: seq<real>, m: nat, longest: real, j: nat, k: nat)
    requires m >= 1 && j < m && k < m && NonNegative(ps) && longest >= 0.0
    requires forall i | 0 <= i < |ps| :: ps[i] <= longest
    ensures Load(ps, Greedy(ps, m), j) - Load(ps, Greedy(ps, m), k) <= longest
  {
    if ps != [] {
      var front, g, least := GreedyStep(ps, m);
      GreedyIsBalanced(front, m, longest, j, k);
    }
  }

  lemma OneMoreJob(m: nat, load: real, p: real, longest: real, total: real, more: real)
    requires m >= 1 && 0.0 <= p <= longest && Scaled(m, load) <= total + Scaled(m - 1, longest)
    requires more == load || (more == load + p && Scaled(m, load) <= total)
    ensures Scaled(m, more) <= total + p + Scaled(m - 1, longest)
  {
    ScaledSum(m, load, p);
    ScaledGrows(m - 1, p, longest);
  }

  lemma {:induction false} ScaledIsNonNegative(m: nat, x: real)
    requires x >= 0.0
    ensures Scaled(m, x) >= 0.0 == Scaled(m, 0.0)
  {
    if m > 0 {
      ScaledIsNonNegative(m - 1, x);
    }
  }

  /** In any order of the jobs, no load exceeds total/m + (1 - 1/m) * longest. */
  lemma {:induction false} GreedyAnyOrder(ps: seq<real>, m: nat, longest: real, j: nat)
    requires m >= 1 && j < m && NonNegative(ps) && longest >= 0.0
    requires forall i | 0 <= i < |ps| :: ps[i] <= longest
    ensures Scaled(m, Load(ps, Greedy(ps, m), j)) <= Total(ps) + Scaled(m - 1, longest)
  {
    if ps == [] {
      ScaledIsNonNegative(m, 0.0);
      ScaledIsNonNegative(m - 1, longest);
    } else {
      var front, g, k := GreedyStep(ps, m);
      GreedyAnyOrder(front, m, longest, j);
      OneMoreJob(m, Load(front, g, j), ps[|ps| - 1], longest, Total(front), Load(ps, Greedy(ps, m), j));
    }
  }

  lemma {:induction false} ScaledSum(m: nat, x: real, y: real)
    ensures Scaled(m, x + y) == Scaled(m, x) + Scaled(m, y)
  {
    if m > 0 {
      ScaledSum(m - 1, x, y);
    }
  }

  lemma {:induction false} ScaledGrows(m: nat, x: real, y: real)
    requires x <= y
    ensures Scaled(m, x) <= Scaled(m, y)
  {
    if m > 0 {
      ScaledGrows(m - 1, x, y);
    }
  }

  // ----- jobs longer than a third of the bound

  /** Every job is longer than a third of `c`, and `c` bounds every load. */
  ghost predicate LongJobs(ps: seq<real>, a: seq<nat>, m: nat, c: real) {
    && Assignment(a, |ps|, m)
    && c >= 0.0
    && (forall i | 0 <= i < |ps| :: 3.0 * ps[i] > c)
    && (forall j: nat | j < m :: Load(ps, a, j) <= c)
  }

  lemma LongJobsPair(ps: seq<real>, a: seq<nat>, m: nat, c: real)
    requires LongJobs(ps, a, m, c)
    ensures AtMostTwo(a, m)
  {
    forall j: nat | j < m ensures Count(a, j) <= 2 {
      if Count(a, j) >= 3 {
        ThreeJobsAreTooMany(ps, a, j, c);
      }
    }
  }

  lemma {:induction false} ThreeJobsAreTooMany(ps: seq<real>, a: seq<nat>, j: nat, c: real)
    requires |a| == |ps| && c >= 0.0 && forall i | 0 <= i < |ps| :: 3.0 * ps[i] > c
    ensures Load(ps, a, j) >= 0.0
    ensures Count(a, j) >= 1 ==> 3.0 * Load(ps, a, j) > c
    ensures Count(a, j) >= 2 ==> 3.0 * Load(ps, a, j) > 2.0 * c
    ensures Count(a, j) >= 3 ==> Load(ps, a, j) > c
  {
    if ps != [] {
      ThreeJobsAreTooMany(ps[..|ps| - 1], a[..|ps| - 1], j, c);
    }
  }

  /**
   The heart of the 4/3 bound.  `c` can hold all jobs (assignment `b` shows it), the greedy rule has
   kept every load within `c` so far, and the last job, the shortest, is still longer than c/3: then
   the greedy rule places it within `c` too.  Otherwise every shard with one job holds a job that
   no other job can join, `b` must also leave these alone, and too few places remain.
   */
  lemma LongJobFits(ps: seq<real>, b: seq<nat>, m: nat, c: real)
    requires m >= 1 && ps != [] && NonNegative(ps) && Falling(ps)
    requires LongJobs(ps, b, m, c)
    requires LongJobs(ps[..|ps| - 1], Greedy(ps[..|ps| - 1], m), m, c)
    ensures Load(ps[..|ps| - 1], Greedy(ps[..|ps| - 1], m), Greedy(ps, m)[|ps| - 1]) + ps[|ps| - 1] <= c
  {
    var front, g, k := GreedyStep(ps, m);
    if Load(front, g, k) + ps[|ps| - 1] > c {
      LongJobsPair(ps, b, m, c);
      LongJobsPair(front, g, m, c);
      NoShardIsEmpty(ps, b, m, c);
      var singles := set j: nat | j < m && Count(g, j) == 1;
      var home := SingleHomes(ps, b, m, c, g, singles);
      var homes := Image(singles, home);
      FewWhenManySingles(b, m, homes);
      ManyWhenFewSingles(g, m, singles);
      CountsAddUp(b, m);
      CountsAddUp(g, m);
      assert false;
    }
  }

  lemma NoShardIsEmpty(ps: seq<real>, b: seq<nat>, m: nat, c: real)
    requires m >= 1 && ps != [] && NonNegative(ps) && LongJobs(ps, b, m, c)
    requires var front := ps[..|ps| - 1];
             Load(front, Greedy(front, m), Greedy(ps, m)[|ps| - 1]) + ps[|ps| - 1] > c
    ensures var g := Greedy(ps[..|ps| - 1], m); forall j: nat | j < m :: Count(g, j) >= 1
  {
    var front, g, k := GreedyStep(ps, m);
    forall j: nat | j < m ensures Count(g, j) >= 1 {
      if Count(g, j) == 0 {
        NoJob(front, g, j);
        LoadOfJob(ps, b, |ps| - 1);
      }
    }
  }

  /** A job too long to share a shard even with the last job is alone under `b`. */
  lemma Alone(ps: seq<real>, b: seq<nat>, m: nat, c: real, i: nat)
    requires ps != [] && NonNegative(ps) && Falling(ps) && LongJobs(ps, b, m, c)
    requires i < |ps| - 1 && ps[i] + ps[|ps| - 1] > c
    ensures forall x | 0 <= x < |ps| && x != i :: b[x] != b[i]
  {
    forall x | 0 <= x < |ps| && x != i ensures b[x] != b[i] {
      if b[x] == b[i] {
        assert ps[x] >= ps[|ps| - 1];
        LoadOfTwoJobs(ps, b, if x < i then x else i, if x < i then i else x);
      }
    }
  }

  lemma AloneCounts(b: seq<nat>, i: nat)
    requires i < |b| && forall x | 0 <= x < |b| && x != i :: b[x] != b[i]
    ensures Count(b, b[i]) <= 1
  {
    if Count(b, b[i]) >= 2 {
      var x, y := TwoJobs(b, b[i]);
    }
  }

  /** Job `i`, alone on shard `j` under `g`, is also alone under `b`. */
  ghost predicate SingleUnderBoth(g: seq<nat>, b: seq<nat>, m: nat, j: nat, i: nat) {
    && i < |g| < |b| && g[i] == j
    && b[i] < m && Count(b, b[i]) <= 1 && forall x | 0 <= x < |b| && x != i :: b[x] != b[i]
  }

  lemma SingleHome(ps: seq<real>, b: seq<nat>, m: nat, c: real, g: seq<nat>, j: nat) returns (i: nat)
    requires m >= 1 && ps != [] && NonNegative(ps) && Falling(ps)
    requires LongJobs(ps, b, m, c) && g == Greedy(ps[..|ps| - 1], m) && j < m && Count(g, j) == 1
    requires Load(ps[..|ps| - 1], g, Greedy(ps, m)[|ps| - 1]) + ps[|ps| - 1] > c
    ensures SingleUnderBoth(g, b, m, j, i)
  {
    var front, _, k := GreedyStep(ps, m);
    i := OnlyJob(front, g, j);
    Alone(ps, b, m, c, i);
    AloneCounts(b, i);
  }

  /** Maps every shard with a single job to the shard where `b` keeps that job. */
  lemma {:induction false} SingleHomes(ps: seq<real>, b: seq<nat>, m: nat, c: real, g: seq<nat>, s: set<nat>)
    returns (home: map<nat, nat>)
    requires m >= 1 && ps != [] && NonNegative(ps) && Falling(ps)
    requires LongJobs(ps, b, m, c) && g == Greedy(ps[..|ps| - 1], m) && forall j | j in s :: j < m && Count(g, j) == 1
    requires Load(ps[..|ps| - 1], g, Greedy(ps, m)[|ps| - 1]) + ps[|ps| - 1] > c
    ensures home.Keys == s
    ensures forall j | j in s :: home[j] < m && Count(b, home[j]) <= 1
    ensures forall x, y | x in s && y in s && x != y :: home[x] != home[y]
  {
    var job: map<nat, nat> := map[];
    var todo := s;
    while todo != {}
      invariant todo <= s && job.Keys == s - todo
      invariant forall j | j in job :: SingleUnderBoth(g, b, m, j, job[j])
    {
      var j :| j in todo;
      var i := SingleHome(ps, b, m, c, g, j);
      job := job[j := i];
      todo := todo - {j};
    }
    home := HomesOf(g, b, m, job);
  }

  lemma HomesOf(g: seq<nat>, b: seq<nat>, m: nat, job: map<nat, nat>) returns (home: map<nat, nat>)
    requires forall j | j in job :: SingleUnderBoth(g, b, m, j, job[j])
    ensures home.Keys == job.Keys
    ensures forall j | j in job :: home[j] < m && Count(b, home[j]) <= 1
    ensures forall x, y | x in job && y in job && x != y :: home[x] != home[y]
  {
    home := map j | j in job :: b[job[j]];
    forall x, y | x in job && y in job && x != y ensures home[x] != home[y] {
      assert SingleUnderBoth(g, b, m, x, job[x]) && SingleUnderBoth(g, b, m, y, job[y]);
    }
  }

  /** What the longest-first rule guarantees when `c` bounds the loads of some assignment. */
  function Guarantee(m: nat, c: real): real
    requires m >= 1
  {
    (4.0 / 3.0 - 1.0 / (3.0 * m as real)) * c
  }

  lemma GuaranteeExceeds(m: nat, c: real)
    requires m >= 1 && c >= 0.0
    ensures Guarantee(m, c) >= c
  {
  }

  /** A job of at most c/3 lands within the guarantee, because the load it finds is at most the average. */
  lemma ShortJobFits(m: nat, load: real, p: real, c: real, before: real)
    requires m >= 1 && 3.0 * p <= c && Scaled(m, load) <= before && before + p <= Scaled(m, c)
    ensures load + p <= Guarantee(m, c)
  {
    ScaledIsProduct(m, load);
    ScaledIsProduct(m, c);
    var M := m as real;
    assert M * load <= M * c - p;
    AverageBound(M, load, p, c);
  }

  lemma AverageBound(M: real, load: real, p: real, c: real)
    requires M >= 1.0 && 3.0 * p <= c && M * load <= M * c - p
    ensures load + p <= (4.0 / 3.0 - 1.0 / (3.0 * M)) * c
  {
  }

  lemma FrontBound(ps: seq<real>, b: seq<nat>, m: nat, c: real, front: seq<real>, b': seq<nat>)
    requires ps != [] && NonNegative(ps) && Assignment(b, |ps|, m)
    requires front == ps[..|ps| - 1] && b' == b[..|ps| - 1]
    requires forall j: nat | j < m :: Load(ps, b, j) <= c
    ensures forall j: nat | j < m :: Load(front, b', j) <= c
  {
    forall j: nat | j < m ensures Load(front, b', j) <= c {
      assert Load(ps, b, j) <= c;
    }
  }

  lemma {:induction false} ShortLastJob(ps: seq<real>, m: nat, b: seq<nat>, c: real)
    requires m >= 1 && ps != [] && Assignment(b, |ps|, m) && forall j: nat | j < m :: Load(ps, b, j) <= c
    requires 3.0 * ps[|ps| - 1] <= c
    ensures var front := ps[..|ps| - 1];
            Load(front, Greedy(front, m), Greedy(ps, m)[|ps| - 1]) + ps[|ps| - 1] <= Guarantee(m, c)
  {
    var front, g, k := GreedyStep(ps, m);
    LoadsAddUp(ps, b, m);
    BoundIsAboveAverage(ps, b, m, c);
    ShortJobFits(m, Load(front, g, k), ps[|ps| - 1], c, Total(front));
  }

  ghost predicate WithinLoad(ps: seq<real>, m: nat, c: real)
    requires m >= 1
  {
    forall j: nat | j < m :: Load(ps, Greedy(ps, m), j) <= c
  }

  lemma {:induction false} LastJobKeepsWithin(ps: seq<real>, m: nat, c: real)
    requires m >= 1 && ps != [] && WithinLoad(ps[..|ps| - 1], m, c)
    requires var front := ps[..|ps| - 1];
             Load(front, Greedy(front, m), Greedy(ps, m)[|ps| - 1]) + ps[|ps| - 1] <= c
    ensures WithinLoad(ps, m, c)
  {
    var front, g, k := GreedyStep(ps, m);
  }

  /** Longest first, the greedy rule keeps every load within `c` while the jobs are longer than c/3. */
  lemma {:induction false} LongJobsFit(ps: seq<real>, m: nat, b: seq<nat>, c: real)
    requires m >= 1 && NonNegative(ps) && Falling(ps) && Assignment(b, |ps|, m)
    requires c >= 0.0 && forall j: nat | j < m :: Load(ps, b, j) <= c
    requires forall i | 0 <= i < |ps| :: 3.0 * ps[i] > c
    ensures WithinLoad(ps, m, c)
  {
    if ps != [] {
      FrontBound(ps, b, m, c, ps[..|ps| - 1], b[..|ps| - 1]);
      LongJobsFit(ps[..|ps| - 1], m, b[..|ps| - 1], c);
      LongJobFits(ps, b, m, c);
      LastJobKeepsWithin(ps, m, c);
    }
  }

  /** Longest first, it keeps every load within the guarantee, for any `c` that bounds the loads of some assignment. */
  lemma {:induction false} LongestFirst(ps: seq<real>, m: nat, b: seq<nat>, c: real, limit: real)
    requires m >= 1 && NonNegative(ps) && Falling(ps) && Assignment(b, |ps|, m)
    requires c >= 0.0 && (forall j: nat | j < m :: Load(ps, b, j) <= c) && limit == Guarantee(m, c)
    ensures WithinLoad(ps, m, limit)
  {
    GuaranteeExceeds(m, c);
    if ps == [] || 3.0 * ps[|ps| - 1] > c {
      LongJobsFit(ps, m, b, c);
    } else {
      FrontBound(ps, b, m, c, ps[..|ps| - 1], b[..|ps| - 1]);
      LongestFirst(ps[..|ps| - 1], m, b[..|ps| - 1], c, limit);
      ShortLastJob(ps, m, b, c);
      LastJobKeepsWithin(ps, m, limit);
    }
  }

  /** The LPT theorem, stated with the heaviest loads themselves. */
  lemma LongestFirstWithinFourThirds(ps: seq<real>, m: nat, b: seq<nat>)
    requires m >= 1 && NonNegative(ps) && Falling(ps) && Assignment(b, |ps|, m)
    ensures MaxLoad(ps, Greedy(ps, m), m) <= Guarantee(m, MaxLoad(ps, b, m))
  {
    var c := MaxLoad(ps, b, m);
    LoadNonNegative(ps, b, 0);
    assert Load(ps, b, 0) <= c;
    LongestFirst(ps, m, b, c, Guarantee(m, c));
    var j: nat :| j < m && MaxLoad(ps, Greedy(ps, m), m) == Load(ps, Greedy(ps, m), j);
  }

  /** What the greedy rule guarantees in any order of the jobs. */
  function AnyOrderGuarantee(m: nat, c: real): real
    requires m >= 1
  {
    (2.0 - 1.0 / m as real) * c
  }

  /** In any order of the jobs, the greedy rule is within 2 - 1/m of any assignment. */
  lemma {:induction false} GreedyWithinTwo(ps: seq<real>, m: nat, b: seq<nat>)
    requires m >= 1 && NonNegative(ps) && Assignment(b, |ps|, m)
    ensures MaxLoad(ps, Greedy(ps, m), m) <= AnyOrderGuarantee(m, MaxLoad(ps, b, m))
  {
    HeaviestAgainst(ps, m, b, MaxLoad(ps, b, m), MaxLoad(ps, Greedy(ps, m), m));
    AtMostTwice(m, MaxLoad(ps, Greedy(ps, m), m), MaxLoad(ps, b, m));
  }

  lemma {:induction false} HeaviestAgainst(ps: seq<real>, m: nat, b: seq<nat>, c: real, heaviest: real)
    requires m >= 1 && NonNegative(ps) && Assignment(b, |ps|, m) && c == MaxLoad(ps, b, m)
    requires heaviest == MaxLoad(ps, Greedy(ps, m), m)
    ensures Scaled(m, heaviest) <= Scaled(m, c) + Scaled(m - 1, c)
  {
    var j: nat :| j < m && heaviest == Load(ps, Greedy(ps, m), j);
    GreedyAgainst(ps, m, b, c, j);
  }

  lemma {:induction false} GreedyAgainst(ps: seq<real>, m: nat, b: seq<nat>, c: real, j: nat)
    requires m >= 1 && j < m && NonNegative(ps) && Assignment(b, |ps|, m)
    requires forall k: nat | k < m :: Load(ps, b, k) <= c
    ensures Scaled(m, Load(ps, Greedy(ps, m), j)) <= Scaled(m, c) + Scaled(m - 1, c)
  {
    forall i | 0 <= i < |ps| ensures ps[i] <= c {
      LoadOfJob(ps, b, i);
    }
    LoadNonNegative(ps, b, 0);
    assert Load(ps, b, 0) <= c;
    GreedyAnyOrder(ps, m, c, j);
    LoadsAddUp(ps, b, m);
    BoundIsAboveAverage(ps, b, m, c);
  }

  lemma AtMostTwice(m: nat, load: real, c: real)
    requires m >= 1 && Scaled(m, load) <= Scaled(m, c) + Scaled(m - 1, c)
    ensures load <= AnyOrderGuarantee(m, c)
  {
    ScaledIsProduct(m, load);
    ScaledIsProduct(m, c);
    var M := m as real;
    assert M * load <= 2.0 * M * c - c;
    DivideBy(M, load, c);
  }

  lemma DivideBy(M: real, load: real, c: real)
    requires M >= 1.0 && M * load <= 2.0 * M * c - c
    ensures load <= (2.0 - 1.0 / M) * c
  {
  }
}
