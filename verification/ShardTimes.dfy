/** What the expected times of the modules are, counted item by item. */
module ShardTimes {
  import opened Sequences
  import opened Sharding

  /** The module path ends at the first "::". */
  lemma {:induction false} CutAtFirstColons(s: string)
    ensures var r := BeforeColons(s);
            && r <= s && (r == s || "::" <= s[|r|..]) && forall i | 0 <= i < |r| :: !("::" <= s[i..])
  {
    if s != "" && !("::" <= s) {
      CutAtFirstColons(s[1..]);
      var r := BeforeColons(s);
      assert s[|r|..] == s[1..][|r| - 1..];
      forall i | 0 <= i < |r| ensures !("::" <= s[i..]) {
        if i > 0 { assert s[i..] == s[1..][i - 1..]; }
      }
    }
  }

  ghost predicate Seen(items: seq<NodeId>, p: Path) {
    exists i :: 0 <= i < |items| && ModuleOf(items[i]) == p
  }

  /** The number of items of a module. */
  function ItemsIn(items: seq<NodeId>, p: Path): nat {
    if items == [] then 0
    else ItemsIn(items[..|items| - 1], p) + if ModuleOf(items[|items| - 1]) == p then 1 else 0
  }

  /** The number of items whose module has been measured. */
  function MeasuredItems(items: seq<NodeId>, durations: map<Path, real>): nat {
    if items == [] then 0
    else MeasuredItems(items[..|items| - 1], durations) + if ModuleOf(items[|items| - 1]) in durations then 1 else 0
  }

  /** The measured seconds of the modules that occur, each at its first item. */
  ghost function MeasuredSeconds(items: seq<NodeId>, durations: map<Path, real>): real {
    if items == [] then 0.0
    else
      var front, p := items[..|items| - 1], ModuleOf(items[|items| - 1]);
      MeasuredSeconds(front, durations) + if p in durations && !Seen(front, p) then durations[p] else 0.0
  }

  lemma KeysAreSeen(items: seq<NodeId>, p: Path)
    ensures p in Keys(items) <==> Seen(items, p)
  {
    if p in Keys(items) {
      var i := KeyHasItem(items, p);
    }
    if Seen(items, p) {
      var i :| 0 <= i < |items| && ModuleOf(items[i]) == p;
      ModuleIsKey(items, i);
    }
  }

  lemma {:induction false} ItemsAreCounted(items: seq<NodeId>, p: Path)
    ensures |ItemsOf(items, p)| == ItemsIn(items, p)
  {
    if items != [] {
      ItemsAreCounted(items[..|items| - 1], p);
    }
  }

  lemma SumWithNext(s: seq<Path>, x: Path, m: map<Path, real>)
    ensures SumOver(s + [x], m) == SumOver(s, m) + if x in m then m[x] else 0.0
  {
    assert (s + [x])[..|s|] == s;
  }

  lemma {:induction false} SecondsAreMeasured(items: seq<NodeId>, durations: map<Path, real>)
    ensures SumOver(Keys(items), durations) == MeasuredSeconds(items, durations)
  {
    if items != [] {
      var front, p := items[..|items| - 1], ModuleOf(items[|items| - 1]);
      SecondsAreMeasured(front, durations);
      KeysAreSeen(front, p);
      if p !in Keys(front) { SumWithNext(Keys(front), p, durations); }
    }
  }

  lemma {:induction false} SumAgrees(s: seq<Path>, m: map<Path, real>, n: map<Path, real>)
    requires forall p | p in s :: (p in m <==> p in n) && (p in m ==> m[p] == n[p])
    ensures SumOver(s, m) == SumOver(s, n)
  {
    if s != [] {
      SumAgrees(s[..|s| - 1], m, n);
    }
  }

  /** One more at one member. */
  lemma {:induction false} SumWithOneMore(s: seq<Path>, m: map<Path, real>, n: map<Path, real>, x: Path)
    requires Distinct(s) && x in s && x in m && x in n && n[x] == m[x] + 1.0
    requires forall p | p in s && p != x :: (p in m <==> p in n) && (p in m ==> m[p] == n[p])
    ensures SumOver(s, n) == SumOver(s, m) + 1.0
  {
    var front := s[..|s| - 1];
    if s[|s| - 1] == x {
      SumAgrees(front, m, n);
    } else {
      SumWithOneMore(front, m, n, x);
    }
  }

  lemma KnownTestsGrow(items: seq<NodeId>, durations: map<Path, real>, q: Path)
    requires items != [] && q in Keys(items[..|items| - 1])
    ensures q in KnownTests(items, durations) <==> q in KnownTests(items[..|items| - 1], durations)
    ensures q in durations ==>
              KnownTests(items, durations)[q] == KnownTests(items[..|items| - 1], durations)[q]
                                                 + if ModuleOf(items[|items| - 1]) == q then 1.0 else 0.0
  {
  }

  lemma {:induction false} TestsAreMeasured(items: seq<NodeId>, durations: map<Path, real>)
    ensures SumOver(Keys(items), KnownTests(items, durations)) == MeasuredItems(items, durations) as real
  {
    if items != [] {
      var front, p := items[..|items| - 1], ModuleOf(items[|items| - 1]);
      var before, after := KnownTests(front, durations), KnownTests(items, durations);
      TestsAreMeasured(front, durations);
      KeysAreDistinct(front);
      forall q | q in Keys(front) ensures q in Keys(items) { KnownTestsGrow(items, durations, q); }
      if p in Keys(front) {
        OldModule(front, items, durations, p, before, after);
      } else {
        NewModule(front, items, durations, p, before, after);
      }
    }
  }

  lemma {:induction false} OldModule(front: seq<NodeId>, items: seq<NodeId>, durations: map<Path, real>, p: Path,
                                     before: map<Path, real>, after: map<Path, real>)
    requires items != [] && front == items[..|items| - 1] && p == ModuleOf(items[|items| - 1]) && p in Keys(front)
    requires before == KnownTests(front, durations) && after == KnownTests(items, durations)
    ensures SumOver(Keys(items), after) == SumOver(Keys(front), before) + if p in durations then 1.0 else 0.0
  {
    KeysAreDistinct(front);
    forall q | q in Keys(front)
      ensures (q in before <==> q in after) && (q in before && q != p ==> before[q] == after[q])
      ensures q in before && q == p ==> after[q] == before[q] + 1.0
    {
      KnownTestsGrow(items, durations, q);
    }
    if p in durations {
      SumWithOneMore(Keys(front), before, after, p);
    } else {
      SumAgrees(Keys(front), before, after);
    }
  }

  lemma {:induction false} NewModule(front: seq<NodeId>, items: seq<NodeId>, durations: map<Path, real>, p: Path,
                                     before: map<Path, real>, after: map<Path, real>)
    requires items != [] && front == items[..|items| - 1] && p == ModuleOf(items[|items| - 1]) && p !in Keys(front)
    requires before == KnownTests(front, durations) && after == KnownTests(items, durations)
    ensures SumOver(Keys(items), after) == SumOver(Keys(front), before) + if p in durations then 1.0 else 0.0
  {
    SumWithNext(Keys(front), p, after);
    NoItems(front, p);
    forall q | q in Keys(front) ensures (q in before <==> q in after) && (q in before ==> before[q] == after[q]) {
      KnownTestsGrow(items, durations, q);
    }
    SumAgrees(Keys(front), before, after);
  }

  /** The times are those of the modules that occur, and no others. */
  lemma EachModuleHasATime(items: seq<NodeId>, durations: map<Path, real>, p: Path)
    ensures p in Expected(items, durations) <==> Seen(items, p)
  {
    KeysAreSeen(items, p);
  }

  /** The time of a module with `own` items, when `measured` items took the measured seconds. */
  ghost predicate IsModuleTime(durations: map<Path, real>, p: Path, own: nat, measured: nat, seconds: real,
                               time: real) {
    if p in durations then time == durations[p]
    else if measured == 0 then time == own as real
    else time * measured as real == own as real * seconds
  }

  lemma ModuleTimeExactly(durations: map<Path, real>, p: Path, own: nat, measured: nat, seconds: real)
    ensures IsModuleTime(durations, p, own, measured, seconds,
                         ModuleTime(durations, Average(seconds, measured as real), p, own))
  {
    if p !in durations && measured != 0 {
      Shared(ModuleTime(durations, Average(seconds, measured as real), p, own), own as real, seconds, measured as real);
    }
  }

  lemma Shared(time: real, tests: real, seconds: real, measured: real)
    requires measured != 0.0 && time == seconds / measured * tests
    ensures time * measured == tests * seconds
  {
  }

  /**
   A measured module counts as measured.  An unmeasured one counts as its number of items times the
   measured seconds per measured item, and as its number of items when nothing is measured.
   */
  lemma {:induction false} ExpectedExactly(items: seq<NodeId>, durations: map<Path, real>, p: Path)
    requires Seen(items, p)
    ensures p in Expected(items, durations)
    ensures IsModuleTime(durations, p, ItemsIn(items, p), MeasuredItems(items, durations),
                         MeasuredSeconds(items, durations), Expected(items, durations)[p])
  {
    KeysAreSeen(items, p);
    ItemsAreCounted(items, p);
    SecondsAreMeasured(items, durations);
    TestsAreMeasured(items, durations);
    ModuleTimeExactly(durations, p, ItemsIn(items, p), MeasuredItems(items, durations), MeasuredSeconds(items,
        durations));
  }
}
