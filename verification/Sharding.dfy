/** The collection hook that keeps one CI shard's tests (backend/conftest.py). */
module Sharding {
  import opened ListScheduling
  import opened Sequences
  import opened Sorting

  datatype NodeId = NodeId(text: string)

  /** The path of a test module. */
  datatype Path = Path(text: string)

  /** The part of `s` before its first "::". */
  function BeforeColons(s: string): string {
    if s == "" || "::" <= s then "" else [s[0]] + BeforeColons(s[1..])
  }

  function ModuleOf(id: NodeId): Path {
    Path(BeforeColons(id.text))
  }

  /** The keys of the `modules` dictionary: each module once, in order of first appearance. */
  function Keys(items: seq<NodeId>): seq<Path> {
    if items == [] then []
    else
      var front, p := Keys(items[..|items| - 1]), ModuleOf(items[|items| - 1]);
      if p in front then front else front + [p]
  }

  function ItemsOf(items: seq<NodeId>, p: Path): seq<NodeId> {
    if items == [] then []
    else ItemsOf(items[..|items| - 1], p) + if ModuleOf(items[|items| - 1]) == p then [items[|items| - 1]] else []
  }

  /** The sum of `m` over the members of `s` that it knows. */
  function SumOver(s: seq<Path>, m: map<Path, real>): real {
    if s == [] then 0.0
    else SumOver(s[..|s| - 1], m) + if s[|s| - 1] in m then m[s[|s| - 1]] else 0.0
  }

  function KnownTests(items: seq<NodeId>, durations: map<Path, real>): map<Path, real> {
    map p | p in Keys(items) && p in durations :: |ItemsOf(items, p)| as real
  }

  function Average(seconds: real, tests: real): real {
    if tests != 0.0 then seconds / tests else 1.0
  }

  /** Average seconds per test over the modules with a known duration, 1 when there is none. */
  function PerTest(items: seq<NodeId>, durations: map<Path, real>): real {
    Average(SumOver(Keys(items), durations), SumOver(Keys(items), KnownTests(items, durations)))
  }

  function Expected(items: seq<NodeId>, durations: map<Path, real>): map<Path, real> {
    var perTest := PerTest(items, durations);
    map p | p in Keys(items) :: ModuleTime(durations, perTest, p, |ItemsOf(items, p)|)
  }

  /** `durations.get(p, per_test * tests)` */
  function ModuleTime(durations: map<Path, real>, perTest: real, p: Path, tests: nat): real {
    if p in durations then durations[p] else perTest * tests as real
  }

  function TimeOf(e: map<Path, real>, p: Path): real {
    if p in e then e[p] else 0.0
  }

  /** The order of the sort keys (-expected, path). */
  function PlacementOrder(e: map<Path, real>): (Path, Path) -> bool {
    (p, q) => TimeOf(e, p) > TimeOf(e, q) || (TimeOf(e, p) == TimeOf(e, q) && StringLeq(p.text, q.text))
  }

  function Times(order: seq<Path>, e: map<Path, real>): (ts: seq<real>)
    ensures |ts| == |order| && forall i | 0 <= i < |order| :: ts[i] == TimeOf(e, order[i])
  {
    seq(|order|, i requires 0 <= i < |order| => TimeOf(e, order[i]))
  }

  /** The dictionary built by writing `order[i] := shards[i]` in turn. */
  function Placed(order: seq<Path>, shards: seq<nat>): map<Path, nat>
    requires |order| == |shards|
  {
    if order == [] then map[]
    else Placed(order[..|order| - 1], shards[..|order| - 1])[order[|order| - 1] := shards[|order| - 1]]
  }

  /** The shard of every module of `keys`: longest expected time first, each to the least loaded shard. */
  function Assign(keys: seq<Path>, e: map<Path, real>, count: nat): map<Path, nat>
    requires count >= 1
  {
    var order := Sort(PlacementOrder(e), keys);
    Placed(order, Greedy(Times(order, e), count))
  }

  function ShardOf(items: seq<NodeId>, durations: map<Path, real>, count: nat): map<Path, nat>
    requires count >= 1
  {
    Assign(Keys(items), Expected(items, durations), count)
  }

  /** The items whose module is (`keep`) or is not on shard `index`. */
  function Select(items: seq<NodeId>, shardOf: map<Path, nat>, index: int, keep: bool): seq<NodeId> {
    if items == [] then []
    else
      var p := ModuleOf(items[|items| - 1]);
      Select(items[..|items| - 1], shardOf, index, keep)
        + if p in shardOf && (shardOf[p] == index) == keep then [items[|items| - 1]] else []
  }

  // ----- the hook itself

  /** An environment variable that should hold an integer. */
  datatype Setting = Unset | NotANumber | Number(n: int)

  datatype HookResult = Unchanged | ValueError | UsageError | Sharded

  /** The collected test items of one pytest process, and those it reported as deselected. */
  class Session {
    var items: seq<NodeId>
    var deselected: seq<NodeId>

    constructor (collected: seq<NodeId>)
      ensures items == collected && deselected == []
    {
      items, deselected := collected, [];
    }

    method ModifyItems(index: Setting, count: Setting, durations: map<Path, real>)
      returns (r: HookResult)
      modifies this
      ensures r.Unchanged? <==> index.Unset? || count.Unset?
      ensures r.ValueError? <==> !index.Unset? && !count.Unset? && (index.NotANumber? || count.NotANumber?)
      ensures r.UsageError? <==> index.Number? && count.Number? && !(0 <= index.n < count.n)
      ensures !r.Sharded? ==> items == old(items) && deselected == old(deselected)
      ensures r.Sharded? ==>
        var shardOf := ShardOf(old(items), durations, count.n);
        && items == Select(old(items), shardOf, index.n, true)
        && deselected == old(deselected) + Select(old(items), shardOf, index.n, false)
    {
      if index.Unset? || count.Unset? {
        return Unchanged;
      }
      if index.NotANumber? || count.NotANumber? {
        return ValueError;
      }
      if !(0 <= index.n < count.n) {
        return UsageError;
      }
      var keys, modules := GroupByModule(items);
      var expected := ExpectedTimes(items, keys, modules, durations);
      var shardOf := AssignShards(keys, expected, count.n);
      AssignKeys(keys, expected, count.n);
      var selected, rest := Split(items, shardOf, index.n);
      if rest != [] {
        deselected := deselected + rest;
      }
      items := selected;
      return Sharded;
    }
  }

  method GroupByModule(items: seq<NodeId>) returns (keys: seq<Path>, modules: map<Path, seq<NodeId>>)
    ensures keys == Keys(items) && modules.Keys == set p | p in keys
    ensures forall p | p in keys :: modules[p] == ItemsOf(items, p)
  {
    keys, modules := [], map[];
    for i := 0 to |items|
      invariant keys == Keys(items[..i]) && modules.Keys == set p | p in keys
      invariant forall p | p in keys :: modules[p] == ItemsOf(items[..i], p)
    {
      assert items[..i + 1][..i] == items[..i];
      var p := ModuleOf(items[i]);
      if p !in modules {
        NoItems(items[..i], p);
        keys, modules := keys + [p], modules[p := []];
      }
      modules := modules[p := modules[p] + [items[i]]];
    }
    assert items[..|items|] == items;
  }

  method AveragePerTest(ghost items: seq<NodeId>, keys: seq<Path>, modules: map<Path, seq<NodeId>>,
                        durations: map<Path, real>) returns (perTest: real)
    requires keys == Keys(items) && modules.Keys == set p | p in keys
    requires forall p | p in keys :: modules[p] == ItemsOf(items, p)
    ensures perTest == PerTest(items, durations)
  {
    var seconds, tests := 0.0, 0.0;
    ghost var known := KnownTests(items, durations);
    for i := 0 to |keys|
      invariant seconds == SumOver(keys[..i], durations)
      invariant tests == SumOver(keys[..i], known)
    {
      SumOfOneMore(keys, i, durations);
      SumOfOneMore(keys, i, known);
      if keys[i] in durations {
        seconds, tests := seconds + durations[keys[i]], tests + |modules[keys[i]]| as real;
      }
    }
    assert keys[..|keys|] == keys;
    perTest := Average(seconds, tests);
  }

  lemma SumOfOneMore(s: seq<Path>, i: nat, m: map<Path, real>)
    requires i < |s|
    ensures SumOver(s[..i + 1], m) == SumOver(s[..i], m) + if s[i] in m then m[s[i]] else 0.0
  {
    assert s[..i + 1][..i] == s[..i];
  }

  method ExpectedTimes(ghost items: seq<NodeId>, keys: seq<Path>, modules: map<Path, seq<NodeId>>,
                       durations: map<Path, real>) returns (expected: map<Path, real>)
    requires keys == Keys(items) && modules.Keys == set p | p in keys
    requires forall p | p in keys :: modules[p] == ItemsOf(items, p)
    ensures expected == Expected(items, durations)
  {
    var perTest := AveragePerTest(items, keys, modules, durations);
    expected := map p | p in keys :: ModuleTime(durations, perTest, p, |modules[p]|);
  }

  method Split(items: seq<NodeId>, shardOf: map<Path, nat>, index: int)
    returns (selected: seq<NodeId>, rest: seq<NodeId>)
    requires forall p | p in Keys(items) :: p in shardOf
    ensures selected == Select(items, shardOf, index, true) && rest == Select(items, shardOf, index, false)
  {
    selected, rest := [], [];
    for i := 0 to |items|
      invariant selected == Select(items[..i], shardOf, index, true)
      invariant rest == Select(items[..i], shardOf, index, false)
    {
      assert items[..i + 1][..i] == items[..i];
      ModuleIsKey(items, i);
      if shardOf[ModuleOf(items[i])] == index {
        selected := selected + [items[i]];
      } else {
        rest := rest + [items[i]];
      }
    }
    assert items[..|items|] == items;
  }

  method AssignShards(keys: seq<Path>, expected: map<Path, real>, count: nat)
    returns (shardOf: map<Path, nat>)
    requires count >= 1 && expected.Keys == set p | p in keys
    ensures shardOf == Assign(keys, expected, count)
  {
    var order := Sort(PlacementOrder(expected), keys);
    SortKeepsMembers(PlacementOrder(expected), keys);
    shardOf := PlaceInOrder(order, expected, count);
  }

  method PlaceInOrder(order: seq<Path>, expected: map<Path, real>, count: nat)
    returns (shardOf: map<Path, nat>)
    requires count >= 1 && forall p | p in order :: p in expected
    ensures shardOf == Placed(order, Greedy(Times(order, expected), count))
  {
    var loads := new real[count](_ => 0.0);
    ghost var ps, g := [], [];
    shardOf := map[];
    FirstTurn(loads[..]);
    for i := 0 to |order|
      invariant |g| == i && ps == Times(order, expected)[..i] && Turn(ps, g, loads[..], count)
      invariant shardOf == Placed(order[..i], g)
    {
      var shard := PlaceJob(loads, expected[order[i]], ps, g);
      PlaceStep(order, i, g, shard);
      shardOf := shardOf[order[i] := shard];
      ps, g := ps + [expected[order[i]]], g + [shard];
    }
    assert order[..|order|] == order && ps == Times(order, expected);
  }

  /** The next job goes to the least loaded shard. */
  method PlaceJob(loads: array<real>, time: real, ghost ps: seq<real>, ghost g: seq<nat>) returns (shard: nat)
    requires Turn(ps, g, loads[..], loads.Length)
    modifies loads
    ensures Turn(ps + [time], g + [shard], loads[..], loads.Length)
  {
    shard := LeastLoaded(loads[..]);
    NextTurn(ps, g, loads[..], loads.Length, time, shard, ps + [time]);
    loads[shard] := loads[shard] + time;
  }

  lemma PlaceStep(order: seq<Path>, n: nat, shards: seq<nat>, shard: nat)
    requires n == |shards| < |order|
    ensures Placed(order[..n + 1], shards + [shard]) == Placed(order[..n], shards)[order[n] := shard]
  {
    assert order[..n + 1][..n] == order[..n] && (shards + [shard])[..n] == shards;
  }

  // ----- what grouping and assigning produce

  lemma {:induction false} NoItems(items: seq<NodeId>, p: Path)
    requires p !in Keys(items)
    ensures ItemsOf(items, p) == []
  {
    if items != [] {
      NoItems(items[..|items| - 1], p);
    }
  }

  lemma {:induction false} ModuleIsKey(items: seq<NodeId>, i: nat)
    requires i < |items|
    ensures ModuleOf(items[i]) in Keys(items)
  {
    if i < |items| - 1 {
      ModuleIsKey(items[..|items| - 1], i);
    }
  }

  lemma {:induction false} PlacedKeys(order: seq<Path>, shards: seq<nat>)
    requires |order| == |shards|
    ensures Placed(order, shards).Keys == set p | p in order
    ensures forall p | p in order :: Placed(order, shards)[p] in shards
  {
    if order != [] {
      PlacedKeys(order[..|order| - 1], shards[..|order| - 1]);
      assert order == order[..|order| - 1] + [order[|order| - 1]];
    }
  }

  lemma AssignKeys(keys: seq<Path>, e: map<Path, real>, count: nat)
    requires count >= 1
    ensures Assign(keys, e, count).Keys == set p | p in keys
    ensures forall p | p in keys :: Assign(keys, e, count)[p] < count
  {
    var order := Sort(PlacementOrder(e), keys);
    var shards := Greedy(Times(order, e), count);
    SortKeepsMembers(PlacementOrder(e), keys);
    PlacedKeys(order, shards);
  }

  // ----- the sums do not depend on the order of the modules

  lemma {:induction false} SumWithout(s: seq<Path>, i: nat, m: map<Path, real>)
    requires i < |s|
    ensures SumOver(s, m) == SumOver(s[..i] + s[i + 1..], m) + if s[i] in m then m[s[i]] else 0.0
  {
    var n := |s| - 1;
    if i == n {
      assert s[..i] + s[i + 1..] == s[..n];
    } else {
      SumWithout(s[..n], i, m);
      var t := s[..i] + s[i + 1..];
      assert t[|t| - 1] == s[n] && t[..|t| - 1] == s[..n][..i] + s[..n][i + 1..];
    }
  }

  lemma {:induction false} SumForgetsOrder(s: seq<Path>, t: seq<Path>, m: map<Path, real>)
    requires multiset(s) == multiset(t)
    ensures SumOver(s, m) == SumOver(t, m)
  {
    SameContents(s, t);
    if s != [] {
      var n := |s| - 1;
      var i :| 0 <= i < |t| && t[i] == s[n];
      SumWithout(t, i, m);
      SameWithout(s, t, i);
      SumForgetsOrder(s[..n], t[..i] + t[i + 1..], m);
    }
  }

  lemma SameWithout(s: seq<Path>, t: seq<Path>, i: nat)
    requires s != [] && i < |t| && t[i] == s[|s| - 1] && multiset(s) == multiset(t)
    ensures multiset(s[..|s| - 1]) == multiset(t[..i] + t[i + 1..])
  {
    DropOne(s, |s| - 1);
    DropOne(t, i);
    assert s[..|s| - 1] + s[|s|..] == s[..|s| - 1];
  }

  lemma DropOne(s: seq<Path>, i: nat)
    requires i < |s|
    ensures multiset(s[..i] + s[i + 1..]) == multiset(s) - multiset{s[i]}
  {
    assert s == s[..i] + [s[i]] + s[i + 1..];
  }

  lemma {:induction false} KeysAreDistinct(items: seq<NodeId>)
    ensures Distinct(Keys(items))
  {
    if items != [] {
      KeysAreDistinct(items[..|items| - 1]);
    }
  }

  lemma {:induction false} KeyHasItem(items: seq<NodeId>, p: Path) returns (i: nat)
    requires p in Keys(items)
    ensures i < |items| && ModuleOf(items[i]) == p
  {
    if p in Keys(items[..|items| - 1]) {
      i := KeyHasItem(items[..|items| - 1], p);
    } else {
      i := |items| - 1;
    }
  }

  lemma {:induction false} ItemsOfCounts(items: seq<NodeId>, p: Path, x: NodeId)
    ensures multiset(ItemsOf(items, p))[x] == if ModuleOf(x) == p then multiset(items)[x] else 0
  {
    if items != [] {
      ItemsOfCounts(items[..|items| - 1], p, x);
      CountWithLast(items, x);
      CountWithMore(ItemsOf(items[..|items| - 1], p), items[|items| - 1], x);
    }
  }

  lemma ItemsOfForgetsOrder(s: seq<NodeId>, t: seq<NodeId>, p: Path)
    requires multiset(s) == multiset(t)
    ensures |ItemsOf(s, p)| == |ItemsOf(t, p)|
  {
    forall x ensures multiset(ItemsOf(s, p))[x] == multiset(ItemsOf(t, p))[x] {
      ItemsOfCounts(s, p, x);
      ItemsOfCounts(t, p, x);
    }
    assert multiset(ItemsOf(s, p)) == multiset(ItemsOf(t, p));
    SameContents(ItemsOf(s, p), ItemsOf(t, p));
  }

  lemma KeysForgetOrder(s: seq<NodeId>, t: seq<NodeId>)
    requires multiset(s) == multiset(t)
    ensures multiset(Keys(s)) == multiset(Keys(t))
    ensures forall p :: p in Keys(s) <==> p in Keys(t)
  {
    KeysAreDistinct(s);
    KeysAreDistinct(t);
    forall p ensures multiset(Keys(s))[p] == multiset(Keys(t))[p]
             ensures p in Keys(s) <==> p in Keys(t) {
      DistinctCounts(Keys(s), p);
      DistinctCounts(Keys(t), p);
      if p in Keys(s) { SameKey(s, t, p); }
      if p in Keys(t) { SameKey(t, s, p); }
    }
  }

  lemma SameKey(s: seq<NodeId>, t: seq<NodeId>, p: Path)
    requires multiset(s) == multiset(t) && p in Keys(s)
    ensures p in Keys(t)
  {
    var i := KeyHasItem(s, p);
    SameContents(s, t);
    var j :| 0 <= j < |t| && t[j] == s[i];
    ModuleIsKey(t, j);
  }

  lemma PerTestForgetsOrder(s: seq<NodeId>, t: seq<NodeId>, durations: map<Path, real>)
    requires multiset(s) == multiset(t)
    ensures PerTest(s, durations) == PerTest(t, durations)
  {
    KeysForgetOrder(s, t);
    var known := KnownTests(s, durations);
    forall p | p in known ensures p in KnownTests(t, durations) && KnownTests(t, durations)[p] == known[p] {
      ItemsOfForgetsOrder(s, t, p);
    }
    assert known == KnownTests(t, durations);
    SumForgetsOrder(Keys(s), Keys(t), known);
    SumForgetsOrder(Keys(s), Keys(t), durations);
  }

  lemma {:induction false} ExpectedForgetsOrder(s: seq<NodeId>, t: seq<NodeId>, durations: map<Path, real>)
    requires multiset(s) == multiset(t)
    ensures Expected(s, durations) == Expected(t, durations)
  {
    PerTestForgetsOrder(s, t, durations);
    KeysForgetOrder(s, t);
    var e, f := Expected(s, durations), Expected(t, durations);
    assert e.Keys == f.Keys;
    forall p | p in e ensures f[p] == e[p] {
      ItemsOfForgetsOrder(s, t, p);
    }
  }

  lemma PlacementOrderIsTotal(e: map<Path, real>)
    ensures TotalPreorder(PlacementOrder(e)) && Antisymmetric(PlacementOrder(e))
  {
    var leq := PlacementOrder(e);
    forall p, q ensures leq(p, q) || leq(q, p)
                ensures leq(p, q) && leq(q, p) ==> p == q {
      StringLeqTotal(p.text, q.text);
    }
    forall p, q, r | leq(p, q) && leq(q, r) ensures leq(p, r) {
      if StringLeq(p.text, q.text) && StringLeq(q.text, r.text) {
        StringLeqTransitive(p.text, q.text, r.text);
      }
    }
  }

  /** Every worker computes the same split, in whatever order it collected the items. */
  lemma ShardsForgetOrder(s: seq<NodeId>, t: seq<NodeId>, durations: map<Path, real>, count: nat)
    requires count >= 1 && multiset(s) == multiset(t)
    ensures ShardOf(s, durations, count) == ShardOf(t, durations, count)
  {
    KeysForgetOrder(s, t);
    ExpectedForgetsOrder(s, t, durations);
    var e := Expected(s, durations);
    PlacementOrderIsTotal(e);
    SortForgetsOrder(PlacementOrder(e), Keys(s), Keys(t));
  }

  // ----- every item lands on exactly one shard

  lemma {:induction false} SelectCounts(items: seq<NodeId>, f: map<Path, nat>, index: int, keep: bool, x: NodeId)
    ensures multiset(Select(items, f, index, keep))[x] ==
            if ModuleOf(x) in f && (f[ModuleOf(x)] == index) == keep then multiset(items)[x] else 0
  {
    if items != [] {
      SelectCounts(items[..|items| - 1], f, index, keep, x);
      CountWithLast(items, x);
      CountWithMore(Select(items[..|items| - 1], f, index, keep), items[|items| - 1], x);
    }
  }

  /** One shard selects all occurrences of an item, every other shard none; the rest is deselected. */
  lemma EachItemOnOneShard(items: seq<NodeId>, durations: map<Path, real>, count: nat, x: NodeId, index: nat)
    requires count >= 1 && x in items && index < count
    ensures var f := ShardOf(items, durations, count);
            && ModuleOf(x) in f && f[ModuleOf(x)] < count
            && multiset(Select(items, f, index, true))[x] == (if f[ModuleOf(x)] == index then multiset(items)[x] else 0)
            && multiset(Select(items, f, index, true))[x] + multiset(Select(items, f, index, false))[x]
               == multiset(items)[x]
  {
    var f := ShardOf(items, durations, count);
    var i :| 0 <= i < |items| && items[i] == x;
    ModuleIsKey(items, i);
    AssignKeys(Keys(items), Expected(items, durations), count);
    SelectCounts(items, f, index, true, x);
    SelectCounts(items, f, index, false, x);
  }

  /** Whole modules: two items of one module are selected by the same shards. */
  lemma ModulesAreWhole(items: seq<NodeId>, durations: map<Path, real>, count: nat, x: NodeId, y: NodeId, index: nat)
    requires count >= 1 && x in items && y in items && ModuleOf(x) == ModuleOf(y) && index < count
    ensures var selected := Select(items, ShardOf(items, durations, count), index, true);
            x in selected <==> y in selected
  {
    var f := ShardOf(items, durations, count);
    EachItemOnOneShard(items, durations, count, x, index);
    EachItemOnOneShard(items, durations, count, y, index);
    var selected := Select(items, f, index, true);
    assert x in selected <==> x in multiset(selected);
    assert y in selected <==> y in multiset(selected);
  }

  /** The selected items stand in the order of collection: they sit at rising positions of `items`. */
  lemma {:induction false} SelectionKeepsOrder(items: seq<NodeId>, f: map<Path, nat>, index: int, keep: bool)
    returns (at: seq<nat>)
    ensures |at| == |Select(items, f, index, keep)|
    ensures forall i | 0 <= i < |at| :: at[i] < |items| && items[at[i]] == Select(items, f, index, keep)[i]
    ensures forall i, j | 0 <= i < j < |at| :: at[i] < at[j]
  {
    at := [];
    if items != [] {
      at := SelectionKeepsOrder(items[..|items| - 1], f, index, keep);
      var p := ModuleOf(items[|items| - 1]);
      if p in f && (f[p] == index) == keep {
        at := at + [|items| - 1];
      }
    }
  }

  // ----- the split is within 4/3 - 1/(3m) of the best split into whole modules

  function ModuleLoad(keys: seq<Path>, e: map<Path, real>, f: map<Path, nat>, j: nat): real {
    SumOver(keys, map p | p in e && p in f && f[p] == j :: e[p])
  }

  /** The longest expected run time among the first `count` shards. */
  function HeaviestShard(keys: seq<Path>, e: map<Path, real>, f: map<Path, nat>, count: nat): (c: real)
    requires count >= 1
    ensures exists j: nat | j < count :: c == ModuleLoad(keys, e, f, j)
    ensures forall j: nat | j < count :: ModuleLoad(keys, e, f, j) <= c
  {
    if count == 1 then ModuleLoad(keys, e, f, 0)
    else
      var c := HeaviestShard(keys, e, f, count - 1);
      if ModuleLoad(keys, e, f, count - 1) > c then ModuleLoad(keys, e, f, count - 1) else c
  }

  /** The shards that `f` gives the modules of `order`, in that order. */
  function Along(order: seq<Path>, f: map<Path, nat>): (a: seq<nat>)
    requires forall p | p in order :: p in f
    ensures |a| == |order| && forall i | 0 <= i < |order| :: a[i] == f[order[i]]
  {
    seq(|order|, i requires 0 <= i < |order| => f[order[i]])
  }

  lemma {:induction false} LoadAlong(order: seq<Path>, e: map<Path, real>, f: map<Path, nat>, j: nat)
    requires forall p | p in order :: p in f && p in e
    ensures Load(Times(order, e), Along(order, f), j) == ModuleLoad(order, e, f, j)
  {
    if order != [] {
      var front := order[..|order| - 1];
      LoadAlong(front, e, f, j);
      assert Times(order, e)[..|order| - 1] == Times(front, e);
      assert Along(order, f)[..|order| - 1] == Along(front, f);
    }
  }

  lemma {:induction false} AlongPlaced(order: seq<Path>, shards: seq<nat>)
    requires |order| == |shards| && Distinct(order)
    ensures forall i | 0 <= i < |order| ::
        order[i] in Placed(order, shards) && Placed(order, shards)[order[i]] == shards[i]
  {
    if order != [] {
      var n := |order| - 1;
      AlongPlaced(order[..n], shards[..n]);
    }
  }

  lemma AverageIsNonNegative(seconds: real, tests: real)
    requires seconds >= 0.0 && tests >= 0.0
    ensures Average(seconds, tests) >= 0.0
  {
  }

  lemma ModuleTimeIsNonNegative(durations: map<Path, real>, perTest: real, p: Path, tests: nat)
    requires perTest >= 0.0 && forall q | q in durations :: durations[q] >= 0.0
    ensures ModuleTime(durations, perTest, p, tests) >= 0.0
  {
  }

  lemma ExpectedIsNonNegative(items: seq<NodeId>, durations: map<Path, real>)
    requires forall p | p in durations :: durations[p] >= 0.0
    ensures forall p | p in Expected(items, durations) :: Expected(items, durations)[p] >= 0.0
  {
    var known := KnownTests(items, durations);
    SumIsNonNegative(Keys(items), durations);
    SumIsNonNegative(Keys(items), known);
    AverageIsNonNegative(SumOver(Keys(items), durations), SumOver(Keys(items), known));
    forall p | p in Expected(items, durations) ensures Expected(items, durations)[p] >= 0.0 {
      ModuleTimeIsNonNegative(durations, PerTest(items, durations), p, |ItemsOf(items, p)|);
    }
  }

  lemma {:induction false} SumIsNonNegative(s: seq<Path>, m: map<Path, real>)
    requires forall p | p in m :: m[p] >= 0.0
    ensures SumOver(s, m) >= 0.0
  {
    if s != [] {
      SumIsNonNegative(s[..|s| - 1], m);
    }
  }

  /**
   The greedy split against any other split `other` of the same modules over the same shards: its
   heaviest shard is at most 4/3 - 1/(3 * count) times as heavy.
   */
  lemma {:induction false} SplitIsNearBest(items: seq<NodeId>, durations: map<Path, real>, count: nat,
                                           other: map<Path, nat>)
    requires count >= 1 && forall p | p in durations :: durations[p] >= 0.0
    requires forall p | p in Keys(items) :: p in other && other[p] < count
    ensures var keys, e := Keys(items), Expected(items, durations);
            HeaviestShard(keys, e, ShardOf(items, durations, count), count)
            <= Guarantee(count, HeaviestShard(keys, e, other, count))
  {
    var keys, e := Keys(items), Expected(items, durations);
    OrderIsDistinct(items, e);
    TimesFall(items, durations);
    SortedIsNearBest(keys, Sort(PlacementOrder(e), keys), e, other, count);
  }

  lemma {:induction false} SortedIsNearBest(keys: seq<Path>, order: seq<Path>, e: map<Path, real>,
                                            other: map<Path, nat>, count: nat)
    requires count >= 1 && order == Sort(PlacementOrder(e), keys) && Distinct(order)
    requires forall p | p in keys :: p in e && p in other && other[p] < count
    requires Falling(Times(order, e)) && NonNegative(Times(order, e))
    ensures HeaviestShard(keys, e, Placed(order, Greedy(Times(order, e), count)), count)
            <= Guarantee(count, HeaviestShard(keys, e, other, count))
  {
    var f := Placed(order, Greedy(Times(order, e), count));
    SortKeepsMembers(PlacementOrder(e), keys);
    SortKeepsContents(PlacementOrder(e), keys);
    GreedyAlong(order, e, f, count);
    NearBest(keys, order, e, f, other, count);
  }

  lemma {:induction false} GreedyAlong(order: seq<Path>, e: map<Path, real>, f: map<Path, nat>, count: nat)
    requires count >= 1 && Distinct(order) && (forall p | p in order :: p in e)
    requires f == Placed(order, Greedy(Times(order, e), count))
    ensures (forall p | p in order :: p in f) && Along(order, f) == Greedy(Times(order, e), count)
  {
    AlongPlaced(order, Greedy(Times(order, e), count));
  }

  lemma NearBest(keys: seq<Path>, order: seq<Path>, e: map<Path, real>,
                 f: map<Path, nat>, other: map<Path, nat>, count: nat)
    requires count >= 1 && multiset(keys) == multiset(order)
    requires forall p | p in order :: p in e && p in f && p in other && other[p] < count
    requires Falling(Times(order, e)) && NonNegative(Times(order, e))
    requires Along(order, f) == Greedy(Times(order, e), count)
    ensures HeaviestShard(keys, e, f, count) <= Guarantee(count, HeaviestShard(keys, e, other, count))
  {
    var c := HeaviestShard(keys, e, other, count);
    OtherLoads(keys, order, e, other, count);
    LoadNonNegative(Times(order, e), Along(order, other), 0);
    LongestFirst(Times(order, e), count, Along(order, other), c, Guarantee(count, c));
    var j: nat :| j < count && HeaviestShard(keys, e, f, count) == ModuleLoad(keys, e, f, j);
    LoadsAgree(keys, order, e, f, j);
  }

  lemma OrderIsDistinct(items: seq<NodeId>, e: map<Path, real>)
    ensures Distinct(Sort(PlacementOrder(e), Keys(items)))
  {
    KeysAreDistinct(items);
    SortKeepsMembers(PlacementOrder(e), Keys(items));
  }

  lemma LoadsAgree(keys: seq<Path>, order: seq<Path>, e: map<Path, real>, f: map<Path, nat>, j: nat)
    requires multiset(keys) == multiset(order)
    requires forall p | p in order :: p in f && p in e
    ensures Load(Times(order, e), Along(order, f), j) == ModuleLoad(keys, e, f, j)
  {
    LoadAlong(order, e, f, j);
    SumForgetsOrder(order, keys, map p | p in e && p in f && f[p] == j :: e[p]);
  }

  lemma OtherLoads(keys: seq<Path>, order: seq<Path>, e: map<Path, real>, f: map<Path, nat>, count: nat)
    requires count >= 1 && multiset(keys) == multiset(order)
    requires forall p | p in order :: p in f && p in e
    ensures forall j: nat | j < count :: Load(Times(order, e), Along(order, f), j) <= HeaviestShard(keys, e, f, count)
  {
    forall j: nat | j < count ensures Load(Times(order, e), Along(order, f), j) <= HeaviestShard(keys, e, f, count) {
      LoadsAgree(keys, order, e, f, j);
      assert ModuleLoad(keys, e, f, j) <= HeaviestShard(keys, e, f, count);
    }
  }

  lemma TimesFall(items: seq<NodeId>, durations: map<Path, real>)
    requires forall p | p in durations :: durations[p] >= 0.0
    ensures var e := Expected(items, durations);
            var times := Times(Sort(PlacementOrder(e), Keys(items)), e);
            Falling(times) && NonNegative(times)
  {
    var e := Expected(items, durations);
    PlacementOrderIsTotal(e);
    SortIsSorted(PlacementOrder(e), Keys(items));
    ExpectedIsNonNegative(items, durations);
    SortedTimesFall(Sort(PlacementOrder(e), Keys(items)), e);
  }

  lemma {:induction false} SortedTimesFall(order: seq<Path>, e: map<Path, real>)
    requires SortedBy(PlacementOrder(e), order) && forall p | p in e :: e[p] >= 0.0
    ensures Falling(Times(order, e)) && NonNegative(Times(order, e))
  {
    forall i, j | 0 <= i < j < |order| ensures TimeOf(e, order[i]) >= TimeOf(e, order[j]) {
      assert PlacementOrder(e)(order[i], order[j]);
    }
  }
}
