/** Reordering the steps of a workflow (`StepReorderView.post` in backend/agent/views.py). */
module StepReorder {
  import opened Sequences

  /** A row of the step table; soft-deleted rows keep their order. */
  datatype Step = Step(order: int, deleted: bool)

  type Steps = map<nat, Step>

  /** The largest value of a database integer column. */
  const MAX_ORDER: int := 2147483647

  const SAFETY_GAP := 1000

  datatype Response = Reordered | SystemWorkflow | InvalidSteps | DatabaseError

  predicate Active(steps: Steps, id: nat) {
    id in steps && !steps[id].deleted
  }

  /** The partial unique constraint of the table. */
  ghost predicate DistinctOrders(steps: Steps) {
    forall a, b | Active(steps, a) && Active(steps, b) && a != b :: steps[a].order != steps[b].order
  }

  ghost predicate InRange(steps: Steps) {
    forall id | id in steps :: 0 <= steps[id].order <= MAX_ORDER
  }

  /** What the database keeps true after every statement. */
  ghost predicate Legal(steps: Steps) {
    DistinctOrders(steps) && InRange(steps)
  }

  /** The listed steps are different and active: what the count check is there to establish. */
  ghost predicate Accepted(steps: Steps, ids: seq<nat>) {
    Distinct(ids) && forall id | id in ids :: Active(steps, id)
  }

  /** The base of the temporary orders, from the maximum over all steps, deleted ones included. */
  function TempBase(max: int, ids: seq<nat>): int {
    max + |ids| + SAFETY_GAP
  }

  ghost predicate IsMax(steps: Steps, max: int) {
    && max >= 0
    && (forall id | id in steps :: steps[id].order <= max)
    && (max == 0 || exists id :: id in steps && steps[id].order == max)
  }

  function Moved(steps: Steps, id: nat, order: int): Steps {
    if id in steps then steps[id := steps[id].(order := order)] else steps
  }

  /** The `k`-th single-row update: first every step to its temporary order, then every step to its place. */
  function Update(ids: seq<nat>, base: int, k: nat): (u: (nat, int))
    requires k < 2 * |ids|
  {
    if k < |ids| then (ids[k], base + k + 1) else (ids[k - |ids|], k - |ids| + 1)
  }

  /** The table after the first `k` updates. */
  function AfterUpdates(steps: Steps, ids: seq<nat>, base: int, k: nat): Steps
    requires k <= 2 * |ids|
  {
    if k == 0 then steps
    else
      var u := Update(ids, base, k - 1);
      Moved(AfterUpdates(steps, ids, base, k - 1), u.0, u.1)
  }

  /** No step left out of the request already holds one of the orders to be given. */
  ghost predicate PlacesFree(steps: Steps, ids: seq<nat>) {
    forall id | Active(steps, id) && id !in ids :: !(1 <= steps[id].order <= |ids|)
  }

  ghost predicate Fits(max: int, ids: seq<nat>) {
    ids == [] || max + 2 * |ids| + 1000 <= 2147483647
  }

  // ----- the order of every step after k updates

  /** The order of the listed step `ids[i]` after `k` updates. */
  function OrderAfter(steps: Steps, ids: seq<nat>, base: int, k: nat, i: nat): int
    requires i < |ids| && ids[i] in steps
  {
    if k <= i then steps[ids[i]].order else if k <= |ids| + i then base + i + 1 else i + 1
  }

  /** Only the orders of the listed steps differ from `steps`. */
  ghost predicate Progress(steps: Steps, after: Steps, ids: seq<nat>, base: int, k: nat) {
    && after.Keys == steps.Keys
    && (forall id | id in steps :: after[id].deleted == steps[id].deleted)
    && (forall id | id in steps && id !in ids :: after[id] == steps[id])
    && (forall i | 0 <= i < |ids| :: ids[i] in steps && after[ids[i]].order == OrderAfter(steps, ids, base, k, i))
  }

  /** The listed steps hold 1..n in the requested sequence, and nothing else changed. */
  ghost predicate Placed(steps: Steps, after: Steps, ids: seq<nat>) {
    && after.Keys == steps.Keys
    && (forall id | id in steps && id !in ids :: after[id] == steps[id])
    && (forall i | 0 <= i < |ids| :: ids[i] in steps && after[ids[i]] == steps[ids[i]].(order := i + 1))
  }

  lemma OneMoreUpdate(steps: Steps, after: Steps, ids: seq<nat>, base: int, k: nat)
    requires k < 2 * |ids| && Distinct(ids) && Progress(steps, after, ids, base, k)
    ensures Progress(steps, Moved(after, Update(ids, base, k).0, Update(ids, base, k).1), ids, base, k + 1)
  {
  }

  lemma BeforeUpdates(steps: Steps, ids: seq<nat>, base: int)
    requires Accepted(steps, ids)
    ensures Progress(steps, steps, ids, base, 0)
  {
    forall i | 0 <= i < |ids| ensures ids[i] in steps {
      assert ids[i] in ids && Active(steps, ids[i]);
    }
  }

  lemma {:induction false} OrdersAfter(steps: Steps, ids: seq<nat>, base: int, k: nat)
    requires k <= 2 * |ids| && Accepted(steps, ids)
    ensures Progress(steps, AfterUpdates(steps, ids, base, k), ids, base, k)
  {
    if k == 0 {
      BeforeUpdates(steps, ids, base);
    } else {
      OrdersAfter(steps, ids, base, k - 1);
      OneMoreUpdate(steps, AfterUpdates(steps, ids, base, k - 1), ids, base, k - 1);
    }
  }

  lemma ListedDiffer(steps: Steps, after: Steps, ids: seq<nat>, base: int, k: nat, a: nat, b: nat)
    requires k <= 2 * |ids| && Progress(steps, after, ids, base, k) && DistinctOrders(steps)
    requires (forall id | id in steps :: steps[id].order < base) && |ids| <= base
    requires a in ids && b in ids && Active(steps, a) && Active(steps, b) && a != b
    ensures after[a].order != after[b].order
  {
  }

  lemma UnlistedDiffers(steps: Steps, after: Steps, ids: seq<nat>, base: int, k: nat, a: nat, b: nat)
    requires k <= 2 * |ids| && Progress(steps, after, ids, base, k) && DistinctOrders(steps) && PlacesFree(steps, ids)
    requires forall id | id in steps :: steps[id].order < base
    requires a in ids && b !in ids && Active(steps, a) && Active(steps, b)
    ensures after[a].order != after[b].order
  {
  }

  /** No two active steps hold the same order after any update, when the places are free. */
  lemma AlwaysDistinct(steps: Steps, ids: seq<nat>, max: int, k: nat)
    requires k <= 2 * |ids| && Accepted(steps, ids) && DistinctOrders(steps) && IsMax(steps, max)
    requires PlacesFree(steps, ids)
    ensures DistinctOrders(AfterUpdates(steps, ids, TempBase(max, ids), k))
  {
    var base := TempBase(max, ids);
    var after := AfterUpdates(steps, ids, base, k);
    OrdersAfter(steps, ids, base, k);
    forall a, b | Active(after, a) && Active(after, b) && a != b ensures after[a].order != after[b].order {
      assert Active(steps, a) && Active(steps, b);
      if a in ids && b in ids {
        ListedDiffer(steps, after, ids, base, k, a, b);
      } else if a in ids {
        UnlistedDiffers(steps, after, ids, base, k, a, b);
      } else if b in ids {
        UnlistedDiffers(steps, after, ids, base, k, b, a);
      }
    }
  }

  /** Otherwise the update that gives out the taken place breaks the constraint. */
  lemma TakenPlaceClashes(steps: Steps, ids: seq<nat>, base: int, id: nat)
    requires Accepted(steps, ids) && Active(steps, id) && id !in ids && 1 <= steps[id].order <= |ids|
    ensures !DistinctOrders(AfterUpdates(steps, ids, base, |ids| + steps[id].order))
  {
    var i := steps[id].order - 1;
    var after := AfterUpdates(steps, ids, base, |ids| + i + 1);
    OrdersAfter(steps, ids, base, |ids| + i + 1);
    assert ids[i] in ids;
    assert Active(after, id) && Active(after, ids[i]) && after[ids[i]].order == i + 1;
  }

  /** The constraint holds after every single update exactly when no other active step holds an order in 1..n. */
  lemma DistinctExactly(steps: Steps, ids: seq<nat>, max: int)
    requires Accepted(steps, ids) && DistinctOrders(steps) && IsMax(steps, max)
    ensures (forall k | 0 <= k <= 2 * |ids| :: DistinctOrders(AfterUpdates(steps, ids, TempBase(max, ids), k)))
       <==> PlacesFree(steps, ids)
  {
    if PlacesFree(steps, ids) {
      forall k | 0 <= k <= 2 * |ids| ensures DistinctOrders(AfterUpdates(steps, ids, TempBase(max, ids), k)) {
        AlwaysDistinct(steps, ids, max, k);
      }
    } else {
      var id :| Active(steps, id) && id !in ids && 1 <= steps[id].order <= |ids|;
      TakenPlaceClashes(steps, ids, TempBase(max, ids), id);
    }
  }

  /** Every order given out is positive, so positive orders stay positive throughout. */
  lemma {:induction false} StaysPositive(steps: Steps, ids: seq<nat>, max: int, k: nat)
    requires k <= 2 * |ids| && Accepted(steps, ids) && IsMax(steps, max)
    requires forall id | Active(steps, id) :: steps[id].order > 0
    ensures forall id | Active(AfterUpdates(steps, ids, TempBase(max, ids), k), id) ::
      AfterUpdates(steps, ids, TempBase(max, ids), k)[id].order > 0
  {
    if k > 0 {
      StaysPositive(steps, ids, max, k - 1);
    }
  }

  lemma {:induction false} InRangeAfter(steps: Steps, ids: seq<nat>, max: int, k: nat)
    requires k <= 2 * |ids| && Accepted(steps, ids) && IsMax(steps, max) && InRange(steps) && Fits(max, ids)
    ensures InRange(AfterUpdates(steps, ids, TempBase(max, ids), k))
  {
    if k > 0 {
      InRangeAfter(steps, ids, max, k - 1);
    }
  }

  lemma TooLargeAfter(steps: Steps, ids: seq<nat>, max: int)
    requires Accepted(steps, ids) && !Fits(max, ids)
    ensures !InRange(AfterUpdates(steps, ids, TempBase(max, ids), |ids|))
  {
    var n := |ids|;
    OrdersAfter(steps, ids, TempBase(max, ids), n);
    assert AfterUpdates(steps, ids, TempBase(max, ids), n)[ids[n - 1]].order == TempBase(max, ids) + n;
  }

  /** The table is legal after each of the first `k` updates. */
  ghost predicate LegalUpTo(steps: Steps, ids: seq<nat>, base: int, k: nat)
    requires k <= 2 * |ids|
  {
    forall j | 0 <= j <= k :: Legal(AfterUpdates(steps, ids, base, j))
  }

  /** All updates are legal exactly when the places are free and the temporary orders fit the column. */
  lemma LegalExactly(steps: Steps, ids: seq<nat>, max: int)
    requires Accepted(steps, ids) && Legal(steps) && IsMax(steps, max)
    ensures LegalUpTo(steps, ids, TempBase(max, ids), 2 * |ids|) <==> PlacesFree(steps, ids) && Fits(max, ids)
  {
    DistinctExactly(steps, ids, max);
    if !Fits(max, ids) {
      TooLargeAfter(steps, ids, max);
    } else {
      forall k | 0 <= k <= 2 * |ids| ensures InRange(AfterUpdates(steps, ids, TempBase(max, ids), k)) {
        InRangeAfter(steps, ids, max, k);
      }
      if PlacesFree(steps, ids) {
        assert LegalUpTo(steps, ids, TempBase(max, ids), 2 * |ids|);
      }
    }
  }

  /** Of two steps in order, a request that lists only the second fails: the first holds the place it would take. */
  lemma PartialListFails()
    ensures var steps, ids: seq<nat> := map[1 := Step(1, false), 2 := Step(2, false)], [2];
            && Legal(steps) && Accepted(steps, ids) && IsMax(steps, 2) && Fits(2, ids)
            && !PlacesFree(steps, ids) && !LegalUpTo(steps, ids, TempBase(2, ids), 2)
  {
    var steps: Steps, ids: seq<nat> := map[1 := Step(1, false), 2 := Step(2, false)], [2];
    assert Active(steps, 1) && 1 !in ids;
    assert steps[2].order == 2;
    LegalExactly(steps, ids, 2);
  }

  /** Whether an active step other than `id` holds `order`. */
  predicate Taken(steps: Steps, id: nat, order: int) {
    Active(steps, id) && exists b :: b in steps && b != id && !steps[b].deleted && steps[b].order == order
  }

  lemma MoveIsLegal(steps: Steps, id: nat, order: int)
    requires id in steps && Legal(steps)
    ensures Legal(Moved(steps, id, order)) <==> 0 <= order <= MAX_ORDER && !Taken(steps, id, order)
  {
    var moved := Moved(steps, id, order);
    assert moved[id].order == order;
    if Taken(steps, id, order) {
      var b :| b in steps && b != id && !steps[b].deleted && steps[b].order == order;
      assert Active(moved, b) && Active(moved, id) && moved[b].order == moved[id].order;
    } else {
      assert forall a | Active(moved, a) :: Active(steps, a);
    }
  }

  // ----- the count check

  function ActiveAmong(steps: Steps, ids: seq<nat>): set<nat> {
    set id | id in ids && Active(steps, id)
  }

  ghost function Elements(ids: seq<nat>): set<nat> {
    set id | id in ids
  }

  lemma {:induction false} ElementsAtMost(ids: seq<nat>)
    ensures |Elements(ids)| <= |ids|
    ensures |Elements(ids)| == |ids| <==> Distinct(ids)
  {
    if ids == [] {
      assert Elements(ids) == {};
    } else {
      var front, last := ids[..|ids| - 1], ids[|ids| - 1];
      ElementsAtMost(front);
      assert ids == front + [last];
      assert Elements(ids) == Elements(front) + {last};
      if Distinct(ids) {
        assert Distinct(front) && last !in front;
      } else if last !in front {
        DistinctWith(front, last);
      }
    }
  }

  lemma DistinctWith(front: seq<nat>, last: nat)
    requires last !in front && !Distinct(front + [last])
    ensures !Distinct(front)
  {
  }

  lemma {:induction false} SmallerPart<T>(part: set<T>, all: set<T>)
    requires part <= all
    ensures |part| <= |all| && (|part| == |all| ==> part == all)
  {
    if part != {} {
      var x :| x in part;
      SmallerPart(part - {x}, all - {x});
    }
  }

  /** As many rows as listed ids means that the ids are different and all belong to active steps. */
  lemma CountCheck(steps: Steps, ids: seq<nat>)
    ensures |ActiveAmong(steps, ids)| == |ids| <==> Accepted(steps, ids)
  {
    ElementsAtMost(ids);
    SmallerPart(ActiveAmong(steps, ids), Elements(ids));
    if Accepted(steps, ids) {
      assert ActiveAmong(steps, ids) == Elements(ids);
    }
    if |ActiveAmong(steps, ids)| == |ids| {
      forall id | id in ids ensures Active(steps, id) {
        assert id in Elements(ids);
      }
    }
  }

  // ----- the view

  class Workflow {
    const isSystem: bool
    var steps: Steps

    ghost predicate Valid()
      reads this
    {
      Legal(steps)
    }

    constructor (isSystem: bool)
      ensures Valid() && steps == map[] && this.isSystem == isSystem
    {
      this.isSystem, steps := isSystem, map[];
    }

    method MaxOrder() returns (max: int)
      requires Valid()
      ensures IsMax(steps, max)
    {
      max := 0;
      var rest := steps.Keys;
      while rest != {}
        invariant rest <= steps.Keys && 0 <= max
        invariant forall id | id in steps && id !in rest :: steps[id].order <= max
        invariant max == 0 || exists id :: id in steps && steps[id].order == max
        decreases |rest|
      {
        var id :| id in rest;
        if steps[id].order > max { max := steps[id].order; }
        rest := rest - {id};
      }
    }

    /** One single-row update; the database refuses it when the table would not stay legal. */
    method UpdateOrder(id: nat, order: int) returns (ok: bool)
      requires Valid()
      modifies this`steps
      ensures Valid()
      ensures ok <==> Legal(Moved(old(steps), id, order))
      ensures steps == if ok then Moved(old(steps), id, order) else old(steps)
    {
      if id !in steps { return true; }
      MoveIsLegal(steps, id, order);
      ok := 0 <= order <= MAX_ORDER && !Taken(steps, id, order);
      if ok { steps := Moved(steps, id, order); }
    }

    /**
     The request succeeds exactly when the listed steps are different and active, no other active step
     holds one of the places, and the temporary orders fit; else nothing changes.
     */
    method Post(ids: seq<nat>) returns (r: Response, ghost max: int)
      requires Valid()
      modifies this`steps
      ensures Valid() && IsMax(old(steps), max)
      ensures r == SystemWorkflow <==> isSystem
      ensures r == InvalidSteps <==> !isSystem && !Accepted(old(steps), ids)
      ensures r == Reordered
         <==> !isSystem && Accepted(old(steps), ids) && PlacesFree(old(steps), ids) && Fits(max, ids)
      ensures r != Reordered ==> steps == old(steps)
      ensures r == Reordered ==> Placed(old(steps), steps, ids)
    {
      var top := MaxOrder();
      max := top;
      if isSystem { return SystemWorkflow, max; }
      CountCheck(steps, ids);
      if |ActiveAmong(steps, ids)| != |ids| { return InvalidSteps, max; }
      var before := steps;
      LegalExactly(before, ids, top);
      var ok := MoveAway(ids, TempBase(top, ids));
      if ok { ok := Settle(before, ids, TempBase(top, ids)); }
      if !ok {
        steps := before;
        return DatabaseError, max;
      }
      AllPlaced(before, ids, TempBase(top, ids));
      r := Reordered;
    }

    /** The `k`-th update. */
    method NextUpdate(ghost before: Steps, ids: seq<nat>, base: int, k: nat, id: nat, order: int) returns (ok: bool)
      requires Valid() && k < 2 * |ids| && Update(ids, base, k) == (id, order)
      requires steps == AfterUpdates(before, ids, base, k) && LegalUpTo(before, ids, base, k)
      modifies this`steps
      ensures Valid()
      ensures ok ==> steps == AfterUpdates(before, ids, base, k + 1) && LegalUpTo(before, ids, base, k + 1)
      ensures !ok ==> !LegalUpTo(before, ids, base, 2 * |ids|)
    {
      LegalStep(before, ids, base, k);
      ok := UpdateOrder(id, order);
    }

    /** The first loop of the view: every listed step moves out of the way. */
    method MoveAway(ids: seq<nat>, base: int) returns (ok: bool)
      requires Valid()
      modifies this`steps
      ensures Valid()
      ensures ok ==> steps == AfterUpdates(old(steps), ids, base, |ids|) && LegalUpTo(old(steps), ids, base, |ids|)
      ensures !ok ==> !LegalUpTo(old(steps), ids, base, 2 * |ids|)
    {
      ghost var before := steps;
      for i := 0 to |ids|
        invariant Valid() && steps == AfterUpdates(before, ids, base, i) && LegalUpTo(before, ids, base, i)
      {
        ok := NextUpdate(before, ids, base, i, ids[i], base + i + 1);
        if !ok { return; }
      }
      ok := true;
    }

    /** The second loop: every listed step takes its place. */
    method Settle(ghost before: Steps, ids: seq<nat>, base: int) returns (ok: bool)
      requires Valid()
      requires steps == AfterUpdates(before, ids, base, |ids|) && LegalUpTo(before, ids, base, |ids|)
      modifies this`steps
      ensures Valid()
      ensures ok <==> LegalUpTo(before, ids, base, 2 * |ids|)
      ensures ok ==> steps == AfterUpdates(before, ids, base, 2 * |ids|)
    {
      for k := |ids| to 2 * |ids|
        invariant Valid() && steps == AfterUpdates(before, ids, base, k) && LegalUpTo(before, ids, base, k)
      {
        ok := NextUpdate(before, ids, base, k, ids[k - |ids|], k - |ids| + 1);
        if !ok { return; }
      }
      ok := true;
    }
  }

  lemma LegalStep(steps: Steps, ids: seq<nat>, base: int, k: nat)
    requires k < 2 * |ids| && LegalUpTo(steps, ids, base, k)
    ensures var u := Update(ids, base, k);
      AfterUpdates(steps, ids, base, k + 1) == Moved(AfterUpdates(steps, ids, base, k), u.0, u.1)
    ensures Legal(AfterUpdates(steps, ids, base, k + 1)) <==> LegalUpTo(steps, ids, base, k + 1)
    ensures !Legal(AfterUpdates(steps, ids, base, k + 1)) ==> !LegalUpTo(steps, ids, base, 2 * |ids|)
  {
  }

  lemma AllPlaced(steps: Steps, ids: seq<nat>, base: int)
    requires Accepted(steps, ids)
    ensures Placed(steps, AfterUpdates(steps, ids, base, 2 * |ids|), ids)
  {
    var after := AfterUpdates(steps, ids, base, 2 * |ids|);
    OrdersAfter(steps, ids, base, 2 * |ids|);
    forall i | 0 <= i < |ids| ensures after[ids[i]] == steps[ids[i]].(order := i + 1) {
      assert after[ids[i]].order == OrderAfter(steps, ids, base, 2 * |ids|, i);
    }
  }
}
