/** Storing an accepted tree as decisions and edges (backend/agent/decision_tree_service.py). */
module DecisionCommit {
  import opened Results
  import opened Sequences
  import opened Sorting
  import opened DecisionStore
  import opened Refs
  import opened DecisionTree

  datatype Created = Created(ref: Ref, id: nat, title: string, layer: nat)

  // ----- what a commit writes

  /** The sort key (layer, ref). */
  function CreationOrder(nodes: seq<Node>): seq<Node> {
    Sort((m: Node, n: Node) => m.layer < n.layer || (m.layer == n.layer && StringLeq(m.ref.text, n.ref.text)), nodes)
  }

  /** The first 255 characters. */
  function Title(n: Node): string {
    if |n.title| <= 255 then n.title else n.title[..255]
  }

  /** The first `n` nodes are numbered from `base` in creation order. */
  function Ids(sorted: seq<Node>, base: nat, n: nat): map<Ref, nat>
    requires n <= |sorted|
  {
    if n == 0 then map[] else Ids(sorted, base, n - 1)[sorted[n - 1].ref := base + n - 1]
  }

  /** `value or None` */
  function OrNone(value: Option<string>): Option<string> {
    if value == Some("") then None else value
  }

  /** What a topic is inferred from: the rule for a title, and the topics of the project at the start. */
  datatype Topics = Topics(infer: (string, set<string>) -> string, existing: set<string>)

  /** The given topic, its first 64 characters, or else the one inferred from the title. */
  function TopicOf(n: Node, infer: (string, set<string>) -> string, existing: set<string>): string {
    match OrNone(n.details.topic)
    case Some(topic) => if |topic| <= 64 then topic else topic[..64]
    case None => infer(Title(n), existing)
  }

  /** The known topics after the first `n` nodes. */
  function KnownTopics(sorted: seq<Node>, topics: Topics, n: nat): set<string>
    requires n <= |sorted|
  {
    if n == 0 then topics.existing
    else
      var known := KnownTopics(sorted, topics, n - 1);
      known + {TopicOf(sorted[n - 1], topics.infer, known)}
  }

  function DecisionOf(n: Node, infer: (string, set<string>) -> string, known: set<string>): Decision {
    Decision(Title(n), OrNone(n.details.summary), OrNone(n.details.reasoning), OrNone(n.details.risk),
             n.details.confidence, TopicOf(n, infer, known))
  }

  function NewDecisions(sorted: seq<Node>, topics: Topics, base: nat, n: nat): map<nat, Decision>
    requires n <= |sorted|
  {
    if n == 0 then map[]
    else
      var decision := DecisionOf(sorted[n - 1], topics.infer, KnownTopics(sorted, topics, n - 1));
      NewDecisions(sorted, topics, base, n - 1)[base + n - 1 := decision]
  }

  function Rows(sorted: seq<Node>, base: nat, n: nat): seq<Created>
    requires n <= |sorted|
  {
    if n == 0 then []
    else
      var node := sorted[n - 1];
      Rows(sorted, base, n - 1) + [Created(node.ref, base + n - 1, Title(node), node.layer)]
  }

  ghost predicate ResolvedBy(sorted: seq<Node>, ids: map<Ref, nat>) {
    forall i | 0 <= i < |sorted| :: sorted[i].ref in ids && forall p | p in sorted[i].parents :: p in ids
  }

  /** One edge from every parent to its child, child after child. */
  ghost function TreeEdges(sorted: seq<Node>, ids: map<Ref, nat>, n: nat): seq<Edge>
    requires n <= |sorted| && ResolvedBy(sorted, ids)
  {
    if n == 0 then []
    else TreeEdges(sorted, ids, n - 1) + EdgesFrom(sorted[n - 1].parents, ids[sorted[n - 1].ref], ids)
  }

  ghost predicate DistinctParents(nodes: seq<Node>) {
    forall i | 0 <= i < |nodes| :: Distinct(nodes[i].parents)
  }

  /** The nodes of an accepted tree. */
  ghost predicate Accepted(nodes: seq<Node>) {
    UniqueRefs(nodes) && Layered(RefMap(nodes))
  }

  // ----- the commit

  /**
   A commit is all or nothing.  On an accepted tree no reference lookup fails, no edge closes a
   cycle, and the commit succeeds exactly when no node lists the same parent twice.
   */
  method Commit(store: Store, nodes: seq<Node>, topics: Topics) returns (r: Result<seq<Created>, CommitError>)
    requires store.Valid() && Accepted(nodes)
    modifies store
    ensures store.Valid()
    ensures r.Ok? <==> DistinctParents(nodes)
    ensures r.Err? ==> r.error == DuplicateEdge
    ensures r.Err? ==> store.decisions == old(store.decisions) && store.edges == old(store.edges)
    ensures var sorted, base := CreationOrder(nodes), old(store.nextId);
            var ids := Ids(sorted, base, |sorted|);
            ResolvedBy(sorted, ids) && (r.Ok? ==>
              && r.value == Rows(sorted, base, |sorted|)
              && store.decisions == old(store.decisions) + NewDecisions(sorted, topics, base, |sorted|)
              && store.edges == old(store.edges) + TreeEdges(sorted, ids, |sorted|))
  {
    var sorted := CreationOrder(nodes);
    CreationOrderIsInOrder(nodes);
    IdsAreNumbered(sorted, store.nextId);
    if nodes == [] {
      assert sorted == [];
      return Ok([]);
    }
    r := CommitInOrder(store, sorted, topics, Names(sorted, store.nextId), Ranks(sorted, store.nextId));
  }

  method CommitInOrder(store: Store, sorted: seq<Node>, topics: Topics,
                       ghost names: map<nat, Ref>, ghost rank: map<nat, nat>)
    returns (r: Result<seq<Created>, CommitError>)
    requires store.Valid() && Numbered(sorted, store.nextId, Ids(sorted, store.nextId, |sorted|), names, rank)
    modifies store
    ensures store.Valid()
    ensures r.Ok? <==> DistinctParents(sorted)
    ensures r.Err? ==> r.error == DuplicateEdge
    ensures r.Err? ==> store.decisions == old(store.decisions) && store.edges == old(store.edges)
    ensures var base := old(store.nextId);
            r.Ok? ==>
              && r.value == Rows(sorted, base, |sorted|)
              && store.decisions == old(store.decisions) + NewDecisions(sorted, topics, base, |sorted|)
              && store.edges == old(store.edges) + TreeEdges(sorted, Ids(sorted, base, |sorted|), |sorted|)
  {
    var decisionsBefore, edgesBefore := store.decisions, store.edges;
    var ids, created := CreateDecisions(store, sorted, topics);
    NewDecisionsAreNumbered(sorted, topics, old(store.nextId), |sorted|);
    var problem := CreateEdges(store, sorted, old(store.nextId), ids, names, rank);
    if problem.Some? {
      store.decisions, store.edges := decisionsBefore, edgesBefore;
      r := Err(problem.value);
    } else {
      r := Ok(created);
    }
  }

  method CreateDecisions(store: Store, sorted: seq<Node>, topics: Topics)
    returns (ids: map<Ref, nat>, created: seq<Created>)
    requires store.Valid()
    modifies store`decisions, store`nextId
    ensures store.Valid() && store.nextId == old(store.nextId) + |sorted| && store.edges == old(store.edges)
    ensures ids == Ids(sorted, old(store.nextId), |sorted|) && created == Rows(sorted, old(store.nextId), |sorted|)
    ensures store.decisions == old(store.decisions) + NewDecisions(sorted, topics, old(store.nextId), |sorted|)
  {
    ids, created := map[], [];
    var known := topics.existing;
    for i := 0 to |sorted|
      invariant store.Valid() && store.nextId == old(store.nextId) + i && store.edges == old(store.edges)
      invariant known == KnownTopics(sorted, topics, i)
      invariant ids == Ids(sorted, old(store.nextId), i) && created == Rows(sorted, old(store.nextId), i)
      invariant store.decisions == old(store.decisions) + NewDecisions(sorted, topics, old(store.nextId), i)
    {
      var node := sorted[i];
      var decision := DecisionOf(node, topics.infer, known);
      InsertLast(old(store.decisions), NewDecisions(sorted, topics, old(store.nextId), i), store.nextId, decision);
      var id := store.AddDecision(decision);
      known := known + {decision.topic};
      ids := ids[node.ref := id];
      created := created + [Created(node.ref, id, Title(node), node.layer)];
    }
  }

  lemma InsertLast(a: map<nat, Decision>, b: map<nat, Decision>, id: nat, d: Decision)
    ensures a + b[id := d] == (a + b)[id := d]
  {
  }

  method CreateEdges(store: Store, sorted: seq<Node>, ghost base: nat, ids: map<Ref, nat>,
                     ghost names: map<nat, Ref>, ghost rank: map<nat, nat>) returns (r: Option<CommitError>)
    requires store.Valid() && Numbered(sorted, base, ids, names, rank)
    requires forall id | id in rank :: id in store.decisions
    requires forall e | e in store.edges :: e.from < base && e.to < base
    modifies store`edges
    ensures store.Valid() && store.decisions == old(store.decisions)
    ensures r.None? <==> DistinctParents(sorted)
    ensures r.Some? ==> r.value == DuplicateEdge
    ensures r.None? ==> store.edges == old(store.edges) + TreeEdges(sorted, ids, |sorted|)
  {
    for i := 0 to |sorted|
      invariant store.Valid() && store.decisions == old(store.decisions)
      invariant store.edges == old(store.edges) + TreeEdges(sorted, ids, i)
      invariant forall k | 0 <= k < i :: Distinct(sorted[k].parents)
      invariant EdgesRise(store.edges, rank) && forall e | e in store.edges :: e.to < base + i
    {
      var node := sorted[i];
      assert ids[node.ref] == base + i;
      r := store.AddParents(node.parents, ids[node.ref], ids, names, rank);
      if r.Some? { return r; }
      Regroup(old(store.edges), TreeEdges(sorted, ids, i), EdgesFrom(node.parents, ids[node.ref], ids));
    }
    return None;
  }

  lemma Regroup(a: seq<Edge>, b: seq<Edge>, c: seq<Edge>)
    ensures (a + b) + c == a + (b + c)
  {
  }

  // ----- numbering

  ghost function Ranks(sorted: seq<Node>, base: nat): (rank: map<nat, nat>)
    ensures forall id: nat :: id in rank <==> base <= id < base + |sorted|
    ensures forall id | id in rank :: rank[id] == sorted[id - base].layer
  {
    map id: nat | base <= id < base + |sorted| :: NodeAt(sorted, base, id).layer
  }

  ghost function Names(sorted: seq<Node>, base: nat): (names: map<nat, Ref>)
    ensures forall id: nat :: id in names <==> base <= id < base + |sorted|
    ensures forall id | id in names :: names[id] == sorted[id - base].ref
  {
    map id: nat | base <= id < base + |sorted| :: NodeAt(sorted, base, id).ref
  }

  ghost function NodeAt(sorted: seq<Node>, base: nat, id: nat): Node {
    if base <= id < base + |sorted| then sorted[id - base] else Node(Ref(""), 0, "", [], NO_DETAILS)
  }

  /** Node `i` has number `base + i`, and its parents have the numbers of nodes in lower layers. */
  ghost predicate Numbered(sorted: seq<Node>, base: nat, ids: map<Ref, nat>, names: map<nat, Ref>,
                           rank: map<nat, nat>) {
    && ResolvedBy(sorted, ids)
    && (forall i | 0 <= i < |sorted| :: ids[sorted[i].ref] == base + i)
    && (forall i | 0 <= i < |sorted| :: ParentsBelow(sorted[i].parents, base + i, ids, names, rank))
    && forall id | id in rank :: base <= id < base + |sorted|
  }

  lemma {:induction false} IdsNumberTheNodes(sorted: seq<Node>, base: nat, n: nat)
    requires UniqueRefs(sorted) && n <= |sorted|
    ensures forall i | 0 <= i < n ::
        sorted[i].ref in Ids(sorted, base, n) && Ids(sorted, base, n)[sorted[i].ref] == base + i
  {
    if n > 0 {
      IdsNumberTheNodes(sorted, base, n - 1);
    }
  }

  lemma {:induction false} IdBelongsToNode(sorted: seq<Node>, base: nat, n: nat, r: Ref) returns (i: nat)
    requires n <= |sorted| && r in Ids(sorted, base, n)
    ensures i < n && sorted[i].ref == r && Ids(sorted, base, n)[r] == base + i
  {
    if r == sorted[n - 1].ref {
      i := n - 1;
    } else {
      i := IdBelongsToNode(sorted, base, n - 1, r);
    }
  }

  lemma {:induction false} NewDecisionsAreNumbered(sorted: seq<Node>, topics: Topics, base: nat, n: nat)
    requires n <= |sorted|
    ensures forall id: nat :: id in NewDecisions(sorted, topics, base, n) <==> base <= id < base + n
  {
    if n > 0 {
      NewDecisionsAreNumbered(sorted, topics, base, n - 1);
    }
  }

  /** The parent `p` of node `i` is the reference of an earlier-layer node, which carries its id. */
  lemma ParentHasId(sorted: seq<Node>, base: nat, i: nat, p: Ref) returns (j: nat)
    requires Accepted(sorted) && i < |sorted| && p in sorted[i].parents
    ensures j < |sorted| && sorted[j].ref == p && sorted[j].layer < sorted[i].layer
    ensures p in Ids(sorted, base, |sorted|) && Ids(sorted, base, |sorted|)[p] == base + j
  {
    var refs := RefMap(sorted);
    RefMapHoldsAll(sorted);
    assert refs[sorted[i].ref] == sorted[i];
    assert LayerFits(refs, sorted[i]);
    j :| 0 <= j < |sorted| && sorted[j].ref == p;
    IdsNumberTheNodes(sorted, base, |sorted|);
  }

  lemma ParentsHaveIds(sorted: seq<Node>, base: nat, i: nat)
    requires Accepted(sorted) && i < |sorted|
    ensures ParentsBelow(sorted[i].parents, base + i, Ids(sorted, base, |sorted|), Names(sorted, base),
                         Ranks(sorted, base))
  {
    var ids := Ids(sorted, base, |sorted|);
    forall p | p in sorted[i].parents
      ensures p in ids && base <= ids[p] < base + |sorted|
      ensures sorted[ids[p] - base].ref == p && sorted[ids[p] - base].layer < sorted[i].layer
    {
      var j := ParentHasId(sorted, base, i, p);
    }
  }

  lemma IdsAreNumbered(sorted: seq<Node>, base: nat)
    requires Accepted(sorted)
    ensures Numbered(sorted, base, Ids(sorted, base, |sorted|), Names(sorted, base), Ranks(sorted, base))
  {
    var ids, names, rank := Ids(sorted, base, |sorted|), Names(sorted, base), Ranks(sorted, base);
    IdsNumberTheNodes(sorted, base, |sorted|);
    forall i | 0 <= i < |sorted| ensures ParentsBelow(sorted[i].parents, base + i, ids, names, rank) {
      ParentsHaveIds(sorted, base, i);
    }
  }

  // ----- creation order

  lemma OneEach(a: seq<Node>, b: seq<Node>, i: nat, j: nat)
    requires multiset(a) == multiset(b) && UniqueRefs(a) && i < j < |b|
    ensures b[i].ref != b[j].ref
  {
    SameContents(a, b);
    assert b[i] != b[j];
    var p :| 0 <= p < |a| && a[p] == b[i];
    var q :| 0 <= q < |a| && a[q] == b[j];
  }

  lemma SameRefs(a: seq<Node>, b: seq<Node>, r: Ref)
    requires multiset(a) == multiset(b) && UniqueRefs(a) && UniqueRefs(b) && r in RefMap(a)
    ensures r in RefMap(b) && RefMap(a)[r] == RefMap(b)[r]
  {
    RefMapHoldsAll(a);
    RefMapHoldsAll(b);
    var i :| 0 <= i < |a| && a[i].ref == r;
    assert a[i] in multiset(b);
    var j :| 0 <= j < |b| && b[j] == a[i];
  }

  lemma UniqueInAnyOrder(a: seq<Node>, b: seq<Node>)
    requires multiset(a) == multiset(b) && UniqueRefs(a)
    ensures UniqueRefs(b) && RefMap(a) == RefMap(b)
  {
    forall i, j | 0 <= i < j < |b| ensures b[i].ref != b[j].ref {
      OneEach(a, b, i, j);
    }
    forall r ensures r in RefMap(a) <==> r in RefMap(b)
             ensures r in RefMap(a) ==> RefMap(a)[r] == RefMap(b)[r] {
      if r in RefMap(a) { SameRefs(a, b, r); }
      if r in RefMap(b) { SameRefs(b, a, r); }
    }
  }

  lemma KeyOrderIsTotal(leq: (Node, Node) -> bool)
    requires forall m, n :: leq(m, n) <==>
        m.layer < n.layer || (m.layer == n.layer && StringLeq(m.ref.text, n.ref.text))
    ensures TotalPreorder(leq)
  {
    forall m, n ensures leq(m, n) || leq(n, m) { StringLeqTotal(m.ref.text, n.ref.text); }
    forall l, m, n | leq(l, m) && leq(m, n) ensures leq(l, n) {
      if StringLeq(l.ref.text, m.ref.text) && StringLeq(m.ref.text, n.ref.text) {
        StringLeqTransitive(l.ref.text, m.ref.text, n.ref.text);
      }
    }
  }

  lemma DistinctInAnyOrder(a: seq<Node>, b: seq<Node>)
    requires multiset(a) == multiset(b) && DistinctParents(a)
    ensures DistinctParents(b)
  {
    forall i | 0 <= i < |b| ensures Distinct(b[i].parents) {
      assert b[i] in multiset(a);
      var j :| 0 <= j < |a| && a[j] == b[i];
    }
  }

  lemma CreationOrderIsInOrder(nodes: seq<Node>)
    requires Accepted(nodes)
    ensures Accepted(CreationOrder(nodes)) && |CreationOrder(nodes)| == |nodes|
    ensures multiset(CreationOrder(nodes)) == multiset(nodes)
    ensures DistinctParents(CreationOrder(nodes)) <==> DistinctParents(nodes)
    ensures forall i, j | 0 <= i < j < |nodes| :: CreationOrder(nodes)[i].layer <= CreationOrder(nodes)[j].layer
  {
    var leq := (m: Node, n: Node) => m.layer < n.layer || (m.layer == n.layer && StringLeq(m.ref.text, n.ref.text));
    var sorted := CreationOrder(nodes);
    SortKeepsContents(leq, nodes);
    UniqueInAnyOrder(nodes, sorted);
    assert |sorted| == |multiset(sorted)| == |multiset(nodes)| == |nodes|;
    KeyOrderIsTotal(leq);
    SortIsSorted(leq, nodes);
    if DistinctParents(nodes) { DistinctInAnyOrder(nodes, sorted); }
    if DistinctParents(sorted) { DistinctInAnyOrder(sorted, nodes); }
  }

  // ----- the stored graph is the tree, renamed

  /** Every decision comes after all its parents: parents get smaller ids. */
  lemma ParentsComeFirst(nodes: seq<Node>, base: nat, n: Node, p: Ref)
    requires Accepted(nodes) && n in nodes && p in n.parents
    ensures var ids := Ids(CreationOrder(nodes), base, |CreationOrder(nodes)|);
            n.ref in ids && p in ids && ids[p] < ids[n.ref]
  {
    var sorted := CreationOrder(nodes);
    CreationOrderIsInOrder(nodes);
    IdsNumberTheNodes(sorted, base, |nodes|);
    assert n in multiset(sorted);
    var i :| 0 <= i < |sorted| && sorted[i] == n;
    var j := ParentHasId(sorted, base, i, p);
  }

  function ParentCount(nodes: seq<Node>, n: nat): nat
    requires n <= |nodes|
  {
    if n == 0 then 0 else ParentCount(nodes, n - 1) + |nodes[n - 1].parents|
  }

  ghost predicate IsReference(n: Node, ids: map<Ref, nat>, e: Edge) {
    n.ref in ids && exists p :: p in n.parents && p in ids && e == Edge(ids[p], ids[n.ref])
  }

  lemma EdgesOfOne(n: Node, ids: map<Ref, nat>, e: Edge)
    requires n.ref in ids && forall p | p in n.parents :: p in ids
    ensures e in EdgesFrom(n.parents, ids[n.ref], ids) <==> IsReference(n, ids, e)
  {
  }

  /** As many edges as parent references, and each edge is one reference renamed. */
  lemma {:induction false} EdgesAreTheReferences(sorted: seq<Node>, ids: map<Ref, nat>, n: nat, e: Edge)
    requires n <= |sorted| && ResolvedBy(sorted, ids)
    ensures |TreeEdges(sorted, ids, n)| == ParentCount(sorted, n)
    ensures e in TreeEdges(sorted, ids, n) <==> exists i :: 0 <= i < n && IsReference(sorted[i], ids, e)
  {
    if n > 0 {
      EdgesAreTheReferences(sorted, ids, n - 1, e);
      EdgesOfOne(sorted[n - 1], ids, e);
    }
  }

  /** Different references get different ids, so the stored graph is the tree with its nodes renamed. */
  lemma RenamingIsInjective(nodes: seq<Node>, base: nat, r: Ref, s: Ref)
    requires Accepted(nodes)
    ensures var ids := Ids(CreationOrder(nodes), base, |CreationOrder(nodes)|);
            r in ids && s in ids && ids[r] == ids[s] ==> r == s
  {
    var sorted := CreationOrder(nodes);
    CreationOrderIsInOrder(nodes);
    var ids := Ids(sorted, base, |nodes|);
    if r in ids && s in ids {
      var i := IdBelongsToNode(sorted, base, |nodes|, r);
      var j := IdBelongsToNode(sorted, base, |nodes|, s);
    }
  }
}
