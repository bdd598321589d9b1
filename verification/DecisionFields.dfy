/** What a commit stores of an accepted tree, told by the keys of its JSON (backend/agent/decision_tree_service.py). */
module DecisionFields {
  import opened DecisionCommit
  import opened DecisionStore
  import opened DecisionTree
  import opened Json
  import opened Refs
  import opened Results
  import opened Sorting

  /** The first `n` characters of a text. */
  predicate IsCut(t: string, s: string, n: nat) {
    t <= s && |t| == if |s| < n then |s| else n
  }

  /** An optional text: null, absent and empty count as none. */
  predicate IsText(stored: Option<string>, given: Json) {
    match given
    case Str(s) => stored == if s == "" then None else Some(s)
    case _ => given.Null? && stored.None?
  }

  predicate IsNumber(stored: Option<int>, given: Json) {
    match given
    case Int(n) => stored == Some(n)
    case _ => given.Null? && stored.None?
  }

  /** A given topic is cut, and a missing or empty one is inferred from the stored title. */
  predicate IsTopic(stored: string, given: Json, title: string, infer: (string, set<string>) -> string,
                    known: set<string>) {
    match given
    case Str(s) => if s == "" then stored == infer(title, known) else IsCut(stored, s, 64)
    case _ => given.Null? && stored == infer(title, known)
  }

  /** The decision stored for a node of the JSON. */
  predicate IsStored(d: Decision, node: Json, infer: (string, set<string>) -> string, known: set<string>) {
    && node.Get("title").Str? && IsCut(d.title, node.Get("title").s, 255)
    && IsText(d.summary, node.Get("context_summary"))
    && IsText(d.reasoning, node.Get("reasoning"))
    && IsText(d.risk, node.Get("risk_level"))
    && IsNumber(d.confidence, node.Get("confidence"))
    && IsTopic(d.topic, node.Get("topic"), d.title, infer, known)
  }

  lemma NodeIsStored(node: Json, infer: (string, set<string>) -> string, known: set<string>)
    requires WellShaped(node)
    ensures IsStored(DecisionOf(NodeOf(node), infer, known), node, infer, known)
  {
    assert "context_summary" in OPTIONAL_STRINGS && "reasoning" in OPTIONAL_STRINGS && "topic" in OPTIONAL_STRINGS by {
      assert OPTIONAL_STRINGS[0] == "context_summary" && OPTIONAL_STRINGS[1] == "reasoning";
      assert OPTIONAL_STRINGS[2] == "topic";
    }
  }

  // ----- by number

  lemma {:induction false} DecisionAt(sorted: seq<Node>, topics: Topics, base: nat, n: nat, i: nat)
    requires i < n <= |sorted|
    ensures base + i in NewDecisions(sorted, topics, base, n)
    ensures NewDecisions(sorted, topics, base, n)[base + i]
         == DecisionOf(sorted[i], topics.infer, KnownTopics(sorted, topics, i))
  {
    if i < n - 1 {
      DecisionAt(sorted, topics, base, n - 1, i);
    }
  }

  lemma {:induction false} RowAt(sorted: seq<Node>, base: nat, n: nat, i: nat)
    requires i < n <= |sorted|
    ensures |Rows(sorted, base, n)| == n
    ensures Rows(sorted, base, n)[i] == Created(sorted[i].ref, base + i, Title(sorted[i]), sorted[i].layer)
  {
    if n > 1 {
      RowAt(sorted, base, n - 1, if i < n - 1 then i else 0);
    }
  }

  /** The topics of the project, and of the decisions before number `n`. */
  lemma {:induction false} KnownExactly(sorted: seq<Node>, topics: Topics, base: nat, n: nat,
                                        stored: map<nat, Decision>)
    requires n <= |sorted| && stored == NewDecisions(sorted, topics, base, |sorted|)
    requires forall id: nat | base <= id < base + |sorted| :: id in stored
    ensures KnownTopics(sorted, topics, n)
         == topics.existing + set id: nat | base <= id < base + n :: stored[id].topic
  {
    if n > 0 {
      KnownExactly(sorted, topics, base, n - 1, stored);
      DecisionAt(sorted, topics, base, |sorted|, n - 1);
      OneMoreTopic(stored, base, n);
    }
  }

  lemma OneMoreTopic(stored: map<nat, Decision>, base: nat, n: nat)
    requires n > 0 && forall id: nat | base <= id < base + n :: id in stored
    ensures (set id: nat | base <= id < base + n :: stored[id].topic)
         == (set id: nat | base <= id < base + n - 1 :: stored[id].topic) + {stored[base + n - 1].topic}
  {
  }

  /** The place of a node in creation order. */
  lemma PlaceOf(nodes: seq<Node>, n: Node, base: nat) returns (i: nat)
    requires Accepted(nodes) && n in nodes
    ensures i < |CreationOrder(nodes)| && CreationOrder(nodes)[i] == n
    ensures var ids := Ids(CreationOrder(nodes), base, |CreationOrder(nodes)|); n.ref in ids && ids[n.ref] == base + i
  {
    var sorted := CreationOrder(nodes);
    CreationOrderIsInOrder(nodes);
    assert n in multiset(sorted);
    i :| 0 <= i < |sorted| && sorted[i] == n;
    IdsNumberTheNodes(sorted, base, |sorted|);
  }

  /** Decision `id` and its row are those of the node; topics of the decisions before it are known. */
  ghost predicate StoredUnder(node: Json, stored: map<nat, Decision>, rows: seq<Created>, topics: Topics, base: nat,
                              id: nat)
  {
    && base <= id < base + |rows| && (forall i: nat :: i in stored <==> base <= i < base + |rows|)
    && node.Get("ref").Str? && node.Get("layer").Int? && node.Get("layer").n >= 0
    && rows[id - base] == Created(Ref(node.Get("ref").s), id, stored[id].title, node.Get("layer").n)
    && IsStored(stored[id], node, topics.infer, topics.existing + set i: nat | base <= i < id :: stored[i].topic)
  }

  lemma AtPlace(node: Json, sorted: seq<Node>, topics: Topics, base: nat, i: nat, stored: map<nat, Decision>,
                rows: seq<Created>)
    requires WellShaped(node) && i < |sorted| && sorted[i] == NodeOf(node)
    requires stored == NewDecisions(sorted, topics, base, |sorted|) && rows == Rows(sorted, base, |sorted|)
    ensures |rows| == |sorted| && StoredUnder(node, stored, rows, topics, base, base + i)
  {
    NewDecisionsAreNumbered(sorted, topics, base, |sorted|);
    DecisionAt(sorted, topics, base, |sorted|, i);
    RowAt(sorted, base, |sorted|, i);
    KnownExactly(sorted, topics, base, i, stored);
    NodeIsStored(node, topics.infer, KnownTopics(sorted, topics, i));
  }

  /**
   For every node of an accepted tree the commit stores one decision with the fields of the JSON, under the number
   that it reports; where a topic is missing, it is inferred from the topics of the project and of the decisions
   with smaller numbers.
   */
  lemma StoredAsGiven(value: Json, topics: Topics, base: nat, k: nat) returns (id: nat)
    requires ValidTree(value) && k < |value.Get("nodes").items|
    ensures var node, sorted := value.Get("nodes").items[k], CreationOrder(TreeNodes(value));
            var stored, rows := NewDecisions(sorted, topics, base, |sorted|), Rows(sorted, base, |sorted|);
            && |rows| == |value.Get("nodes").items| && StoredUnder(node, stored, rows, topics, base, id)
            && Ref(node.Get("ref").s) in Ids(sorted, base, |sorted|)
            && Ids(sorted, base, |sorted|)[Ref(node.Get("ref").s)] == id
  {
    var node, nodes := value.Get("nodes").items[k], TreeNodes(value);
    assert node in value.Get("nodes").items && nodes[k] == NodeOf(node) && nodes[k] in nodes;
    var sorted := CreationOrder(nodes);
    CreationOrderIsInOrder(nodes);
    var i := PlaceOf(nodes, NodeOf(node), base);
    id := base + i;
    AtPlace(node, sorted, topics, base, i, NewDecisions(sorted, topics, base, |sorted|), Rows(sorted, base, |sorted|));
  }

  /** Decisions are numbered by layer, and within a layer by reference. */
  lemma NumberedByLayerAndRef(nodes: seq<Node>, i: nat, j: nat)
    requires Accepted(nodes) && i < j < |CreationOrder(nodes)|
    ensures var m, n := CreationOrder(nodes)[i], CreationOrder(nodes)[j];
            m.layer < n.layer || (m.layer == n.layer && m.ref != n.ref && StringLeq(m.ref.text, n.ref.text))
  {
    var leq := (m: Node, n: Node) => m.layer < n.layer || (m.layer == n.layer && StringLeq(m.ref.text, n.ref.text));
    CreationOrderIsInOrder(nodes);
    KeyOrderIsTotal(leq);
    SortIsSorted(leq, nodes);
    assert leq(CreationOrder(nodes)[i], CreationOrder(nodes)[j]);
  }

  /** A parent reference of the JSON, as a stored edge. */
  predicate IsGiven(node: Json, ids: map<Ref, nat>, e: Edge) {
    && node.Get("ref").Str? && node.Get("parent_refs").Arr? && Ref(node.Get("ref").s) in ids
    && exists p | p in node.Get("parent_refs").items :: p.Str? && Ref(p.s) in ids
                                                       && e == Edge(ids[Ref(p.s)], ids[Ref(node.Get("ref").s)])
  }

  lemma ReferenceIsGiven(node: Json, ids: map<Ref, nat>, e: Edge)
    requires WellShaped(node)
    ensures IsReference(NodeOf(node), ids, e) <==> IsGiven(node, ids, e)
  {
    var items, parents := node.Get("parent_refs").items, NodeOf(node).parents;
    if IsReference(NodeOf(node), ids, e) {
      var p :| p in parents && p in ids && e == Edge(ids[p], ids[NodeOf(node).ref]);
      var i :| 0 <= i < |parents| && parents[i] == p;
      assert items[i] in items;
    }
    if IsGiven(node, ids, e) {
      var p :| p in items && p.Str? && Ref(p.s) in ids && e == Edge(ids[Ref(p.s)], ids[Ref(node.Get("ref").s)]);
      var i :| 0 <= i < |items| && items[i] == p;
      assert parents[i] == Ref(p.s);
    }
  }

  /** The stored edges lead from the parents that the JSON lists to their children, and there are no others. */
  lemma EdgesAsGiven(value: Json, base: nat, e: Edge)
    requires ValidTree(value)
    ensures var sorted, items := CreationOrder(TreeNodes(value)), value.Get("nodes").items;
            var ids := Ids(sorted, base, |sorted|);
            && ResolvedBy(sorted, ids)
            && (e in TreeEdges(sorted, ids, |sorted|) <==> exists k :: 0 <= k < |items| && IsGiven(items[k], ids, e))
  {
    var nodes, items := TreeNodes(value), value.Get("nodes").items;
    var sorted := CreationOrder(nodes);
    var ids := Ids(sorted, base, |sorted|);
    CreationOrderIsInOrder(nodes);
    IdsAreNumbered(sorted, base);
    EdgesAreTheReferences(sorted, ids, |sorted|, e);
    forall k | 0 <= k < |items| ensures IsReference(nodes[k], ids, e) <==> IsGiven(items[k], ids, e) {
      assert items[k] in items;
      ReferenceIsGiven(items[k], ids, e);
    }
    SameReferences(nodes, sorted, ids, e);
  }

  lemma SameReferences(nodes: seq<Node>, sorted: seq<Node>, ids: map<Ref, nat>, e: Edge)
    requires multiset(nodes) == multiset(sorted)
    ensures (exists i :: 0 <= i < |sorted| && IsReference(sorted[i], ids, e))
        <==> (exists k :: 0 <= k < |nodes| && IsReference(nodes[k], ids, e))
  {
    if i :| 0 <= i < |sorted| && IsReference(sorted[i], ids, e) {
      assert sorted[i] in multiset(nodes);
      var k :| 0 <= k < |nodes| && nodes[k] == sorted[i];
    }
    if k :| 0 <= k < |nodes| && IsReference(nodes[k], ids, e) {
      assert nodes[k] in multiset(sorted);
      var i :| 0 <= i < |sorted| && sorted[i] == nodes[k];
    }
  }
}
