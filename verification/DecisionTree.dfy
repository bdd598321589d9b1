/** Validation of a recommended decision tree (backend/agent/generation_registry.py). */
module DecisionTree {
  import opened Json
  import opened Refs
  import opened Results
  import opened CycleSearch

  /** The optional fields of a node. */
  datatype Details = Details(summary: Option<string>, reasoning: Option<string>, risk: Option<string>,
                             confidence: Option<int>, topic: Option<string>)

  const NO_DETAILS := Details(None, None, None, None, None)

  datatype Node = Node(ref: Ref, layer: nat, title: string, parents: seq<Ref>, details: Details)

  datatype Problem =
    | NotAnObject | NodesRequired | NodesNotAList | UnexpectedKeys
    | NodeNotAnObject | UnexpectedNodeKeys | RefRequired | DuplicateRef | BadLayer | TitleRequired
    | ParentsNotAList | BadParent | SelfParent | BadRiskLevel | BadConfidence | NotAString
    | OrphanNotAtLayerZero | UnknownParent | LayerNotAboveParents | ContainsACycle

  const NODE_KEYS := {
    "ref", "layer", "title", "parent_refs", "context_summary", "reasoning", "risk_level", "confidence", "topic"
  }
  const RISK_LEVELS := {"LOW", "MEDIUM", "HIGH"}
  const OPTIONAL_STRINGS := ["context_summary", "reasoning", "topic"]

  // ----- what an accepted tree looks like

  ghost predicate Text(j: Json) {
    j.Str? && !IsBlank(j.s)
  }

  ghost predicate WellShaped(node: Json) {
    && node.Obj? && node.fields.Keys <= NODE_KEYS
    && Text(node.Get("ref")) && Text(node.Get("title"))
    && node.Get("layer").Int? && node.Get("layer").n >= 0
    && node.Get("parent_refs").Arr?
    && (forall p | p in node.Get("parent_refs").items :: Text(p) && p != node.Get("ref"))
    && OptionsFit(node)
  }

  ghost predicate OptionsFit(node: Json) {
    && (node.Get("risk_level").Null? || (node.Get("risk_level").Str? && node.Get("risk_level").s in RISK_LEVELS))
    && (node.Get("confidence").Null? || (node.Get("confidence").Int? && 1 <= node.Get("confidence").n <= 5))
    && forall k | k in OPTIONAL_STRINGS :: node.Get(k).Null? || node.Get(k).Str?
  }

  function RefsIn(items: seq<Json>): (rs: seq<Ref>)
    requires forall p | p in items :: p.Str?
    ensures |rs| == |items| && forall i | 0 <= i < |items| :: rs[i] == Ref(items[i].s)
  {
    seq(|items|, i requires 0 <= i < |items| => Ref(items[i].s))
  }

  function TextAt(node: Json, key: string): Option<string> {
    match node.Get(key)
    case Str(s) => Some(s)
    case _ => None
  }

  function NumberAt(node: Json, key: string): Option<int> {
    match node.Get(key)
    case Int(n) => Some(n)
    case _ => None
  }

  function DetailsOf(node: Json): Details {
    Details(TextAt(node, "context_summary"), TextAt(node, "reasoning"), TextAt(node, "risk_level"),
            NumberAt(node, "confidence"), TextAt(node, "topic"))
  }

  ghost function NodeOf(node: Json): Node
    requires WellShaped(node)
  {
    Node(Ref(node.Get("ref").s), node.Get("layer").n, node.Get("title").s, RefsIn(node.Get("parent_refs").items),
         DetailsOf(node))
  }

  ghost function NodesOf(items: seq<Json>): (nodes: seq<Node>)
    requires forall j | j in items :: WellShaped(j)
    ensures |nodes| == |items| && forall i | 0 <= i < |items| :: nodes[i] == NodeOf(items[i])
  {
    seq(|items|, i requires 0 <= i < |items| => NodeOf(items[i]))
  }

  ghost predicate UniqueRefs(nodes: seq<Node>) {
    forall i, j | 0 <= i < j < |nodes| :: nodes[i].ref != nodes[j].ref
  }

  /** The node that carries each reference. */
  function RefMap(nodes: seq<Node>): map<Ref, Node> {
    if nodes == [] then map[] else RefMap(nodes[..|nodes| - 1])[nodes[|nodes| - 1].ref := nodes[|nodes| - 1]]
  }

  /** Parents exist and lie in strictly lower layers, and only layer 0 has no parents. */
  ghost predicate Layered(refs: map<Ref, Node>) {
    forall r | r in refs :: LayerFits(refs, refs[r])
  }

  ghost predicate LayerFits(refs: map<Ref, Node>, node: Node) {
    && (node.parents == [] ==> node.layer == 0)
    && forall p | p in node.parents :: p in refs && refs[p].layer < node.layer
  }

  ghost predicate WellFormedNodes(items: seq<Json>) {
    (forall j | j in items :: WellShaped(j)) && UniqueRefs(NodesOf(items))
  }

  ghost predicate ValidTree(value: Json) {
    && value.Obj? && value.fields.Keys == {"nodes"} && value.Get("nodes").Arr?
    && WellFormedNodes(value.Get("nodes").items)
    && Layered(RefMap(NodesOf(value.Get("nodes").items)))
  }

  ghost function TreeNodes(value: Json): seq<Node>
    requires ValidTree(value)
  {
    NodesOf(value.Get("nodes").items)
  }

  function ParentGraph(refs: map<Ref, Node>): Graph {
    map r | r in refs :: refs[r].parents
  }

  // ----- what is wrong with a tree that is not accepted

  /** The fault that a problem tells of a node; `refs` are the references of the nodes before it. */
  ghost predicate Faulty(node: Json, refs: set<Ref>, problem: Problem) {
    match problem
    case NodeNotAnObject => !node.Obj?
    case UnexpectedNodeKeys => node.Obj? && !(node.fields.Keys <= NODE_KEYS)
    case RefRequired => !Text(node.Get("ref"))
    case DuplicateRef => node.Get("ref").Str? && Ref(node.Get("ref").s) in refs
    case BadLayer => !(node.Get("layer").Int? && node.Get("layer").n >= 0)
    case TitleRequired => !Text(node.Get("title"))
    case ParentsNotAList => !node.Get("parent_refs").Arr?
    case BadParent => node.Get("parent_refs").Arr? && exists p | p in node.Get("parent_refs").items :: !Text(p)
    case SelfParent => node.Get("parent_refs").Arr? && node.Get("ref") in node.Get("parent_refs").items
    case BadRiskLevel =>
      var risk := node.Get("risk_level"); !risk.Null? && !(risk.Str? && risk.s in RISK_LEVELS)
    case BadConfidence =>
      var confidence := node.Get("confidence"); !confidence.Null? && !(confidence.Int? && 1 <= confidence.n <= 5)
    case NotAString => exists k | k in OPTIONAL_STRINGS :: !node.Get(k).Null? && !node.Get(k).Str?
    case _ => false
  }

  /** The order in which a node is checked; its parents are checked one by one. */
  function Turn(problem: Problem): nat {
    match problem
    case NodeNotAnObject => 0
    case UnexpectedNodeKeys => 1
    case RefRequired => 2
    case DuplicateRef => 3
    case BadLayer => 4
    case TitleRequired => 5
    case ParentsNotAList => 6
    case BadParent => 7
    case SelfParent => 7
    case BadRiskLevel => 8
    case BadConfidence => 9
    case NotAString => 10
    case _ => 11
  }

  ghost predicate FirstFault(node: Json, refs: set<Ref>, problem: Problem) {
    Faulty(node, refs, problem) && forall p | Turn(p) < Turn(problem) :: !Faulty(node, refs, p)
  }

  /** The first node that is not accepted after the nodes before it. */
  ghost predicate FirstFaultyNode(items: seq<Json>, i: nat, problem: Problem) {
    i < |items| && WellFormedNodes(items[..i]) && FirstFault(items[i], RefsOf(NodesOf(items[..i])), problem)
  }

  /** The fault that a problem tells of a node's layer. */
  ghost predicate BadlyLayered(refs: map<Ref, Node>, node: Node, problem: Problem) {
    match problem
    case OrphanNotAtLayerZero => node.parents == [] && node.layer != 0
    case UnknownParent => exists p | p in node.parents :: p !in refs
    case LayerNotAboveParents => exists p | p in node.parents :: p in refs && refs[p].layer >= node.layer
    case _ => false
  }

  ghost predicate FirstBadLayer(refs: map<Ref, Node>, nodes: seq<Node>, i: nat, problem: Problem) {
    && i < |nodes| && (forall k: nat | k < i :: LayerFits(refs, nodes[k]))
    && BadlyLayered(refs, nodes[i], problem)
  }

  /** What a refusal tells of the tree. */
  ghost predicate Explains(value: Json, problem: Problem) {
    var nodes := value.Get("nodes");
    match problem
    case NotAnObject => !value.Obj?
    case NodesRequired => value.Obj? && nodes.Null?
    case NodesNotAList => !nodes.Null? && !nodes.Arr?
    case UnexpectedKeys => nodes.Arr? && value.fields.Keys != {"nodes"}
    case _ =>
      && nodes.Arr? && value.fields.Keys == {"nodes"}
      && if WellFormedNodes(nodes.items)
         then exists i :: FirstBadLayer(RefMap(NodesOf(nodes.items)), NodesOf(nodes.items), i, problem)
         else exists i :: FirstFaultyNode(nodes.items, i, problem)
  }

  // ----- the validator

  /** Exactly the trees described by `ValidTree` pass, and the final cycle search never objects. */
  method Validate(value: Json) returns (r: Result<seq<Node>, Problem>)
    ensures r.Ok? <==> ValidTree(value)
    ensures r.Ok? ==> r.value == TreeNodes(value)
    ensures r.Err? ==> Explains(value, r.error) && r.error != ContainsACycle
  {
    if !value.Obj? { return Err(NotAnObject); }
    if value.Get("nodes").Null? { return Err(NodesRequired); }
    if !value.Get("nodes").Arr? { return Err(NodesNotAList); }
    assert "nodes" in value.fields;
    if value.fields.Keys - {"nodes"} != {} {
      ghost var k :| k in value.fields.Keys - {"nodes"};
      return Err(UnexpectedKeys);
    }
    assert value.fields.Keys == {"nodes"};
    var parsed := CheckNodes(value.Get("nodes").items);
    if parsed.Err? { return Err(parsed.error); }
    var nodes := parsed.value;
    var refs := RefMap(nodes);
    var problem := CheckLayers(nodes, refs);
    if problem.Some? { return Err(problem.value); }
    var cyclic := HasParentCycle(nodes, refs);
    if cyclic { assert false; }
    return Ok(nodes);
  }

  /** The final search, which finds nothing. */
  method HasParentCycle(nodes: seq<Node>, refs: map<Ref, Node>) returns (cyclic: bool)
    requires UniqueRefs(nodes) && refs == RefMap(nodes) && Layered(refs)
    ensures !cyclic
  {
    var order := seq(|nodes|, i requires 0 <= i < |nodes| => nodes[i].ref);
    RefMapHoldsAll(nodes);
    LayeredIsClosed(refs);
    assert Members(order) == ParentGraph(refs).Keys by {
      forall x ensures x in Members(order) <==> x in refs {
        if x in Members(order) {
          var i :| 0 <= i < |order| && order[i] == x;
        }
        if x in refs {
          var i :| 0 <= i < |nodes| && nodes[i].ref == x;
          assert order[i] == x;
        }
      }
    }
    cyclic := ContainsCycle(ParentGraph(refs), order);
    LayeredIsAcyclic(refs);
  }

  ghost function RefsOf(nodes: seq<Node>): set<Ref> {
    set k | 0 <= k < |nodes| :: nodes[k].ref
  }

  lemma NextNode(items: seq<Json>, i: nat)
    requires i < |items| && WellFormedNodes(items[..i])
    ensures WellFormedNodes(items[..i + 1]) <==>
              WellShaped(items[i]) && NodeOf(items[i]).ref !in RefsOf(NodesOf(items[..i]))
    ensures WellFormedNodes(items[..i + 1]) ==> NodesOf(items[..i + 1]) == NodesOf(items[..i]) + [NodeOf(items[i])]
  {
    assert items[..i + 1] == items[..i] + [items[i]];
    if WellShaped(items[i]) {
      var nodes, more := NodesOf(items[..i]), NodesOf(items[..i + 1]);
      assert more == nodes + [NodeOf(items[i])];
      if NodeOf(items[i]).ref in RefsOf(nodes) {
        var k :| 0 <= k < i && nodes[k].ref == NodeOf(items[i]).ref;
        assert more[k].ref == more[i].ref;
      }
    }
  }

  lemma PrefixIsWellFormed(items: seq<Json>, i: nat)
    requires i <= |items| && WellFormedNodes(items)
    ensures WellFormedNodes(items[..i])
  {
    assert NodesOf(items[..i]) == NodesOf(items)[..i];
  }

  method CheckNodes(items: seq<Json>) returns (r: Result<seq<Node>, Problem>)
    ensures r.Ok? <==> WellFormedNodes(items)
    ensures r.Ok? ==> r.value == NodesOf(items)
    ensures r.Err? ==> exists i :: FirstFaultyNode(items, i, r.error)
  {
    var nodes: seq<Node>, refs: set<Ref> := [], {};
    for i := 0 to |items|
      invariant WellFormedNodes(items[..i]) && nodes == NodesOf(items[..i]) && refs == RefsOf(nodes)
    {
      NextNode(items, i);
      var n := CheckNode(items[i], refs);
      if n.Err? {
        if WellFormedNodes(items) { PrefixIsWellFormed(items, i + 1); }
        assert FirstFaultyNode(items, i, n.error);
        return Err(n.error);
      }
      nodes, refs := nodes + [n.value], refs + {n.value.ref};
    }
    assert items[..|items|] == items;
    return Ok(nodes);
  }

  /** One node of the list; `refs` are the references of the nodes before it. */
  method CheckNode(node: Json, refs: set<Ref>) returns (r: Result<Node, Problem>)
    ensures r.Ok? <==> WellShaped(node) && NodeOf(node).ref !in refs
    ensures r.Ok? ==> r.value == NodeOf(node)
    ensures r.Err? ==> FirstFault(node, refs, r.error)
  {
    var problem := CheckNames(node, refs);
    if problem.Some? { return Err(problem.value); }
    var ref, parents := node.Get("ref"), node.Get("parent_refs");
    problem := CheckParents(parents.items, ref);
    if problem.Some? { return Err(problem.value); }
    problem := CheckOptions(node);
    if problem.Some? { return Err(problem.value); }
    return Ok(Node(Ref(ref.s), node.Get("layer").n, node.Get("title").s, RefsIn(parents.items), DetailsOf(node)));
  }

  /** What comes before the parents. */
  ghost predicate NamesFit(node: Json, refs: set<Ref>) {
    && node.Obj? && node.fields.Keys <= NODE_KEYS
    && Text(node.Get("ref")) && Ref(node.Get("ref").s) !in refs
    && node.Get("layer").Int? && node.Get("layer").n >= 0
    && Text(node.Get("title")) && node.Get("parent_refs").Arr?
  }

  method CheckNames(node: Json, refs: set<Ref>) returns (r: Option<Problem>)
    ensures r.None? <==> NamesFit(node, refs)
    ensures r.Some? ==> FirstFault(node, refs, r.value)
  {
    if !node.Obj? { return Some(NodeNotAnObject); }
    if node.fields.Keys - NODE_KEYS != {} { return Some(UnexpectedNodeKeys); }
    var ref := node.Get("ref");
    if !ref.Str? || IsBlank(ref.s) { return Some(RefRequired); }
    if Ref(ref.s) in refs { return Some(DuplicateRef); }
    var layer := node.Get("layer");
    if !layer.Int? || layer.n < 0 { return Some(BadLayer); }
    var title := node.Get("title");
    if !title.Str? || IsBlank(title.s) { return Some(TitleRequired); }
    if !node.Get("parent_refs").Arr? { return Some(ParentsNotAList); }
    return None;
  }

  method CheckParents(parents: seq<Json>, ref: Json) returns (r: Option<Problem>)
    requires ref.Str?
    ensures r.None? <==> forall p | p in parents :: Text(p) && p != ref
    ensures r.Some? ==> || (r.value == BadParent && exists p | p in parents :: !Text(p))
                        || (r.value == SelfParent && ref in parents)
  {
    for k := 0 to |parents|
      invariant forall p | p in parents[..k] :: Text(p) && p != ref
    {
      var parent := parents[k];
      assert parents[..k + 1] == parents[..k] + [parent];
      assert parent in parents;
      if !parent.Str? || IsBlank(parent.s) { return Some(BadParent); }
      if parent.s == ref.s { return Some(SelfParent); }
    }
    assert parents[..|parents|] == parents;
    return None;
  }

  method CheckOptions(node: Json) returns (r: Option<Problem>)
    ensures match r
            case None => OptionsFit(node)
            case Some(BadRiskLevel) => Faulty(node, {}, BadRiskLevel)
            case Some(BadConfidence) => !Faulty(node, {}, BadRiskLevel) && Faulty(node, {}, BadConfidence)
            case Some(problem) =>
              && problem == NotAString && Faulty(node, {}, NotAString)
              && !Faulty(node, {}, BadRiskLevel) && !Faulty(node, {}, BadConfidence)
  {
    var risk := node.Get("risk_level");
    if !risk.Null? {
      if !risk.Str? || risk.s !in RISK_LEVELS { return Some(BadRiskLevel); }
    }
    var confidence := node.Get("confidence");
    if !confidence.Null? {
      if !confidence.Int? { return Some(BadConfidence); }
      if confidence.n < 1 || confidence.n > 5 { return Some(BadConfidence); }
    }
    for k := 0 to |OPTIONAL_STRINGS|
      invariant forall o | o in OPTIONAL_STRINGS[..k] :: node.Get(o).Null? || node.Get(o).Str?
    {
      var value := node.Get(OPTIONAL_STRINGS[k]);
      assert OPTIONAL_STRINGS[k] in OPTIONAL_STRINGS;
      if !value.Null? && !value.Str? { return Some(NotAString); }
    }
    assert OPTIONAL_STRINGS[..|OPTIONAL_STRINGS|] == OPTIONAL_STRINGS;
    return None;
  }

  method CheckLayers(nodes: seq<Node>, refs: map<Ref, Node>) returns (r: Option<Problem>)
    requires UniqueRefs(nodes) && refs == RefMap(nodes)
    ensures r.None? <==> Layered(refs)
    ensures r.Some? ==> exists i :: FirstBadLayer(refs, nodes, i, r.value)
  {
    RefMapHoldsAll(nodes);
    for i := 0 to |nodes|
      invariant forall k | 0 <= k < i :: LayerFits(refs, nodes[k])
    {
      var node := nodes[i];
      assert refs[node.ref] == node;
      if node.parents == [] {
        if node.layer != 0 {
          assert FirstBadLayer(refs, nodes, i, OrphanNotAtLayerZero);
          return Some(OrphanNotAtLayerZero);
        }
        continue;
      }
      var maxParentLayer := -1;
      for k := 0 to |node.parents|
        invariant forall p | p in node.parents[..k] :: p in refs && refs[p].layer < node.layer
        invariant maxParentLayer < node.layer
      {
        var parent := node.parents[k];
        assert parent in node.parents;
        if parent !in refs {
          assert FirstBadLayer(refs, nodes, i, UnknownParent);
          return Some(UnknownParent);
        }
        if refs[parent].layer >= node.layer {
          assert FirstBadLayer(refs, nodes, i, LayerNotAboveParents);
          return Some(LayerNotAboveParents);
        }
        maxParentLayer := if refs[parent].layer > maxParentLayer then refs[parent].layer else maxParentLayer;
      }
      assert node.parents[..|node.parents|] == node.parents;
      if node.layer <= maxParentLayer {
        assert false; // the comparisons above have already refused such a layer
      }
    }
    return None;
  }

  lemma {:induction false} RefMapHoldsAll(nodes: seq<Node>)
    requires UniqueRefs(nodes)
    ensures forall i | 0 <= i < |nodes| :: nodes[i].ref in RefMap(nodes) && RefMap(nodes)[nodes[i].ref] == nodes[i]
    ensures forall r | r in RefMap(nodes) :: exists i :: 0 <= i < |nodes| && nodes[i].ref == r
  {
    if nodes != [] {
      var front := nodes[..|nodes| - 1];
      RefMapHoldsAll(front);
      forall r | r in RefMap(nodes) ensures exists i :: 0 <= i < |nodes| && nodes[i].ref == r {
        if r in RefMap(front) {
          var i :| 0 <= i < |front| && front[i].ref == r;
          assert nodes[i].ref == r;
        } else {
          assert nodes[|nodes| - 1].ref == r;
        }
      }
    }
  }

  // ----- accepted trees are layered DAGs

  lemma LayeredIsClosed(refs: map<Ref, Node>)
    requires Layered(refs)
    ensures Closed(ParentGraph(refs))
  {
  }

  /** A node has no parents exactly when it lies in layer 0. */
  lemma ParentlessIsLayerZero(refs: map<Ref, Node>, r: Ref)
    requires Layered(refs) && r in refs
    ensures refs[r].parents == [] <==> refs[r].layer == 0
  {
    assert LayerFits(refs, refs[r]);
    if refs[r].parents != [] {
      assert refs[r].parents[0] in refs[r].parents;
    }
  }

  /** Along a chain of parents the layer falls at every link, so the chain is no longer than its first layer. */
  lemma {:induction false} ChainIsWithinLayer(refs: map<Ref, Node>, c: seq<Ref>)
    requires Layered(refs) && |c| >= 1 && Chain(ParentGraph(refs), c)
    ensures refs[c[|c| - 1]].layer + |c| - 1 <= refs[c[0]].layer
  {
    if |c| >= 2 {
      var g := ParentGraph(refs);
      assert c[1] in g[c[0]];
      assert LayerFits(refs, refs[c[0]]);
      assert Chain(g, c[1..]);
      ChainIsWithinLayer(refs, c[1..]);
    }
  }

  lemma LayeredIsAcyclic(refs: map<Ref, Node>)
    requires Layered(refs)
    ensures !Cyclic(ParentGraph(refs))
  {
    forall c | Cycle(ParentGraph(refs), c) ensures false {
      ChainIsWithinLayer(refs, c);
    }
  }

  /** Every node has a chain of parents that ends at a root in layer 0. */
  lemma {:induction false} ReachesRoot(refs: map<Ref, Node>, r: Ref) returns (c: seq<Ref>)
    requires Layered(refs) && r in refs
    ensures |c| >= 1 && c[0] == r && Chain(ParentGraph(refs), c)
    ensures refs[c[|c| - 1]].layer == 0 && refs[c[|c| - 1]].parents == []
    decreases refs[r].layer
  {
    ParentlessIsLayerZero(refs, r);
    if refs[r].layer == 0 {
      c := [r];
    } else {
      var p := refs[r].parents[0];
      assert LayerFits(refs, refs[r]);
      assert p in refs[r].parents;
      var rest := ReachesRoot(refs, p);
      c := [r] + rest;
      assert forall i | 0 <= i < |rest| :: c[i + 1] == rest[i];
    }
  }
}
